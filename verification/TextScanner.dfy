/**
 The one-pass scanner that finds the end of a verb body: whether it is inside a string, a line
 comment or a block comment, character by character, and the body it finds.
 */
module TextScanner {

  import opened MooText
  import opened Lexer

  datatype Mode = CodeMode | StringMode(escaped: bool) | LineMode | BlockMode

  // What a character is part of.
  datatype Role = CodeRole | StringRole | LineRole | BlockRole

  predicate IsBlockEnd(s: string, p: nat) { At(s, p, '*') && At(s, p + 1, '/') }

  // How many characters the scanner takes at p.
  function Width(s: string, p: nat, m: Mode): (w: nat)
    requires p < |s|
    ensures 1 <= w && p + w <= |s|
  {
    match m
    case CodeMode => if IsLineComment(s, p) || IsBlockComment(s, p) then 2 else 1
    case BlockMode => if IsBlockEnd(s, p) then 2 else 1
    case _ => 1
  }

  // Its mode after them.
  function NextMode(s: string, p: nat, m: Mode): Mode
    requires p < |s|
  {
    match m
    case StringMode(escaped) =>
      if escaped then StringMode(false)
      else if s[p] == '\\' then StringMode(true)
      else if s[p] == '"' then CodeMode
      else m
    case LineMode => if s[p] == '\n' then CodeMode else m
    case BlockMode => if IsBlockEnd(s, p) then CodeMode else m
    case CodeMode =>
      if IsLineComment(s, p) then LineMode
      else if IsBlockComment(s, p) then BlockMode
      else if s[p] == '"' then StringMode(false)
      else m
  }

  // What they are part of. The line feed that ends a line comment is code.
  function StepRole(s: string, p: nat, m: Mode): Role
    requires p < |s|
  {
    match m
    case StringMode(_) => StringRole
    case LineMode => if s[p] == '\n' then CodeRole else LineRole
    case BlockMode => BlockRole
    case CodeMode =>
      if IsLineComment(s, p) then LineRole
      else if IsBlockComment(s, p) then BlockRole
      else if s[p] == '"' then StringRole
      else CodeRole
  }

  function Repeat(r: Role, n: nat): (rs: seq<Role>)
    ensures |rs| == n
  {
    seq(n, _ => r)
  }

  // The role of every character from p on, scanning from mode m.
  function RolesFrom(s: string, p: nat, m: Mode): (rs: seq<Role>)
    requires p <= |s|
    ensures |rs| == |s| - p
    decreases |s| - p
  {
    if p == |s| then []
    else Repeat(StepRole(s, p, m), Width(s, p, m)) + RolesFrom(s, p + Width(s, p, m), NextMode(s, p, m))
  }

  function ScanRoles(s: string): seq<Role> {
    RolesFrom(s, 0, CodeMode)
  }

  // The mode at the end of the text.
  function FinalMode(s: string, p: nat, m: Mode): Mode
    requires p <= |s|
    decreases |s| - p
  {
    if p == |s| then m else FinalMode(s, p + Width(s, p, m), NextMode(s, p, m))
  }

  function ModeRole(m: Mode): Role {
    match m
    case CodeMode => CodeRole
    case StringMode(_) => StringRole
    case LineMode => LineRole
    case BlockMode => BlockRole
  }

  // ---------------------------------------------------------------- stretches of one role

  // From p in mode m the scanner reaches q in mode n, through characters of one role.
  ghost predicate Runs(s: string, p: nat, m: Mode, role: Role, q: nat, n: Mode) {
    && p <= q <= |s|
    && RolesFrom(s, p, m) == Repeat(role, q - p) + RolesFrom(s, q, n)
    && FinalMode(s, p, m) == FinalMode(s, q, n)
  }

  lemma StepRuns(s: string, p: nat, m: Mode)
    requires p < |s|
    ensures Runs(s, p, m, StepRole(s, p, m), p + Width(s, p, m), NextMode(s, p, m))
  {
  }

  lemma StayRuns(s: string, p: nat, m: Mode, role: Role)
    requires p <= |s|
    ensures Runs(s, p, m, role, p, m)
  {
    assert Repeat(role, 0) + RolesFrom(s, p, m) == RolesFrom(s, p, m);
  }

  lemma JoinRuns(s: string, p: nat, m: Mode, role: Role, q: nat, n: Mode, r: nat, o: Mode)
    requires Runs(s, p, m, role, q, n) && Runs(s, q, n, role, r, o)
    ensures Runs(s, p, m, role, r, o)
  {
    var a, b := Repeat(role, q - p), Repeat(role, r - q);
    assert a + b == Repeat(role, r - p);
    assert a + (b + RolesFrom(s, r, o)) == (a + b) + RolesFrom(s, r, o);
  }

  // At the end of the text the mode no longer matters to the roles.
  lemma EndRoles(s: string, m: Mode)
    ensures RolesFrom(s, |s|, m) == []
  {
  }

  lemma FinalAtEnd(s: string, m: Mode)
    ensures FinalMode(s, |s|, m) == m
  {
  }

  // A character that starts neither a string nor a comment is code.
  predicate CodeAt(s: string, p: nat)
    requires p < |s|
  {
    s[p] != '"' && !IsLineComment(s, p) && !IsBlockComment(s, p)
  }

  lemma {:induction false} CodeSpanRuns(s: string, p: nat, q: nat)
    requires p <= q <= |s|
    requires forall i :: p <= i < q ==> CodeAt(s, i)
    ensures Runs(s, p, CodeMode, CodeRole, q, CodeMode)
    decreases q - p
  {
    StayRuns(s, p, CodeMode, CodeRole);
    if p < q {
      assert CodeAt(s, p);
      StepRuns(s, p, CodeMode);
      CodeSpanRuns(s, p + 1, q);
      JoinRuns(s, p, CodeMode, CodeRole, p + 1, CodeMode, q, CodeMode);
    }
  }

  lemma {:induction false} LineSpanRuns(s: string, p: nat, q: nat)
    requires p <= q <= |s|
    requires forall i :: p <= i < q ==> InLine(s[i])
    ensures Runs(s, p, LineMode, LineRole, q, LineMode)
    decreases q - p
  {
    StayRuns(s, p, LineMode, LineRole);
    if p < q {
      StepRuns(s, p, LineMode);
      LineSpanRuns(s, p + 1, q);
      JoinRuns(s, p, LineMode, LineRole, p + 1, LineMode, q, LineMode);
    }
  }

  // ---------------------------------------------------------------- strings and block comments

  // Where the scanner leaves a string, and whether a quote closed it.
  function StringScan(s: string, p: nat, escaped: bool): (r: (nat, bool))
    requires p <= |s|
    ensures p <= r.0 <= |s| && (r.1 ==> p < r.0) && (!r.1 ==> r.0 == |s|)
    decreases |s| - p
  {
    if p == |s| then (p, false)
    else if !escaped && s[p] == '"' then (p + 1, true)
    else StringScan(s, p + 1, !escaped && s[p] == '\\')
  }

  // Escapes longer than two characters hold no quote and no backslash past the first two.
  lemma {:induction false} StringScanSkips(s: string, p: nat, q: nat)
    requires p <= q <= |s|
    requires forall i :: p <= i < q ==> InString(s[i])
    ensures StringScan(s, p, false) == StringScan(s, q, false)
    decreases q - p
  {
    if p < q { StringScanSkips(s, p + 1, q); }
  }

  // The lexer and the scanner leave a string at the same place.
  lemma {:induction false} StringEndsAgree(s: string, p: nat)
    requires p <= |s|
    ensures StringRest(s, p) == StringScan(s, p, false)
    decreases |s| - p
  {
    if p < |s| && s[p] != '"' {
      if s[p] == '\\' {
        if p + 1 < |s| {
          var e := EscapeEnd(s, p + 1);
          StringEndsAgree(s, e);
          StringScanSkips(s, p + 2, e);
        }
      } else {
        StringEndsAgree(s, p + 1);
      }
    }
  }

  // From p in mode m through a string to its end; if unclosed, to the end of the text inside it.
  ghost predicate LeavesString(s: string, p: nat, m: Mode, end: (nat, bool)) {
    && p <= end.0 <= |s|
    && RolesFrom(s, p, m) == Repeat(StringRole, end.0 - p) + RolesFrom(s, end.0, CodeMode)
    && (if end.1 then FinalMode(s, p, m) == FinalMode(s, end.0, CodeMode)
        else end.0 == |s| && FinalMode(s, p, m).StringMode?)
  }

  lemma {:induction false} StringScanRuns(s: string, p: nat, escaped: bool)
    requires p <= |s|
    ensures LeavesString(s, p, StringMode(escaped), StringScan(s, p, escaped))
    decreases |s| - p
  {
    var m := StringMode(escaped);
    if p < |s| {
      StepRuns(s, p, m);
      if escaped || s[p] != '"' {
        var next := !escaped && s[p] == '\\';
        StringScanRuns(s, p + 1, next);
        JoinLeaves(s, p, m, p + 1, StringMode(next), StringScan(s, p + 1, next));
      }
    }
  }

  lemma JoinLeaves(s: string, p: nat, m: Mode, q: nat, n: Mode, end: (nat, bool))
    requires q <= |s| && Runs(s, p, m, StringRole, q, n)
    requires LeavesString(s, q, n, end)
    ensures LeavesString(s, p, m, end)
  {
    var a, b := Repeat(StringRole, q - p), Repeat(StringRole, end.0 - q);
    assert a + b == Repeat(StringRole, end.0 - p);
    assert a + (b + RolesFrom(s, end.0, CodeMode)) == (a + b) + RolesFrom(s, end.0, CodeMode);
  }

  // How many backslashes stand directly before q, from p on.
  function Backslashes(s: string, p: nat, q: nat): nat
    requires p <= q <= |s|
    decreases q
  {
    if p < q && s[q - 1] == '\\' then 1 + Backslashes(s, p, q - 1) else 0
  }

  // Without a quote the scanner stays inside the string, and the next character is escaped after an odd number of
  // backslashes.
  lemma {:induction false} QuotelessRuns(s: string, p: nat, q: nat)
    requires p <= q <= |s|
    requires forall i :: p <= i < q ==> s[i] != '"'
    ensures var escaped := Backslashes(s, p, q) % 2 == 1;
      && Runs(s, p, StringMode(false), StringRole, q, StringMode(escaped))
      && StringScan(s, p, false) == StringScan(s, q, escaped)
    decreases q
  {
    if p == q {
      StayRuns(s, p, StringMode(false), StringRole);
    } else {
      QuotelessRuns(s, p, q - 1);
      var before, escaped := Backslashes(s, p, q - 1) % 2 == 1, Backslashes(s, p, q) % 2 == 1;
      StepRuns(s, q - 1, StringMode(before));
      assert escaped == (!before && s[q - 1] == '\\');
      JoinRuns(s, p, StringMode(false), StringRole, q - 1, StringMode(before), q, StringMode(escaped));
    }
  }

  lemma {:induction false} BlockRestRuns(s: string, p: nat)
    requires p <= |s|
    ensures Runs(s, p, BlockMode, BlockRole, BlockRest(s, p).0, if BlockRest(s, p).1 then CodeMode else BlockMode)
    decreases |s| - p
  {
    if p == |s| {
      StayRuns(s, p, BlockMode, BlockRole);
    } else {
      StepRuns(s, p, BlockMode);
      if !IsBlockEnd(s, p) {
        BlockRestRuns(s, p + 1);
        JoinRuns(s, p, BlockMode, BlockRole, p + 1, BlockMode, BlockRest(s, p + 1).0,
                 if BlockRest(s, p + 1).1 then CodeMode else BlockMode);
      }
    }
  }

}
