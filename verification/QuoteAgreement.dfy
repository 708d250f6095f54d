/**
 The scan for a statement terminator against the lexer. The scan knows strings and nothing of comments or binary
 literals. It gives every character the role the lexer gives it, comments being code to it, exactly when no comment
 holds a quote and no binary literal is misread. Where it is in code at every token outside comments, it finds
 exactly the semicolon tokens and the semicolons of comments that it reads as code.
 */
module QuoteAgreement {

  import opened Prelude
  import opened MooText
  import opened Lexer
  import opened LexerShape
  import opened TextScanner
  import opened ScannerAgreement
  import opened StatementTerminator

  // ---------------------------------------------------------------- stretches of text

  // The mode before the character at q, from mode m at p.
  function QuoteAfter(s: string, p: nat, q: nat, m: Mode): Mode
    requires p <= q <= |s|
    decreases q
  {
    if p == q then m else QuoteNext(s[q - 1], QuoteAfter(s, p, q - 1, m))
  }

  lemma {:induction false} QuoteModeIsAfter(s: string, i: nat)
    requires i <= |s|
    ensures QuoteMode(s, i) == QuoteAfter(s, 0, i, CodeMode)
  {
    if i > 0 { QuoteModeIsAfter(s, i - 1); }
  }

  lemma {:induction false} QuoteAfterJoin(s: string, p: nat, q: nat, r: nat, m: Mode)
    requires p <= q <= r <= |s|
    ensures QuoteAfter(s, p, r, m) == QuoteAfter(s, q, r, QuoteAfter(s, p, q, m))
    decreases r
  {
    if q < r { QuoteAfterJoin(s, p, q, r - 1, m); }
  }

  // The scan goes on from the mode it is in.
  lemma QuoteModeJoin(s: string, p: nat, q: nat)
    requires p <= q <= |s|
    ensures QuoteMode(s, q) == QuoteAfter(s, p, q, QuoteMode(s, p))
  {
    QuoteModeIsAfter(s, p);
    QuoteModeIsAfter(s, q);
    QuoteAfterJoin(s, 0, p, q, CodeMode);
  }

  function QuoteRole(c: char, m: Mode): Role {
    if m.StringMode? || c == '"' then StringRole else CodeRole
  }

  // The role of every character of a stretch, from mode m on.
  function QuoteRoles(s: string, p: nat, q: nat, m: Mode): (rs: seq<Role>)
    requires p <= q <= |s|
    ensures |rs| == q - p
    decreases q
  {
    if p == q then [] else QuoteRoles(s, p, q - 1, m) + [QuoteRole(s[q - 1], QuoteAfter(s, p, q - 1, m))]
  }

  lemma {:induction false} QuoteRolesJoin(s: string, p: nat, q: nat, r: nat, m: Mode)
    requires p <= q <= r <= |s|
    ensures QuoteRoles(s, p, r, m) == QuoteRoles(s, p, q, m) + QuoteRoles(s, q, r, QuoteAfter(s, p, q, m))
    decreases r
  {
    if q < r {
      QuoteRolesJoin(s, p, q, r - 1, m);
      QuoteAfterJoin(s, p, q, r - 1, m);
    }
  }

  lemma {:induction false} QuoteRoleAt(s: string, p: nat, q: nat, m: Mode, i: nat)
    requires p <= i < q <= |s|
    ensures QuoteRoles(s, p, q, m)[i - p] == QuoteRole(s[i], QuoteAfter(s, p, i, m))
    decreases q
  {
    if i < q - 1 { QuoteRoleAt(s, p, q - 1, m, i); }
  }

  // ---------------------------------------------------------------- tokens

  // Text without a quote is code to the scan.
  lemma {:induction false} QuotelessIsCode(s: string, p: nat, q: nat)
    requires p <= q <= |s| && forall i :: p <= i < q ==> s[i] != '"'
    ensures QuoteAfter(s, p, q, CodeMode) == CodeMode && QuoteRoles(s, p, q, CodeMode) == Repeat(CodeRole, q - p)
    decreases q
  {
    if p < q {
      QuotelessIsCode(s, p, q - 1);
      assert Repeat(CodeRole, q - 1 - p) + [CodeRole] == Repeat(CodeRole, q - p);
    }
  }

  // The scan is inside the string up to where it ends, and in code there.
  lemma {:induction false} StringInside(s: string, p: nat, escaped: bool, q: nat)
    requires p <= q <= |s|
    ensures var r := StringScan(s, p, escaped);
      && (q < r.0 || !r.1 ==> QuoteAfter(s, p, q, StringMode(escaped)).StringMode?)
      && (q == r.0 && r.1 ==> QuoteAfter(s, p, q, StringMode(escaped)) == CodeMode)
    decreases |s| - p
  {
    if p < q {
      var next := QuoteNext(s[p], StringMode(escaped));
      QuoteAfterJoin(s, p, p + 1, q, StringMode(escaped));
      assert QuoteAfter(s, p, p + 1, StringMode(escaped)) == next;
      if next.StringMode? { StringInside(s, p + 1, next.escaped, q); }
    }
  }

  // A stretch that starts with a quote in code and stays inside the string up to its last character.
  lemma {:induction false} StringRoles(s: string, p: nat, q: nat)
    requires At(s, p, '"') && p < q <= |s|
    requires var r := StringScan(s, p + 1, false); q <= r.0 || !r.1
    ensures QuoteRoles(s, p, q, CodeMode) == Repeat(StringRole, q - p)
    decreases q
  {
    if p + 1 < q {
      StringRoles(s, p, q - 1);
      QuoteAfterJoin(s, p, p + 1, q - 1, CodeMode);
      assert QuoteAfter(s, p, p + 1, CodeMode) == StringMode(false);
      StringInside(s, p + 1, false, q - 1);
      assert Repeat(StringRole, q - 1 - p) + [StringRole] == Repeat(StringRole, q - p);
    } else {
      assert QuoteRoles(s, p, p, CodeMode) == [];
      assert QuoteRoles(s, p, q, CodeMode) == [StringRole] == Repeat(StringRole, 1);
    }
  }

  // Where the scan is after a token outside comments that it meets in code.
  function TokenMode(s: string, t: Token): Mode
    requires t.start <= t.end <= |s|
  {
    QuoteAfter(s, t.start, t.end, CodeMode)
  }

  predicate MisreadToken(s: string, t: Token) {
    IsBinary(s, t.start) && Misread(s, t.start)
  }

  // It gives the token's characters the lexer's roles, and is in code after it unless the token is a misread binary
  // literal or the text ends inside it.
  ghost predicate QuotedAlike(s: string, t: Token) {
    && t.start < t.end <= |s|
    && QuoteRoles(s, t.start, t.end, CodeMode) == TokenRoles(s, t)
    && (TokenMode(s, t) == CodeMode || TokenMode(s, t).StringMode?)
    && (TokenMode(s, t).StringMode? <==> MisreadToken(s, t) || (t.end == |s| && OpenRole(s, t) == StringRole))
  }

  lemma PlainAlike(s: string, t: Token)
    requires Shape(s, t) && CodeAt(s, t.start) && !IsBinary(s, t.start)
    ensures QuotedAlike(s, t)
  {
    QuotelessIsCode(s, t.start, t.end);
  }

  lemma StringAlike(s: string, t: Token)
    requires Shape(s, t) && At(s, t.start, '"')
    ensures QuotedAlike(s, t)
  {
    var p := t.start;
    StringEndsAgree(s, p + 1);
    StringRoles(s, p, t.end);
    QuoteAfterJoin(s, p, p + 1, t.end, CodeMode);
    assert QuoteAfter(s, p, p + 1, CodeMode) == StringMode(false);
    StringInside(s, p + 1, false, t.end);
  }

  // The string after the first letter does not end before the literal does, and ends with it if it is read right.
  lemma BinaryInside(s: string, p: nat)
    requires IsBinary(s, p)
    ensures var r, e := StringScan(s, p + 2, false), BinaryToken(s, p).end;
      && (e <= r.0 || !r.1)
      && (Misread(s, p) ==> e < r.0 || !r.1)
      && (!Misread(s, p) ==> r == (e, BinaryRest(s, p + 2).2))
  {
    hide Runs, BinaryRest;
    MisreadExactly(s, p);
    BinaryStops(s, p + 2);
    QuotelessRuns(s, p + 2, BinaryStop(s, p + 2));
  }

  lemma BinaryRoles(s: string, p: nat, e: nat)
    requires IsBinary(s, p) && p + 2 <= e <= |s|
    requires var r := StringScan(s, p + 2, false); e <= r.0 || !r.1
    ensures QuoteRoles(s, p, e, CodeMode) == [CodeRole] + Repeat(StringRole, e - p - 1)
  {
    hide StringScan, QuoteRoles, QuoteAfter;
    StringRoles(s, p + 1, e);
    QuoteRolesJoin(s, p, p + 1, e, CodeMode);
    QuotelessIsCode(s, p, p + 1);
    assert Repeat(CodeRole, 1) == [CodeRole];
  }

  lemma BinaryMode(s: string, p: nat, e: nat)
    requires IsBinary(s, p) && p + 2 <= e <= |s|
    ensures QuoteAfter(s, p, e, CodeMode) == QuoteAfter(s, p + 2, e, StringMode(false))
  {
    QuoteAfterJoin(s, p, p + 2, e, CodeMode);
    assert QuoteAfter(s, p, p + 1, CodeMode) == CodeMode;
  }

  lemma BinaryModeAfter(s: string, p: nat)
    requires IsBinary(s, p)
    ensures var t := BinaryToken(s, p);
      TokenMode(s, t).StringMode? <==> Misread(s, p) || (t.end == |s| && !BinaryRest(s, p + 2).2)
  {
    hide StringScan, BinaryRest, Misread, QuoteAfter;
    var e := BinaryToken(s, p).end;
    BinaryInside(s, p);
    BinaryMode(s, p, e);
    StringInside(s, p + 2, false, e);
  }

  lemma BinaryAlike(s: string, t: Token)
    requires Shape(s, t) && IsBinary(s, t.start)
    ensures QuotedAlike(s, t)
  {
    var p := t.start;
    assert t == BinaryToken(s, p);
    hide StringScan, BinaryRest, Misread, QuoteRoles, QuoteAfter, Shape, OpenRole;
    BinaryInside(s, p);
    BinaryRoles(s, p, t.end);
    BinaryOpen(s, p);
    BinaryModeAfter(s, p);
    QuoteModes(s, p, t.end);
  }

  lemma {:induction false} QuoteModes(s: string, p: nat, q: nat)
    requires p <= q <= |s|
    ensures var m := QuoteAfter(s, p, q, CodeMode); m == CodeMode || m.StringMode?
    decreases q
  {
    if p < q { QuoteModes(s, p, q - 1); }
  }

  lemma TokenAlike(s: string, t: Token)
    requires Shape(s, t) && !IsComment(s, t)
    ensures QuotedAlike(s, t)
  {
    if At(s, t.start, '"') { StringAlike(s, t); }
    else if IsBinary(s, t.start) { BinaryAlike(s, t); }
    else { PlainAlike(s, t); }
  }

  // ---------------------------------------------------------------- role for role

  // The lexer's roles, a comment being code.
  function PlainRoles(s: string, ts: seq<Token>): seq<Role> {
    if ts == [] then [] else PlainTokenRoles(s, ts[0]) + PlainRoles(s, ts[1..])
  }

  function PlainTokenRoles(s: string, t: Token): seq<Role> {
    if IsComment(s, t) && t.start <= t.end then Repeat(CodeRole, t.end - t.start) else TokenRoles(s, t)
  }

  // The same role for every character from p on, and the same answer at the end whether it is inside a string.
  ghost predicate QuoteAgree(s: string, p: nat, m: Mode, ts: seq<Token>)
    requires p <= |s|
  {
    && QuoteRoles(s, p, |s|, m) == PlainRoles(s, ts)
    && (p < |s| ==> (QuoteAfter(s, p, |s|, m).StringMode? <==> LexEnd(s, ts) == StringRole))
  }

  predicate QuoteIn(s: string, t: Token) {
    exists i :: t.start <= i < t.end && At(s, i, '"')
  }

  predicate PlainTokenClean(s: string, t: Token) {
    !(IsComment(s, t) && QuoteIn(s, t)) && !MisreadToken(s, t)
  }

  // No comment holds a quote, and no binary literal is misread.
  predicate QuoteClean(s: string, ts: seq<Token>) {
    forall t :: t in ts ==> PlainTokenClean(s, t)
  }

  lemma QuoteCleanUnfolds(s: string, ts: seq<Token>)
    requires ts != []
    ensures QuoteClean(s, ts) <==> PlainTokenClean(s, ts[0]) && QuoteClean(s, ts[1..])
  {
    assert ts == [ts[0]] + ts[1..];
  }

  // Past a token with the same roles for both, they agree exactly when they agree on the rest.
  lemma QuoteAgreeStep(s: string, p: nat, ts: seq<Token>, m: Mode)
    requires Begins(s, p, ts) && ts[0].end <= |s|
    requires QuoteRoles(s, p, ts[0].end, m) == PlainTokenRoles(s, ts[0])
    ensures var n := QuoteAfter(s, p, ts[0].end, m);
      QuoteAgree(s, p, m, ts) <==>
        && QuoteAgree(s, ts[0].end, n, ts[1..])
        && (ts[0].end == |s| ==> (n.StringMode? <==> OpenRole(s, ts[0]) == StringRole))
  {
    var e := ts[0].end;
    var n := QuoteAfter(s, p, e, m);
    Unfold(s, p, ts);
    QuoteRolesJoin(s, p, e, |s|, m);
    QuoteAfterJoin(s, p, e, |s|, m);
    SamePrefix(PlainTokenRoles(s, ts[0]), QuoteRoles(s, e, |s|, n), PlainRoles(s, ts[1..]));
  }

  // At a token whose first roles differ they disagree.
  lemma QuoteFirstDiffers(s: string, p: nat, ts: seq<Token>, m: Mode, i: nat)
    requires Begins(s, p, ts) && p <= i < ts[0].end <= |s|
    requires |PlainTokenRoles(s, ts[0])| == ts[0].end - p
    requires QuoteRole(s[i], QuoteAfter(s, p, i, m)) != PlainTokenRoles(s, ts[0])[i - p]
    ensures !QuoteAgree(s, p, m, ts)
  {
    QuoteRoleAt(s, p, |s|, m, i);
    assert PlainRoles(s, ts)[i - p] == PlainTokenRoles(s, ts[0])[i - p];
  }

  // Two quotes leave a string and enter one.
  lemma QuotePair(s: string, p: nat)
    requires At(s, p, '"') && At(s, p + 1, '"')
    ensures QuoteAfter(s, p, p + 2, StringMode(false)) == StringMode(false)
    ensures QuoteRoles(s, p, p + 2, StringMode(false)) == Repeat(StringRole, 2)
  {
    assert QuoteAfter(s, p, p + 1, StringMode(false)) == CodeMode;
    assert QuoteRoles(s, p, p, StringMode(false)) == [];
    assert QuoteRoles(s, p, p + 1, StringMode(false)) == [StringRole];
  }

  // Once the lexer starts a token where the scan is in a string, they cannot agree again.
  lemma {:induction false} QuoteOpposite(s: string, p: nat, ts: seq<Token>, escaped: bool)
    requires Begins(s, p, ts)
    requires escaped ==> !InLine(s[p])
    ensures !QuoteAgree(s, p, StringMode(escaped), ts)
    decreases |s| - p
  {
    hide QuoteAgree, QuoteRoles;
    if s[p] != '"' {
      OutsideOpposite(s, p, ts, StringMode(escaped));
    } else if At(s, p + 1, '"') {
      PairOpposite(s, p, ts);
      if p + 2 < |s| { QuoteOpposite(s, p + 2, ts[1..], false); }
    } else {
      LoneQuoteOpposite(s, p, ts);
    }
  }

  // A token that does not start with a quote starts with code.
  lemma OutsideOpposite(s: string, p: nat, ts: seq<Token>, m: Mode)
    requires Begins(s, p, ts) && s[p] != '"' && m.StringMode?
    ensures !QuoteAgree(s, p, m, ts)
  {
    hide QuoteAgree, QuoteRoles, PlainRoles;
    assert Shape(s, ts[0]) && ts[0].start == p;
    QuoteFirstDiffers(s, p, ts, m, p);
  }

  lemma PairOpposite(s: string, p: nat, ts: seq<Token>)
    requires Begins(s, p, ts) && At(s, p, '"') && At(s, p + 1, '"')
    ensures Shaped(s, p + 2, ts[1..])
    ensures QuoteAgree(s, p, StringMode(false), ts) ==>
      p + 2 < |s| && QuoteAgree(s, p + 2, StringMode(false), ts[1..])
  {
    assert ts[0] == Token(StringLit, p, p + 2) && Shaped(s, p + 2, ts[1..]);
    hide QuoteAgree, QuoteRoles, QuoteAfter, Shaped;
    QuotePair(s, p);
    QuoteAgreeStep(s, p, ts, StringMode(false));
  }

  // One quote opens a string for the lexer and closes one for the scan.
  lemma LoneQuoteOpposite(s: string, p: nat, ts: seq<Token>)
    requires Begins(s, p, ts) && At(s, p, '"') && !At(s, p + 1, '"')
    ensures !QuoteAgree(s, p, StringMode(false), ts)
  {
    assert QuoteAfter(s, p, p + 1, StringMode(false)) == CodeMode;
    if p + 1 < |s| {
      hide QuoteAgree, QuoteAfter, PlainRoles;
      assert Shape(s, ts[0]) && ts[0].start == p;
      ScannerAgreement.QuoteRoles(s, ts[0]);
      QuoteFirstDiffers(s, p, ts, StringMode(false), p + 1);
    } else {
      Unfold(s, p, ts);
    }
  }

  // After a misread binary literal the scan is escaped only at the end of a line.
  lemma MisreadMode(s: string, p: nat)
    requires IsBinary(s, p) && Misread(s, p)
    ensures var t := BinaryToken(s, p); var m := TokenMode(s, t);
      m.StringMode? ==> (m.escaped ==> t.end < |s| && !InLine(s[t.end]))
  {
    var k := BinaryStop(s, p + 2);
    BinaryStops(s, p + 2);
    var t := BinaryToken(s, p);
    if s[k] == '"' {
      assert QuoteAfter(s, p, k + 1, CodeMode) == QuoteNext('"', QuoteAfter(s, p, k, CodeMode));
    }
  }

  lemma MisreadDisagrees(s: string, p: nat, ts: seq<Token>)
    requires Begins(s, p, ts) && IsBinary(s, p) && Misread(s, p)
    ensures !QuoteAgree(s, p, CodeMode, ts)
  {
    hide QuoteAgree, QuoteAfter, QuoteRoles, BinaryRest, OpenRole;
    var t := ts[0];
    assert t == BinaryToken(s, p) && Shaped(s, t.end, ts[1..]);
    BinaryAlike(s, t);
    QuoteAgreeStep(s, p, ts, CodeMode);
    MisreadMode(s, p);
    BinaryStops(s, p + 2);
    BinaryOpen(s, p);
    if t.end < |s| { QuoteOpposite(s, t.end, ts[1..], TokenMode(s, t).escaped); }
  }

  // A comment with a quote is not all code to the scan.
  lemma QuotedCommentDiffers(s: string, p: nat, ts: seq<Token>)
    requires Begins(s, p, ts) && IsComment(s, ts[0]) && QuoteIn(s, ts[0])
    ensures !QuoteAgree(s, p, CodeMode, ts)
  {
    hide QuoteRoles, QuoteAfter, QuoteAgree;
    var t := ts[0];
    assert Shape(s, t);
    var i :| t.start <= i < t.end && At(s, i, '"');
    QuoteFirstDiffers(s, p, ts, CodeMode, i);
  }

  lemma PlainCommentAgrees(s: string, p: nat, ts: seq<Token>)
    requires Begins(s, p, ts) && IsComment(s, ts[0]) && !QuoteIn(s, ts[0])
    ensures QuoteAgree(s, p, CodeMode, ts) <==> QuoteAgree(s, ts[0].end, CodeMode, ts[1..])
  {
    hide QuoteRoles, QuoteAfter, QuoteAgree;
    var t := ts[0];
    assert Shape(s, t);
    forall i | t.start <= i < t.end ensures s[i] != '"' { assert !At(s, i, '"'); }
    QuotelessIsCode(s, t.start, t.end);
    QuoteAgreeStep(s, p, ts, CodeMode);
  }

  lemma {:induction false} QuoteAgreeExactly(s: string, p: nat, ts: seq<Token>)
    requires p <= |s| && Shaped(s, p, ts)
    ensures QuoteAgree(s, p, CodeMode, ts) <==> QuoteClean(s, ts)
    decreases |s| - p
  {
    if p == |s| {
      EndAgreesAnyway(s, ts, CodeMode);
      assert PlainTokenClean(s, ts[0]);
    } else {
      var t, rest := ts[0], ts[1..];
      Unfold(s, p, ts);
      QuoteCleanUnfolds(s, ts);
      QuoteAgreeExactly(s, t.end, rest);
      if IsComment(s, t) {
        if QuoteIn(s, t) { QuotedCommentDiffers(s, p, ts); } else { PlainCommentAgrees(s, p, ts); }
      } else if MisreadToken(s, t) {
        MisreadDisagrees(s, p, ts);
      } else {
        TokenAlike(s, t);
        QuoteAgreeStep(s, p, ts, CodeMode);
        EndAgreesAnyway(s, rest, TokenMode(s, t));
      }
    }
  }

  // At the end of the text there is nothing left to disagree on.
  lemma EndAgreesAnyway(s: string, rest: seq<Token>, m: Mode)
    requires rest != []
    ensures Shaped(s, |s|, rest) ==> QuoteAgree(s, |s|, m, rest)
  {
    if Shaped(s, |s|, rest) {
      assert rest[1..] == [] && PlainTokenRoles(s, rest[0]) == [];
      assert PlainRoles(s, rest) == [] + PlainRoles(s, []) == [];
    }
  }

  // The scan reads a text as the lexer does, role for role, comments being code to it.
  ghost predicate QuotesAlike(s: string) {
    && QuoteRoles(s, 0, |s|, CodeMode) == PlainRoles(s, Lex(s))
    && (QuoteMode(s, |s|).StringMode? <==> LexEnd(s, Lex(s)) == StringRole)
  }

  lemma QuoteScanMatchesLexerExactly(s: string)
    ensures QuotesAlike(s) <==> QuoteClean(s, Lex(s))
  {
    LexFromShaped(s, 0, None);
    QuoteModeIsAfter(s, |s|);
    QuoteAgreeExactly(s, 0, Lex(s));
  }

  // ---------------------------------------------------------------- semicolon for semicolon

  // The scan is in code at the start of every token outside comments.
  predicate Aligned(s: string, ts: seq<Token>) {
    forall t :: t in ts && !IsComment(s, t) && t.start < |s| ==> QuoteMode(s, t.start) == CodeMode
  }

  // The same, on the text: the quotes of the comments after a token, and those of a misread binary literal with the
  // comments after it, come out even before the next token.
  predicate Settles(s: string, ts: seq<Token>, m: Mode)
    requires forall t :: t in ts ==> t.start <= t.end <= |s|
    decreases |ts|
  {
    if ts == [] || ts[0].start == |s| then true
    else
      var t := ts[0];
      if IsComment(s, t) then Settles(s, ts[1..], QuoteAfter(s, t.start, t.end, m))
      else m == CodeMode && Settles(s, ts[1..], if MisreadToken(s, t) then TokenMode(s, t) else CodeMode)
  }

  lemma ShapedBounds(s: string, p: nat, ts: seq<Token>)
    requires p <= |s| && Shaped(s, p, ts)
    ensures forall t :: t in ts ==> t.start <= t.end <= |s|
  {
    forall t | t in ts ensures t.start <= t.end <= |s| { ShapedTokens(s, p, ts, t); }
  }

  lemma {:induction false} SettlesExactly(s: string, p: nat, ts: seq<Token>)
    requires p <= |s| && Shaped(s, p, ts)
    ensures (forall t :: t in ts ==> t.start <= t.end <= |s|) && (Settles(s, ts, QuoteMode(s, p)) <==> Aligned(s, ts))
    decreases |s| - p
  {
    ShapedBounds(s, p, ts);
    if p < |s| {
      var t, rest := ts[0], ts[1..];
      assert ts == [t] + rest;
      SettlesExactly(s, t.end, rest);
      QuoteModeJoin(s, p, t.end);
      if !IsComment(s, t) && QuoteMode(s, p) == CodeMode {
        TokenAlike(s, t);
        if t.end == |s| { assert rest == [Token(Eof, |s|, |s|)]; }
      }
    }
  }

  // The condition a reader of the source can check says when the scan is in step.
  lemma AlignedExactly(s: string)
    ensures (forall t :: t in Lex(s) ==> t.start <= t.end <= |s|) && (Aligned(s, Lex(s)) <==> Settles(s, Lex(s), CodeMode))
  {
    LexFromShaped(s, 0, None);
    SettlesExactly(s, 0, Lex(s));
  }

  lemma {:induction false} CleanSettles(s: string, p: nat, ts: seq<Token>)
    requires p <= |s| && Shaped(s, p, ts) && QuoteClean(s, ts)
    ensures (forall t :: t in ts ==> t.start <= t.end <= |s|) && Settles(s, ts, CodeMode)
    decreases |s| - p
  {
    ShapedBounds(s, p, ts);
    if p < |s| {
      var t, rest := ts[0], ts[1..];
      QuoteCleanUnfolds(s, ts);
      CleanSettles(s, t.end, rest);
      if IsComment(s, t) {
        forall i | t.start <= i < t.end ensures s[i] != '"' { assert !At(s, i, '"'); }
        QuotelessIsCode(s, t.start, t.end);
      }
    }
  }

  // Some comment holds a semicolon that the scan reads as code.
  ghost predicate CommentSemicolon(s: string, ts: seq<Token>) {
    exists t, i :: t in ts && IsComment(s, t) && t.start <= i < t.end && i < |s| && TerminatorAt(s, i)
  }

  // In a token outside comments that the scan meets in code, it finds a terminator exactly if the token is one.
  lemma TerminatorInToken(s: string, t: Token, i: nat)
    requires Shape(s, t) && !IsComment(s, t) && QuoteMode(s, t.start) == CodeMode && t.start <= i < t.end
    ensures TerminatorAt(s, i) <==> t.kind == Semi && i == t.start
  {
    TokenAlike(s, t);
    TokenSemicolons(s, t);
    QuoteModeJoin(s, t.start, i);
    QuoteRoleAt(s, t.start, t.end, CodeMode, i);
    QuoteModes(s, t.start, i);
  }

  lemma {:induction false} TokenOver(s: string, p: nat, ts: seq<Token>, i: nat) returns (t: Token)
    requires p <= i < |s| && Shaped(s, p, ts)
    ensures t in ts && Shape(s, t) && t.start <= i < t.end
    decreases |s| - p
  {
    t := ts[0];
    if i >= t.end { t := TokenOver(s, t.end, ts[1..], i); }
  }

  lemma TerminatorGives(s: string, ts: seq<Token>, i: nat)
    requires Shaped(s, 0, ts) && Aligned(s, ts) && i < |s| && TerminatorAt(s, i)
    ensures HasSemi(ts) || CommentSemicolon(s, ts)
  {
    var t := TokenOver(s, 0, ts, i);
    if !IsComment(s, t) { TerminatorInToken(s, t, i); }
  }

  lemma SemiGives(s: string, ts: seq<Token>)
    requires Shaped(s, 0, ts) && Aligned(s, ts) && HasSemi(ts)
    ensures HasTerminator(s)
  {
    var t :| t in ts && t.kind == Semi;
    ShapedTokens(s, 0, ts, t);
    assert Shape(s, t) && !IsComment(s, t);
    TerminatorInToken(s, t, t.start);
  }

  // Where the scan is in step it finds a terminator exactly when there is a semicolon token, or a comment with a
  // semicolon it reads as code. So it is right about the semicolon tokens exactly when there is one or no such
  // comment.
  lemma TerminatorIsSemi(s: string)
    requires Aligned(s, Lex(s))
    ensures HasTerminator(s) <==> HasSemi(Lex(s)) || CommentSemicolon(s, Lex(s))
    ensures (HasTerminator(s) <==> HasSemi(Lex(s))) <==> HasSemi(Lex(s)) || !CommentSemicolon(s, Lex(s))
  {
    var ts := Lex(s);
    LexFromShaped(s, 0, None);
    if HasTerminator(s) {
      var i :| 0 <= i < |s| && TerminatorAt(s, i);
      TerminatorGives(s, ts, i);
    }
    if HasSemi(ts) { SemiGives(s, ts); }
  }

  // On code without comments and misread binary literals the scan finds a terminator exactly when the lexer finds a
  // semicolon.
  lemma PlainTerminatorIsSemi(s: string)
    requires forall t :: t in Lex(s) ==> !IsComment(s, t) && !MisreadToken(s, t)
    ensures HasTerminator(s) <==> HasSemi(Lex(s))
  {
    LexFromShaped(s, 0, None);
    CleanSettles(s, 0, Lex(s));
    AlignedExactly(s);
    TerminatorIsSemi(s);
  }

  // A quote in a comment can hide a semicolon token from the scan.
  lemma QuoteHidesSemi()
    ensures !HasTerminator("/*\"*/;") && HasSemi(Lex("/*\"*/;"))
  {
    CommentThenSemi("/*\"*/;");
  }

  lemma CommentThenSemi(s: string)
    requires |s| == 6 && s[0] == '/' && s[1] == '*' && s[2] == '"' && s[3] == '*' && s[4] == '/' && s[5] == ';'
    ensures !HasTerminator(s) && HasSemi(Lex(s))
  {
    hide LexFrom;
    assert QuoteMode(s, 3) == StringMode(false) by { assert QuoteMode(s, 0) == QuoteMode(s, 1) == QuoteMode(s, 2) == CodeMode; }
    assert QuoteMode(s, 4) == QuoteMode(s, 5) == StringMode(false);
    var ts := Lex(s);
    LexFromShaped(s, 0, None);
    assert BlockRest(s, 2) == BlockRest(s, 3) == (5, true);
    assert ts[0].end == 5 && Shape(s, ts[1]) && ts[1].start == 5;
    assert ts[1] in ts;
  }

}
