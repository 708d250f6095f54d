/**
 The verb-body scanner and the lexer are two programs that read strings and comments. They give every
 character the same role, and end a text in the same state, exactly when no line comment runs into a
 carriage return and no broken binary literal ends at a line end or at an escaped quote.
 */
module ScannerAgreement {

  import opened Prelude
  import opened MooText
  import opened Lexer
  import opened LexerShape
  import opened TextScanner

  // ---------------------------------------------------------------- what the lexer says

  predicate IsString(s: string, t: Token) { At(s, t.start, '"') }

  // The role of a token's first character, and of the rest.
  function FirstRole(s: string, t: Token): Role {
    if t.kind == LineComment then LineRole
    else if IsBlockComment(s, t.start) then BlockRole
    else if IsString(s, t) then StringRole
    else CodeRole
  }

  function TokenRoles(s: string, t: Token): (rs: seq<Role>)
    ensures t.start <= t.end ==> |rs| == t.end - t.start
  {
    if t.end <= t.start then []
    else if IsBinary(s, t.start) then [CodeRole] + Repeat(StringRole, t.end - t.start - 1)
    else Repeat(FirstRole(s, t), t.end - t.start)
  }

  function LexRoles(s: string, ts: seq<Token>): seq<Role> {
    if ts == [] then [] else TokenRoles(s, ts[0]) + LexRoles(s, ts[1..])
  }

  // What a text whose last token is t ends inside of.
  function OpenRole(s: string, t: Token): Role {
    if t.kind == LineComment then LineRole
    else if t.kind != Error then CodeRole
    else if IsBlockComment(s, t.start) then BlockRole
    else if IsString(s, t) then StringRole
    else if IsBinary(s, t.start) && !ClosedBinary(s, t) then StringRole
    else CodeRole
  }

  predicate ClosedBinary(s: string, t: Token) {
    t.start + 2 < t.end && At(s, t.end - 1, '"')
  }

  // What the text ends inside of, the last token being the end of file.
  function LexEnd(s: string, ts: seq<Token>): Role {
    if |ts| > 1 then OpenRole(s, ts[|ts| - 2]) else CodeRole
  }

  // ---------------------------------------------------------------- where they differ

  // Where a binary literal ends: its closing quote, or the end of its line or of the text.
  function BinaryStop(s: string, p: nat): (k: nat)
    requires p <= |s|
    ensures p <= k <= |s|
    ensures forall i :: p <= i < k ==> s[i] != '"'
    ensures k < |s| && s[k] != '"' ==> !InLine(s[k])
  {
    var e := SkipWhile(s, p, IsBase64);
    if e == |s| || s[e] == '"' then e else SkipWhile(s, e + 1, InBrokenBinary)
  }

  // The binary literal at p ends at a line end, or at a quote after an odd number of backslashes: neither ends a
  // string.
  predicate Misread(s: string, p: nat)
    requires IsBinary(s, p)
  {
    var k := BinaryStop(s, p + 2);
    k < |s| && (s[k] != '"' || Backslashes(s, p + 2, k) % 2 == 1)
  }

  predicate CleanToken(s: string, t: Token) {
    && !(t.kind == LineComment && At(s, t.end, '\r'))
    && !(IsBinary(s, t.start) && Misread(s, t.start))
  }

  predicate Clean(s: string, ts: seq<Token>) {
    forall t :: t in ts ==> CleanToken(s, t)
  }

  // ---------------------------------------------------------------- binary literals

  lemma BinaryStops(s: string, p: nat)
    requires p <= |s|
    ensures var r, k := BinaryRest(s, p), BinaryStop(s, p);
      if r.2 then At(s, k, '"') && r.0 == k + 1 else r.0 == k && !At(s, k, '"')
  {
  }

  // That is when the literal ends elsewhere than the string that starts after its first letter.
  lemma MisreadExactly(s: string, p: nat)
    requires IsBinary(s, p)
    ensures var r := BinaryRest(s, p + 2); Misread(s, p) <==> (r.0, r.2) != StringScan(s, p + 2, false)
  {
    hide Runs, BinaryRest;
    BinaryStops(s, p + 2);
    QuotelessRuns(s, p + 2, BinaryStop(s, p + 2));
  }

  // A well-formed binary literal holds no backslash.
  lemma WellFormedIsRead(s: string, p: nat)
    requires IsBinary(s, p) && BinaryRest(s, p + 2).1 == BinaryLit
    ensures !Misread(s, p)
  {
    var k := BinaryStop(s, p + 2);
    if p + 2 < k { assert IsBase64(s[k - 1]); }
  }

  // ---------------------------------------------------------------- one token

  function AfterMode(k: Kind): Mode {
    if k == LineComment then LineMode else CodeMode
  }

  // The scanner takes the token t, from mode m, as the lexer does.
  ghost predicate Scanned(s: string, m: Mode, t: Token) {
    && t.start < t.end <= |s|
    && RolesFrom(s, t.start, m) == TokenRoles(s, t) + RolesFrom(s, t.end, AfterMode(t.kind))
    && (if t.end == |s| then ModeRole(FinalMode(s, t.start, m)) == OpenRole(s, t)
        else FinalMode(s, t.start, m) == FinalMode(s, t.end, AfterMode(t.kind)))
  }

  // A token of one role throughout.
  lemma RunsScanned(s: string, m: Mode, t: Token, role: Role, n: Mode)
    requires t.start < t.end <= |s| && Runs(s, t.start, m, role, t.end, n)
    requires TokenRoles(s, t) == Repeat(role, t.end - t.start)
    requires if t.end == |s| then ModeRole(n) == OpenRole(s, t) else n == AfterMode(t.kind)
    ensures Scanned(s, m, t)
  {
    EndRoles(s, n);
    EndRoles(s, AfterMode(t.kind));
  }

  lemma LineCommentRuns(s: string, p: nat)
    requires IsLineComment(s, p)
    ensures Runs(s, p, CodeMode, LineRole, SkipWhile(s, p + 2, InLine), LineMode)
  {
    StepRuns(s, p, CodeMode);
    var e := SkipWhile(s, p + 2, InLine);
    LineSpanRuns(s, p + 2, e);
    JoinRuns(s, p, CodeMode, LineRole, p + 2, LineMode, e, LineMode);
  }

  lemma LineCommentScanned(s: string, t: Token)
    requires Shape(s, t) && IsLineComment(s, t.start)
    ensures Scanned(s, CodeMode, t)
  {
    LineCommentRuns(s, t.start);
    RunsScanned(s, CodeMode, t, LineRole, LineMode);
  }

  lemma BlockCommentRuns(s: string, p: nat)
    requires IsBlockComment(s, p)
    ensures var r := BlockRest(s, p + 2); Runs(s, p, CodeMode, BlockRole, r.0, if r.1 then CodeMode else BlockMode)
  {
    var r := BlockRest(s, p + 2);
    StepRuns(s, p, CodeMode);
    BlockRestRuns(s, p + 2);
    JoinRuns(s, p, CodeMode, BlockRole, p + 2, BlockMode, r.0, if r.1 then CodeMode else BlockMode);
  }

  lemma BlockCommentScanned(s: string, t: Token)
    requires Shape(s, t) && IsBlockComment(s, t.start)
    ensures Scanned(s, CodeMode, t)
  {
    BlockCommentRuns(s, t.start);
    RunsScanned(s, CodeMode, t, BlockRole, if BlockRest(s, t.start + 2).1 then CodeMode else BlockMode);
  }

  lemma StringLeaves(s: string, p: nat)
    requires At(s, p, '"')
    ensures LeavesString(s, p, CodeMode, StringRest(s, p + 1))
  {
    StepRuns(s, p, CodeMode);
    StringEndsAgree(s, p + 1);
    StringScanRuns(s, p + 1, false);
    JoinLeaves(s, p, CodeMode, p + 1, StringMode(false), StringScan(s, p + 1, false));
  }

  // A token that is a string, closed or not.
  lemma LeavesScanned(s: string, m: Mode, t: Token, closed: bool)
    requires t.start < t.end <= |s| && LeavesString(s, t.start, m, (t.end, closed))
    requires TokenRoles(s, t) == Repeat(StringRole, t.end - t.start) && t.kind != LineComment
    requires OpenRole(s, t) == if closed then CodeRole else StringRole
    ensures Scanned(s, m, t)
  {
    FinalAtEnd(s, CodeMode);
    if closed { assert FinalMode(s, t.start, m) == FinalMode(s, t.end, CodeMode); }
    else { assert FinalMode(s, t.start, m).StringMode? && t.end == |s|; }
  }

  lemma StringScanned(s: string, t: Token)
    requires Shape(s, t) && At(s, t.start, '"')
    ensures Scanned(s, CodeMode, t)
  {
    StringLeaves(s, t.start);
    LeavesScanned(s, CodeMode, t, StringRest(s, t.start + 1).1);
  }

  lemma BinaryLeaves(s: string, p: nat)
    requires IsBinary(s, p) && !Misread(s, p)
    ensures LeavesString(s, p + 1, CodeMode, (BinaryRest(s, p + 2).0, BinaryRest(s, p + 2).2))
  {
    hide StringScan;
    hide BinaryRest;
    MisreadExactly(s, p);
    StepRuns(s, p + 1, CodeMode);
    StringScanRuns(s, p + 2, false);
    JoinLeaves(s, p + 1, CodeMode, p + 2, StringMode(false), StringScan(s, p + 2, false));
  }

  lemma BinaryScanned(s: string, p: nat)
    requires IsBinary(s, p) && !Misread(s, p)
    ensures Scanned(s, CodeMode, BinaryToken(s, p))
  {
    BinaryLeaves(s, p);
    BinaryClosed(s, p);
    CodeThenString(s, p, BinaryRest(s, p + 2).0, CodeMode);
  }

  lemma CodeThenString(s: string, p: nat, end: nat, m: Mode)
    requires IsBinary(s, p) && p + 1 < end <= |s|
    requires RolesFrom(s, p + 1, CodeMode) == Repeat(StringRole, end - p - 1) + RolesFrom(s, end, m)
    ensures RolesFrom(s, p, CodeMode) == [CodeRole] + Repeat(StringRole, end - p - 1) + RolesFrom(s, end, m)
    ensures FinalMode(s, p, CodeMode) == FinalMode(s, p + 1, CodeMode)
  {
    StepRuns(s, p, CodeMode);
    assert Repeat(CodeRole, 1) == [CodeRole];
    var a, b := Repeat(StringRole, end - p - 1), RolesFrom(s, end, m);
    assert [CodeRole] + (a + b) == [CodeRole] + a + b;
  }

  lemma BinaryClosed(s: string, p: nat)
    requires IsBinary(s, p)
    ensures ClosedBinary(s, BinaryToken(s, p)) == BinaryRest(s, p + 2).2
  {
    BinaryStops(s, p + 2);
    var k := BinaryStop(s, p + 2);
    if !BinaryRest(s, p + 2).2 && p + 2 < k { assert s[k - 1] != '"'; }
  }

  lemma BinaryOpen(s: string, p: nat)
    requires IsBinary(s, p)
    ensures OpenRole(s, BinaryToken(s, p)) == if BinaryRest(s, p + 2).2 then CodeRole else StringRole
  {
    BinaryClosed(s, p);
  }

  lemma PlainScanned(s: string, t: Token)
    requires Shape(s, t) && CodeAt(s, t.start) && !IsBinary(s, t.start)
    ensures Scanned(s, CodeMode, t)
  {
    forall i | t.start <= i < t.end ensures CodeAt(s, i) {
      if i > t.start { assert Inert(s[i]); }
    }
    CodeSpanRuns(s, t.start, t.end);
    RunsScanned(s, CodeMode, t, CodeRole, CodeMode);
  }

  // A line feed is taken alike as code and as the end of a line comment.
  lemma LineFeedScanned(s: string, t: Token)
    requires Shape(s, t) && At(s, t.start, '\n')
    ensures Scanned(s, LineMode, t)
  {
    StepRuns(s, t.start, LineMode);
    RunsScanned(s, LineMode, t, CodeRole, CodeMode);
  }

  // Where the scanner can be when the lexer starts a token at p.
  predicate Fits(s: string, p: nat, m: Mode) {
    m == CodeMode || (m == LineMode && (p < |s| ==> s[p] == '\n'))
  }

  lemma TokenScanned(s: string, m: Mode, t: Token)
    requires Shape(s, t) && Fits(s, t.start, m)
    requires IsBinary(s, t.start) ==> !Misread(s, t.start)
    ensures Scanned(s, m, t)
  {
    var p := t.start;
    if m == LineMode { LineFeedScanned(s, t); }
    else if IsLineComment(s, p) { LineCommentScanned(s, t); }
    else if IsBlockComment(s, p) { BlockCommentScanned(s, t); }
    else if s[p] == '"' { StringScanned(s, t); }
    else if IsBinary(s, p) { BinaryScanned(s, p); }
    else { PlainScanned(s, t); }
  }

  // ---------------------------------------------------------------- whole texts

  // The same role for every character from p on, and the same state at the end.
  ghost predicate Agree(s: string, p: nat, m: Mode, ts: seq<Token>)
    requires p <= |s|
  {
    && RolesFrom(s, p, m) == LexRoles(s, ts)
    && (p < |s| ==> ModeRole(FinalMode(s, p, m)) == LexEnd(s, ts))
  }

  // The text from p on has more than one token, the first of which is not the end of file.
  predicate Begins(s: string, p: nat, ts: seq<Token>) {
    p < |s| && Shaped(s, p, ts)
  }

  lemma Unfold(s: string, p: nat, ts: seq<Token>)
    requires Begins(s, p, ts)
    ensures |ts| > 1 && Shape(s, ts[0]) && ts[0].start == p && Shaped(s, ts[0].end, ts[1..])
    ensures LexRoles(s, ts) == TokenRoles(s, ts[0]) + LexRoles(s, ts[1..])
    ensures LexEnd(s, ts) == if ts[0].end == |s| then OpenRole(s, ts[0]) else LexEnd(s, ts[1..])
  {
    MoreThanOne(s, p, ts);
    if ts[0].end < |s| { MoreThanOne(s, ts[0].end, ts[1..]); }
  }

  lemma MoreThanOne(s: string, p: nat, ts: seq<Token>)
    requires Begins(s, p, ts)
    ensures |ts| > 1 && (ts[0].end == |s| ==> |ts| == 2)
  {
    assert Shaped(s, ts[0].end, ts[1..]);
  }

  lemma CleanUnfolds(s: string, ts: seq<Token>)
    requires ts != []
    ensures Clean(s, ts) <==> CleanToken(s, ts[0]) && Clean(s, ts[1..])
  {
    assert ts == [ts[0]] + ts[1..];
  }

  // Past a token that has the same roles for both, they agree exactly when they agree on the rest.
  lemma AgreeStep(s: string, p: nat, ts: seq<Token>, m: Mode, n: Mode)
    requires Begins(s, p, ts)
    requires ts[0].end <= |s| && RolesFrom(s, p, m) == TokenRoles(s, ts[0]) + RolesFrom(s, ts[0].end, n)
    requires ts[0].end < |s| ==> FinalMode(s, p, m) == FinalMode(s, ts[0].end, n)
    ensures Agree(s, p, m, ts) <==>
      && Agree(s, ts[0].end, n, ts[1..])
      && (ts[0].end == |s| ==> ModeRole(FinalMode(s, p, m)) == OpenRole(s, ts[0]))
  {
    Unfold(s, p, ts);
    SamePrefix(TokenRoles(s, ts[0]), RolesFrom(s, ts[0].end, n), LexRoles(s, ts[1..]));
  }

  lemma SamePrefix(a: seq<Role>, x: seq<Role>, y: seq<Role>)
    ensures a + x == a + y <==> x == y
  {
    assert (a + x)[|a|..] == x && (a + y)[|a|..] == y;
  }

  // Both give the first character the same role, if they agree.
  lemma FirstRolesAgree(s: string, p: nat, m: Mode, ts: seq<Token>)
    requires Begins(s, p, ts) && Agree(s, p, m, ts)
    ensures StepRole(s, p, m) == TokenRoles(s, ts[0])[0]
  {
    Unfold(s, p, ts);
    assert RolesFrom(s, p, m)[0] == StepRole(s, p, m);
  }

  // A carriage return after a line comment is a line end to the lexer only.
  lemma CarriageReturnDiffers(s: string, p: nat, ts: seq<Token>)
    requires Begins(s, p, ts) && At(s, p, '\r')
    ensures !Agree(s, p, LineMode, ts)
  {
    if Agree(s, p, LineMode, ts) { FirstRolesAgree(s, p, LineMode, ts); }
  }

  // Once the lexer is in code where the scanner is in a string, they cannot agree again.
  lemma {:induction false} OppositeDiffers(s: string, p: nat, ts: seq<Token>, escaped: bool)
    requires Begins(s, p, ts)
    requires escaped ==> !InLine(s[p])
    ensures !Agree(s, p, StringMode(escaped), ts)
    decreases |s| - p
  {
    if s[p] != '"' {
      if Agree(s, p, StringMode(escaped), ts) { FirstRolesAgree(s, p, StringMode(escaped), ts); }
    } else if At(s, p + 1, '"') {
      OppositePair(s, p, ts);
      if p + 2 < |s| { OppositeDiffers(s, p + 2, ts[1..], false); }
    } else if p + 1 < |s| {
      LoneQuoteDiffers(s, p, ts);
    } else {
      LastQuoteDiffers(s, p, ts);
    }
  }

  // One quote opens a string for the lexer and closes one for the scanner.
  lemma LoneQuoteDiffers(s: string, p: nat, ts: seq<Token>)
    requires Begins(s, p, ts) && At(s, p, '"') && p + 1 < |s| && s[p + 1] != '"'
    ensures !Agree(s, p, StringMode(false), ts)
  {
    Unfold(s, p, ts);
    QuoteRoles(s, ts[0]);
    SecondRole(s, p);
  }

  lemma QuoteRoles(s: string, t: Token)
    requires Shape(s, t) && At(s, t.start, '"') && t.start + 1 < |s|
    ensures t.start + 1 < t.end && TokenRoles(s, t)[1] == StringRole
  {
  }

  lemma SecondRole(s: string, p: nat)
    requires At(s, p, '"') && p + 1 < |s| && s[p + 1] != '"'
    ensures RolesFrom(s, p, StringMode(false))[1] != StringRole
  {
    StepRuns(s, p, StringMode(false));
    var a, rest := Repeat(StringRole, 1), RolesFrom(s, p + 1, CodeMode);
    assert (a + rest)[1] == rest[0] == StepRole(s, p + 1, CodeMode);
  }

  lemma LastQuoteDiffers(s: string, p: nat, ts: seq<Token>)
    requires Begins(s, p, ts) && At(s, p, '"') && p + 1 == |s|
    ensures !Agree(s, p, StringMode(false), ts)
  {
    Unfold(s, p, ts);
    StepRuns(s, p, StringMode(false));
  }

  // Two quotes are a whole string to the lexer, and leave and enter one for the scanner.
  lemma OppositePair(s: string, p: nat, ts: seq<Token>)
    requires Begins(s, p, ts) && At(s, p, '"') && At(s, p + 1, '"')
    ensures ts[0].end == p + 2 && Shaped(s, p + 2, ts[1..])
    ensures Agree(s, p, StringMode(false), ts) ==> p + 2 < |s| && Agree(s, p + 2, StringMode(false), ts[1..])
  {
    StepRuns(s, p, StringMode(false));
    StepRuns(s, p + 1, CodeMode);
    JoinRuns(s, p, StringMode(false), StringRole, p + 1, CodeMode, p + 2, StringMode(false));
    assert ts[0] == Token(StringLit, p, p + 2);
    AgreeStep(s, p, ts, StringMode(false), StringMode(false));
  }

  // The scanner is still in the string where the lexer leaves a misread binary literal.
  lemma MisreadInside(s: string, p: nat) returns (escaped: bool)
    requires IsBinary(s, p) && Misread(s, p)
    ensures var end := BinaryRest(s, p + 2).0;
      && Runs(s, p + 2, StringMode(false), StringRole, end, StringMode(escaped))
      && (escaped ==> end < |s| && !InLine(s[end]))
      && (end == |s| ==> BinaryRest(s, p + 2).2)
  {
    hide Runs, BinaryRest;
    var k := BinaryStop(s, p + 2);
    BinaryStops(s, p + 2);
    QuotelessRuns(s, p + 2, k);
    escaped := Backslashes(s, p + 2, k) % 2 == 1;
    if s[k] == '"' {
      StepRuns(s, k, StringMode(true));
      JoinRuns(s, p + 2, StringMode(false), StringRole, k, StringMode(true), k + 1, StringMode(false));
      escaped := false;
    }
  }

  lemma MisreadRoles(s: string, p: nat, escaped: bool)
    requires IsBinary(s, p)
    requires Runs(s, p + 2, StringMode(false), StringRole, BinaryToken(s, p).end, StringMode(escaped))
    ensures var t := BinaryToken(s, p);
      && RolesFrom(s, p, CodeMode) == TokenRoles(s, t) + RolesFrom(s, t.end, StringMode(escaped))
      && FinalMode(s, p, CodeMode) == FinalMode(s, t.end, StringMode(escaped))
  {
    var end := BinaryToken(s, p).end;
    StepRuns(s, p + 1, CodeMode);
    JoinRuns(s, p + 1, CodeMode, StringRole, p + 2, StringMode(false), end, StringMode(escaped));
    CodeThenString(s, p, end, StringMode(escaped));
  }

  lemma MisreadDiffers(s: string, p: nat, ts: seq<Token>)
    requires Begins(s, p, ts) && IsBinary(s, p) && Misread(s, p)
    ensures !Agree(s, p, CodeMode, ts)
  {
    var t := BinaryToken(s, p);
    assert ts[0] == t;
    var escaped := MisreadInside(s, p);
    BinaryClosed(s, p);
    MisreadRoles(s, p, escaped);
    AgreeStep(s, p, ts, CodeMode, StringMode(escaped));
    if t.end < |s| { OppositeDiffers(s, t.end, ts[1..], escaped); }
  }

  lemma EndAgrees(s: string, m: Mode)
    ensures var ts := [Token(Eof, |s|, |s|)]; Agree(s, |s|, m, ts) && Clean(s, ts)
  {
    var t := Token(Eof, |s|, |s|);
    assert [t][1..] == [];
    assert TokenRoles(s, t) == [] && CleanToken(s, t);
  }

  lemma {:induction false} AgreeExactly(s: string, p: nat, ts: seq<Token>, m: Mode)
    requires p <= |s| && Shaped(s, p, ts) && Fits(s, p, m)
    ensures Agree(s, p, m, ts) <==> Clean(s, ts)
    decreases |s| - p
  {
    if p == |s| {
      EndAgrees(s, m);
    } else {
      var t, rest := ts[0], ts[1..];
      Unfold(s, p, ts);
      CleanUnfolds(s, ts);
      if IsBinary(s, p) && Misread(s, p) {
        MisreadDiffers(s, p, ts);
      } else {
        TokenScanned(s, m, t);
        AgreeStep(s, p, ts, m, AfterMode(t.kind));
        if t.kind == LineComment && At(s, t.end, '\r') {
          CarriageReturnDiffers(s, t.end, rest);
        } else {
          LineCommentEnds(s, t);
          AgreeExactly(s, t.end, rest, AfterMode(t.kind));
        }
      }
    }
  }

  lemma LineCommentEnds(s: string, t: Token)
    requires Shape(s, t)
    ensures t.kind == LineComment && t.end < |s| ==> !InLine(s[t.end])
  {
  }

  // Every character has the same role for the scanner and the lexer, and so has the end.
  ghost predicate ReadAlike(s: string) {
    ScanRoles(s) == LexRoles(s, Lex(s)) && ModeRole(FinalMode(s, 0, CodeMode)) == LexEnd(s, Lex(s))
  }

  // The scanner and the lexer read a text alike exactly when its tokens are clean.
  lemma ScannerMatchesLexerExactly(s: string)
    ensures ReadAlike(s) <==> Clean(s, Lex(s))
  {
    LexFromShaped(s, 0, None);
    AgreeExactly(s, 0, Lex(s), CodeMode);
  }

  predicate NoBrokenBinary(s: string, ts: seq<Token>) {
    forall t :: t in ts && IsBinary(s, t.start) ==> t.kind == BinaryLit
  }

  lemma {:induction false} OrdinaryIsClean(s: string, p: nat, ts: seq<Token>)
    requires p <= |s| && Shaped(s, p, ts) && '\r' !in s && NoBrokenBinary(s, ts)
    ensures Clean(s, ts)
    decreases |s| - p
  {
    if p == |s| {
      EndAgrees(s, CodeMode);
    } else {
      var t, rest := ts[0], ts[1..];
      Unfold(s, p, ts);
      CleanUnfolds(s, ts);
      if IsBinary(s, p) { WellFormedIsRead(s, p); }
      OrdinaryIsClean(s, t.end, rest);
    }
  }

  // Source without a carriage return and without a broken binary literal is read alike.
  lemma OrdinaryReadAlike(s: string)
    requires '\r' !in s && NoBrokenBinary(s, Lex(s))
    ensures ReadAlike(s)
  {
    LexFromShaped(s, 0, None);
    OrdinaryIsClean(s, 0, Lex(s));
    ScannerMatchesLexerExactly(s);
  }

  lemma CarriageReturnExample()
    ensures !ReadAlike("//\r")
  {
    LexFromShaped("//\r", 0, None);
    CommentThenReturn("//\r", Lex("//\r"));
    ScannerMatchesLexerExactly("//\r");
  }

  lemma CommentThenReturn(s: string, ts: seq<Token>)
    requires |s| > 2 && IsLineComment(s, 0) && s[2] == '\r' && Shaped(s, 0, ts)
    ensures !Clean(s, ts)
  {
    assert Shape(s, ts[0]) && ts[0].end == 2;
    assert !CleanToken(s, ts[0]);
  }

  // The literal's escaped quote ends it for the lexer only.
  lemma BrokenBinaryExample()
    ensures !ReadAlike("b\"\\\"\"")
  {
    var s := "b\"\\\"\"";
    EscapedQuoteMisread(s);
    LexFromShaped(s, 0, None);
    MisreadDiffers(s, 0, Lex(s));
  }

  lemma EscapedQuoteMisread(s: string)
    requires |s| == 5 && IsBinary(s, 0) && s[2] == '\\' && s[3] == s[4] == '"'
    ensures Misread(s, 0)
  {
    assert BinaryStop(s, 2) == 3 && Backslashes(s, 2, 3) == 1;
  }

}
