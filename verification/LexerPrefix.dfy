/**
 The tokens of a text from the tokens of its parts. The code before a quote or a line end keeps its tokens if it ends
 closed; the code at the end of a text always does.
 */
module LexerPrefix {

  import opened Prelude
  import opened MooText
  import opened Lexer
  import opened TextScanner
  import opened ScannerAgreement
  import opened LexerWindow

  // ---------------------------------------------------------------- one token

  // What a text ends inside of does not go on with d: a line comment ends at a line end.
  predicate Closes(r: Role, d: char) {
    r == CodeRole || (r == LineRole && !InLine(d))
  }

  // The token at p ends within the text, or the d that follows the text is not part of it.
  predicate ClosedAt(t: string, p: nat, prev: Option<Kind>, d: char)
    requires p < |t|
  {
    var r := TokenAt(t, p, prev);
    r.1 < |t| || Closes(OpenRole(t, Token(r.0, p, r.1)), d)
  }

  // The last character makes a token with the d that follows: a binary literal, or a line end of two characters.
  predicate Joins(t: string, p: nat, d: char) {
    p + 1 == |t| && ((At(t, p, 'b') && d == '"') || (At(t, p, '\r') && d == '\n'))
  }

  // The text t ends with s, or its token at p is closed before what follows.
  predicate Separate(s: string, n: nat, t: string, p: nat, prev: Option<Kind>)
    requires p < |t|
  {
    Ends(s, n, t) || (n + |t| < |s| && ClosedAt(t, p, prev, s[n + |t|]) && !Joins(t, p, s[n + |t|]))
  }

  lemma MarksWindow(s: string, n: nat, t: string, p: nat, q: nat)
    requires Lies(s, n, t, p, q) && p < |t|
    ensures q < |s| && s[q] == t[p]
    ensures IsLineComment(s, q) <==> IsLineComment(t, p)
    ensures IsBlockComment(s, q) <==> IsBlockComment(t, p)
    ensures Ends(s, n, t) || (n + |t| < |s| && !Joins(t, p, s[n + |t|])) ==> (IsBinary(s, q) <==> IsBinary(t, p))
    ensures IsLineComment(t, p) || IsBlockComment(t, p) || IsBinary(t, p) ==> Lies(s, n, t, p + 2, q + 2)
  {
    CharWindow(s, n, t, p, q);
    CharWindow(s, n, t, p + 1, q + 1);
  }

  lemma OpenKinds(t: string, p: nat, prev: Option<Kind>, d: char)
    requires p < |t| && ClosedAt(t, p, prev, d)
    ensures IsLineComment(t, p) ==> SkipWhile(t, p + 2, InLine) < |t| || !InLine(d)
    ensures IsBlockComment(t, p) ==> BlockRest(t, p + 2).1
    ensures At(t, p, '"') ==> StringRest(t, p + 1).1
    ensures IsBinary(t, p) ==> BinaryRest(t, p + 2).2 || BinaryRest(t, p + 2).0 < |t|
  {
    hide PlainToken;
    if IsBinary(t, p) { BinaryOpen(t, p); }
  }

  // Which reader the token at p calls, on either text.
  lemma CommentToken(t: string, p: nat, prev: Option<Kind>)
    requires p < |t|
    ensures IsLineComment(t, p) ==> TokenAt(t, p, prev) == (LineComment, SkipWhile(t, p + 2, InLine))
    ensures IsBlockComment(t, p) ==>
      TokenAt(t, p, prev) == (if BlockRest(t, p + 2).1 then BlockComment else Error, BlockRest(t, p + 2).0)
  {
  }

  lemma QuoteToken(t: string, p: nat, prev: Option<Kind>)
    requires At(t, p, '"')
    ensures TokenAt(t, p, prev) == (if StringRest(t, p + 1).1 then StringLit else Error, StringRest(t, p + 1).0)
  {
  }

  lemma LetterToken(t: string, p: nat, prev: Option<Kind>)
    requires IsBinary(t, p)
    ensures TokenAt(t, p, prev) == (BinaryRest(t, p + 2).1, BinaryRest(t, p + 2).0)
  {
  }

  lemma OtherToken(t: string, p: nat, prev: Option<Kind>)
    requires p < |t| && CodeAt(t, p) && !IsBinary(t, p)
    ensures TokenAt(t, p, prev) == PlainToken(t, p, prev)
  {
  }

  lemma CommentWindow(s: string, n: nat, t: string, p: nat, q: nat, prev: Option<Kind>)
    requires Lies(s, n, t, p, q) && p < |t| && (IsLineComment(t, p) || IsBlockComment(t, p))
    requires Separate(s, n, t, p, prev)
    ensures q < |s| && SameToken(s, n, t, TokenAt(s, q, prev), TokenAt(t, p, prev))
  {
    hide Lies, TokenAt, BlockRest, SkipWhile, OpenRole, ClosedAt;
    MarksWindow(s, n, t, p, q);
    CommentToken(t, p, prev);
    CommentToken(s, q, prev);
    if !Ends(s, n, t) { OpenKinds(t, p, prev, s[n + |t|]); }
    if IsLineComment(t, p) { SkipWindow(s, n, t, p + 2, q + 2, InLine); } else { BlockWindow(s, n, t, p + 2, q + 2); }
  }

  lemma QuoteWindow(s: string, n: nat, t: string, p: nat, q: nat, prev: Option<Kind>)
    requires Lies(s, n, t, p, q) && At(t, p, '"') && Separate(s, n, t, p, prev)
    ensures q < |s| && SameToken(s, n, t, TokenAt(s, q, prev), TokenAt(t, p, prev))
  {
    hide Lies, TokenAt, StringRest, OpenRole, ClosedAt;
    MarksWindow(s, n, t, p, q);
    CharWindow(s, n, t, p, q);
    QuoteToken(t, p, prev);
    QuoteToken(s, q, prev);
    if !Ends(s, n, t) { OpenKinds(t, p, prev, s[n + |t|]); }
    StringWindow(s, n, t, p + 1, q + 1);
  }

  lemma LetterWindow(s: string, n: nat, t: string, p: nat, q: nat, prev: Option<Kind>)
    requires Lies(s, n, t, p, q) && IsBinary(t, p) && Separate(s, n, t, p, prev)
    ensures q < |s| && SameToken(s, n, t, TokenAt(s, q, prev), TokenAt(t, p, prev))
  {
    hide Lies, TokenAt, BinaryRest, OpenRole, ClosedAt;
    MarksWindow(s, n, t, p, q);
    LetterToken(t, p, prev);
    LetterToken(s, q, prev);
    if !Ends(s, n, t) { OpenKinds(t, p, prev, s[n + |t|]); }
    BinaryWindow(s, n, t, p + 2, q + 2);
  }

  lemma OtherWindow(s: string, n: nat, t: string, p: nat, q: nat, prev: Option<Kind>)
    requires Lies(s, n, t, p, q) && p < |t| && CodeAt(t, p) && !IsBinary(t, p) && Separate(s, n, t, p, prev)
    ensures q < |s| && SameToken(s, n, t, TokenAt(s, q, prev), TokenAt(t, p, prev))
  {
    hide Lies, TokenAt, PlainToken, ClosedAt;
    MarksWindow(s, n, t, p, q);
    OtherToken(t, p, prev);
    OtherToken(s, q, prev);
    PlainWindow(s, n, t, p, q, prev);
  }

  lemma TokenWindow(s: string, n: nat, t: string, p: nat, q: nat, prev: Option<Kind>)
    requires Lies(s, n, t, p, q) && p < |t| && Separate(s, n, t, p, prev)
    ensures q < |s| && SameToken(s, n, t, TokenAt(s, q, prev), TokenAt(t, p, prev))
  {
    hide Lies, TokenAt, Separate, SameToken;
    if IsLineComment(t, p) || IsBlockComment(t, p) { CommentWindow(s, n, t, p, q, prev); }
    else if t[p] == '"' { QuoteWindow(s, n, t, p, q, prev); }
    else if IsBinary(t, p) { LetterWindow(s, n, t, p, q, prev); }
    else { OtherWindow(s, n, t, p, q, prev); }
  }

  // ---------------------------------------------------------------- the tokens before and after

  // The last token that tells a sign from an operator.
  function Carry(prev: Option<Kind>, ts: seq<Token>): Option<Kind>
    decreases |ts|
  {
    if ts == [] then prev else Carry(Significant(prev, ts[0].kind), ts[1..])
  }

  // The tokens without the end of file.
  function Front(ts: seq<Token>): seq<Token> {
    if ts == [] then [] else ts[..|ts| - 1]
  }

  // The text ends where a token may start, and the d that follows starts one.
  predicate EndsBefore(t: string, ts: seq<Token>, d: char) {
    Closes(LexEnd(t, ts), d) && !(|ts| > 1 && Joins(t, ts[|ts| - 2].start, d))
  }

  // A text's first token and the others.
  lemma FirstToken(t: string, p: nat, prev: Option<Kind>)
    requires p < |t|
    ensures var (kind, end) := TokenAt(t, p, prev);
      var ts, rest := LexFrom(t, p, prev), LexFrom(t, end, Significant(prev, kind));
      && ts == [Token(kind, p, end)] + rest && ts[1..] == rest && Front(ts) == [Token(kind, p, end)] + Front(rest)
      && (if end == |t| then |ts| == 2 else |rest| > 1 && ts[|ts| - 2] == rest[|rest| - 2])
  {
    hide TokenAt;
    var (kind, end) := TokenAt(t, p, prev);
    var next := Significant(prev, kind);
    var rest := LexFrom(t, end, next);
    assert LexFrom(t, p, prev) == [Token(kind, p, end)] + rest;
    if end < |t| { TwoTokens(t, end, next); }
  }

  lemma TwoTokens(t: string, p: nat, prev: Option<Kind>)
    requires p < |t|
    ensures |LexFrom(t, p, prev)| > 1
  {
    hide TokenAt;
    var (kind, end) := TokenAt(t, p, prev);
    assert LexFrom(t, end, Significant(prev, kind)) != [];
  }

  // A token of a text that ends before d is closed, and the rest ends before d.
  lemma TokenIsClosed(t: string, p: nat, prev: Option<Kind>, d: char)
    requires p < |t| && (EndsBefore(t, LexFrom(t, p, prev), d) || TokenAt(t, p, prev).1 < |t|)
    ensures ClosedAt(t, p, prev, d) && !Joins(t, p, d)
  {
    hide TokenAt, LexFrom, OpenRole, Closes;
    FirstToken(t, p, prev);
    var r := TokenAt(t, p, prev);
    if r.1 == |t| {
      var ts := LexFrom(t, p, prev);
      assert ts[|ts| - 2] == ts[0] == Token(r.0, p, r.1);
    }
  }

  lemma RestEndsBefore(t: string, p: nat, prev: Option<Kind>, d: char)
    requires p < |t|
    ensures var (kind, end) := TokenAt(t, p, prev);
      var ts, rest := LexFrom(t, p, prev), LexFrom(t, end, Significant(prev, kind));
      if end == |t| then EndsBefore(t, rest, d) else EndsBefore(t, ts, d) <==> EndsBefore(t, rest, d)
  {
    hide TokenAt, LexFrom, OpenRole;
    FirstToken(t, p, prev);
    var (kind, end) := TokenAt(t, p, prev);
    if end == |t| { LexEof(t, Significant(prev, kind)); }
  }

  lemma PrefixToken(s: string, t: string, p: nat, prev: Option<Kind>, d: char)
    requires Window(s, 0, t) && At(s, |t|, d) && p < |t|
    requires EndsBefore(t, LexFrom(t, p, prev), d) || TokenAt(t, p, prev).1 < |t|
    ensures p < |s| && TokenAt(s, p, prev) == TokenAt(t, p, prev)
  {
    hide TokenAt, LexFrom, Window, EndsBefore, ClosedAt, Joins;
    TokenIsClosed(t, p, prev, d);
    TokenWindow(s, 0, t, p, p, prev);
    EndsAlike(s, 0, t, TokenAt(s, p, prev), TokenAt(t, p, prev));
  }

  lemma EndsAlike(s: string, n: nat, t: string, a: (Kind, nat), b: (Kind, nat))
    requires SameToken(s, n, t, a, b)
    ensures a == (b.0, n + b.1) && b.1 <= |t| && Lies(s, n, t, b.1, a.1)
  {
  }

  lemma JoinTokens(a: seq<Token>, b: seq<Token>, c: seq<Token>)
    ensures a + (b + c) == a + b + c
  {
  }

  lemma CarryCons(prev: Option<Kind>, t: Token, rest: seq<Token>)
    ensures Carry(prev, [t] + rest) == Carry(Significant(prev, t.kind), rest)
  {
    assert ([t] + rest)[1..] == rest;
  }

  lemma LexEof(s: string, prev: Option<Kind>)
    ensures LexFrom(s, |s|, prev) == [Token(Eof, |s|, |s|)] && Front(LexFrom(s, |s|, prev)) == []
  {
  }

  // The code before a quote or a line end keeps its tokens.
  lemma {:induction false} LexPrefix(s: string, t: string, p: nat, prev: Option<Kind>, d: char)
    requires Window(s, 0, t) && At(s, |t|, d) && p <= |t| && EndsBefore(t, LexFrom(t, p, prev), d)
    ensures var front := Front(LexFrom(t, p, prev)); LexFrom(s, p, prev) == front + LexFrom(s, |t|, Carry(prev, front))
    decreases |t| - p
  {
    hide TokenAt, LexFrom, Window, Front, EndsBefore;
    if p == |t| {
      LexEof(t, prev);
      assert [] + LexFrom(s, |t|, prev) == LexFrom(s, |t|, prev);
    } else {
      var (kind, end) := TokenAt(t, p, prev);
      var first, next := Token(kind, p, end), Significant(prev, kind);
      var rest := Front(LexFrom(t, end, next));
      FirstToken(t, p, prev);
      RestEndsBefore(t, p, prev, d);
      PrefixToken(s, t, p, prev, d);
      FirstToken(s, p, prev);
      LexPrefix(s, t, end, next, d);
      CarryCons(prev, first, rest);
      JoinTokens([first], rest, LexFrom(s, |t|, Carry(next, rest)));
    }
  }

  function Shift(t: Token, n: nat): Token {
    Token(t.kind, n + t.start, n + t.end)
  }

  function Shifted(ts: seq<Token>, n: nat): seq<Token>
    decreases |ts|
  {
    if ts == [] then [] else [Shift(ts[0], n)] + Shifted(ts[1..], n)
  }

  lemma ShiftedCons(t: Token, rest: seq<Token>, n: nat)
    ensures Shifted([t] + rest, n) == [Shift(t, n)] + Shifted(rest, n)
  {
    assert ([t] + rest)[1..] == rest;
  }

  lemma OneShifted(t: Token, n: nat)
    ensures Shifted([t], n) == [Shift(t, n)]
  {
    assert [t][1..] == [] && Shifted([], n) == [];
  }

  lemma SuffixToken(s: string, n: nat, t: string, p: nat, q: nat, prev: Option<Kind>)
    requires Lies(s, n, t, p, q) && Ends(s, n, t) && p < |t|
    ensures q == n + p < |s|
    ensures var r := TokenAt(t, p, prev); TokenAt(s, q, prev) == (r.0, n + r.1) && Lies(s, n, t, r.1, n + r.1)
  {
    hide TokenAt, Window, SameToken;
    CharWindow(s, n, t, p, q);
    TokenWindow(s, n, t, p, q, prev);
    EndsAlike(s, n, t, TokenAt(s, q, prev), TokenAt(t, p, prev));
  }

  // The code at the end of a text has its tokens, that much later.
  lemma {:induction false} LexSuffix(s: string, n: nat, t: string, p: nat, q: nat, prev: Option<Kind>)
    requires Lies(s, n, t, p, q) && Ends(s, n, t)
    ensures q <= |s| && LexFrom(s, q, prev) == Shifted(LexFrom(t, p, prev), n)
    decreases |t| - p
  {
    hide TokenAt, LexFrom, Window, Front, Shifted;
    CharWindow(s, n, t, p, q);
    if p < |t| {
      var (kind, end) := TokenAt(t, p, prev);
      var next := Significant(prev, kind);
      SuffixToken(s, n, t, p, q, prev);
      LexSuffix(s, n, t, end, n + end, next);
      FirstToken(t, p, prev);
      FirstToken(s, q, prev);
      ShiftedCons(Token(kind, p, end), LexFrom(t, end, next), n);
    } else {
      LexEof(t, prev);
      LexEof(s, prev);
      OneShifted(Token(Eof, p, p), n);
    }
  }

}
