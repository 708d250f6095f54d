/**
 What the rest of the project needs to know of the lexer's tokens: where each one ends, and that a token
 other than a string, a binary literal or a comment holds nothing that could start one.
 */
module LexerShape {

  import opened Prelude
  import opened MooText
  import opened Lexer

  // ---------------------------------------------------------------- plain spans

  predicate InertSpan(s: string, p: nat, e: nat) {
    p <= e <= |s| && forall i :: p <= i < e ==> Inert(s[i])
  }

  lemma InertJoin(s: string, p: nat, q: nat, e: nat)
    requires InertSpan(s, p, q) && InertSpan(s, q, e)
    ensures InertSpan(s, p, e)
  {
  }

  lemma IdentInert(s: string, p: nat)
    requires p <= |s|
    ensures InertSpan(s, p, IdentEnd(s, p))
  {
    forall i | p <= i < IdentEnd(s, p) ensures Inert(s[i]) {
      assert IsIdentContinue(s[i]);
    }
  }

  lemma {:induction false} DigitsInert(s: string, p: nat)
    requires p <= |s|
    ensures InertSpan(s, p, DigitsEnd(s, p))
    decreases |s| - p
  {
    if DigitsEnd(s, p) > p {
      DigitsInert(s, p + 1);
      InertJoin(s, p, p + 1, DigitsEnd(s, p + 1));
    }
  }

  lemma HexInert(s: string, p: nat, count: nat)
    requires p <= |s|
    ensures InertSpan(s, p, HexEnd(s, p, count).0)
  {
    forall i | p <= i < HexEnd(s, p, count).0 ensures Inert(s[i]) {
      assert IsHex(s[i]);
    }
  }

  lemma UuidInert(s: string, p: nat)
    requires p <= |s|
    ensures UuidEnd(s, p).Some? ==> InertSpan(s, p, UuidEnd(s, p).value)
  {
    var first := HexEnd(s, p, 6).0;
    HexInert(s, p, 6);
    if At(s, first, '-') {
      HexInert(s, first + 1, 10);
      InertJoin(s, p, first, first + 1);
      InertJoin(s, p, first + 1, HexEnd(s, first + 1, 10).0);
    }
  }

  lemma ObjectNumberInert(s: string, p: nat)
    requires At(s, p, '#')
    ensures InertSpan(s, p, ObjectNumber(s, p).1)
  {
    var d := if At(s, p + 1, '+') || At(s, p + 1, '-') then p + 2 else p + 1;
    DigitsInert(s, d);
    InertJoin(s, p, d, DigitsEnd(s, d));
  }

  lemma ObjectInert(s: string, p: nat)
    requires At(s, p, '#')
    ensures InertSpan(s, p, ObjectOrHash(s, p).1)
  {
    var q := if StartsAnonymous(s, p + 1) then p + 6 else p + 1;
    assert InertSpan(s, p, q);
    UuidInert(s, q);
    if UuidEnd(s, q).Some? {
      InertJoin(s, p, q, UuidEnd(s, q).value);
    } else {
      ObjectNumberInert(s, p);
    }
  }

  lemma ExponentInert(s: string, p: nat)
    requires p <= |s|
    ensures InertSpan(s, p, ExponentEnd(s, p))
  {
    if ExponentEnd(s, p) > p {
      var d := if At(s, p + 1, '+') || At(s, p + 1, '-') then p + 2 else p + 1;
      DigitsInert(s, d);
      InertJoin(s, p, d, DigitsEnd(s, d));
    }
  }

  // Digits, from a stretch that is inert already, and an exponent after them.
  lemma DigitsExponentInert(s: string, p: nat, q: nat)
    requires InertSpan(s, p, q)
    ensures InertSpan(s, p, DigitsEnd(s, q)) && InertSpan(s, p, ExponentEnd(s, DigitsEnd(s, q)))
  {
    var e := DigitsEnd(s, q);
    DigitsInert(s, q);
    InertJoin(s, p, q, e);
    ExponentInert(s, e);
    InertJoin(s, p, e, ExponentEnd(s, e));
  }

  lemma AfterDigitsInert(s: string, p: nat, e: nat)
    requires InertSpan(s, p, e)
    ensures InertSpan(s, p, AfterDigits(s, e).1)
  {
    if At(s, e, '.') {
      InertJoin(s, p, e, e + 1);
      DigitsExponentInert(s, p, e + 1);
    }
    ExponentInert(s, e);
    InertJoin(s, p, e, ExponentEnd(s, e));
  }

  lemma NumberInert(s: string, p: nat)
    requires p < |s| && (IsDigit(s[p]) || s[p] == '.' || s[p] == '+' || s[p] == '-')
    ensures InertSpan(s, p, Number(s, p).1)
  {
    var q := if s[p] == '+' || s[p] == '-' then p + 1 else p;
    assert InertSpan(s, p, q);
    if At(s, q, '.') {
      assert InertSpan(s, p, q + 1);
      DigitsExponentInert(s, p, q + 1);
    } else {
      DigitsExponentInert(s, p, q);
      AfterDigitsInert(s, p, DigitsEnd(s, q));
    }
  }

  lemma IdentLikeInert(s: string, p: nat)
    requires p < |s| && IsIdentStart(s[p])
    ensures InertSpan(s, p, IdentLike(s, p).1)
  {
    var e := IdentEnd(s, p + 1);
    IdentInert(s, p + 1);
    InertJoin(s, p, p + 1, e);
    QualifiedInert(s, p, e, WordKind(s[p..e]));
  }

  lemma QualifiedInert(s: string, p: nat, e: nat, kind: Kind)
    requires InertSpan(s, p, e) && IsWordKind(kind)
    ensures InertSpan(s, p, Qualified(s, e, kind).1)
  {
    if IsQualifier(s, e) {
      InertJoin(s, p, e, e + 2);
      IdentInert(s, e + 2);
      InertJoin(s, p, e + 2, IdentEnd(s, e + 2));
    }
  }

  lemma SymbolInert(s: string, p: nat)
    requires At(s, p, '\'')
    ensures InertSpan(s, p, SymbolOrApostrophe(s, p).1)
  {
    if p + 1 < |s| && IsIdentStart(s[p + 1]) {
      IdentInert(s, p + 2);
      InertJoin(s, p, p + 2, IdentEnd(s, p + 2));
    }
  }

  lemma OperatorInert(s: string, p: nat)
    requires p < |s|
    ensures InertSpan(s, p + 1, Operator(s, p).1)
  {
    if p + 1 < |s| { PairInert(s[p], s[p + 1]); }
  }

  lemma PairInert(c: char, d: char)
    ensures TwoCharacters(c, d).Some? ==> Inert(d)
  {
  }

  // ---------------------------------------------------------------- tokens

  // A token that is none of a comment, a string or a binary literal.
  predicate PlainShape(s: string, t: Token) {
    && IsPlainKind(t.kind)
    && InertSpan(s, t.start + 1, t.end)
    && (t.kind == Semi <==> At(s, t.start, ';'))
    && (At(s, t.start, '\n') ==> t.end == t.start + 1)
  }

  function BinaryToken(s: string, p: nat): (t: Token)
    requires IsBinary(s, p)
    ensures t.start == p < t.end <= |s|
  {
    Token(BinaryRest(s, p + 2).1, p, BinaryRest(s, p + 2).0)
  }

  predicate Shape(s: string, t: Token) {
    && t.start < t.end <= |s|
    && (if IsLineComment(s, t.start) then t.kind == LineComment && t.end == SkipWhile(s, t.start + 2, InLine)
        else if IsBlockComment(s, t.start) then
          var r := BlockRest(s, t.start + 2); t.end == r.0 && t.kind == if r.1 then BlockComment else Error
        else if s[t.start] == '"' then
          var r := StringRest(s, t.start + 1); t.end == r.0 && t.kind == if r.1 then StringLit else Error
        else if IsBinary(s, t.start) then t == BinaryToken(s, t.start)
        else PlainShape(s, t))
  }

  // The tokens of the text from p on, up to the end of file.
  predicate Shaped(s: string, p: nat, ts: seq<Token>)
    decreases |ts|
  {
    if p == |s| then ts == [Token(Eof, p, p)]
    else ts != [] && ts[0].start == p && Shape(s, ts[0]) && Shaped(s, ts[0].end, ts[1..])
  }

  lemma PlainTokenShape(s: string, p: nat, prev: Option<Kind>)
    requires p < |s|
    ensures var r := PlainToken(s, p, prev); PlainShape(s, Token(r.0, p, r.1))
  {
    var c := s[p];
    if IsBlank(c) {
      var e := SkipWhile(s, p, IsBlank);
      forall i | p + 1 <= i < e ensures Inert(s[i]) { assert IsBlank(s[i]); }
    } else if c == '\n' || c == '\r' {
    } else if c == '\'' {
      SymbolInert(s, p);
    } else if c == '#' {
      ObjectInert(s, p);
    } else if StartsNumber(s, p, prev) {
      NumberInert(s, p);
    } else if IsIdentStart(c) {
      IdentLikeInert(s, p);
    } else {
      OperatorInert(s, p);
    }
  }

  lemma TokenAtShape(s: string, p: nat, prev: Option<Kind>)
    requires p < |s|
    ensures var r := TokenAt(s, p, prev); Shape(s, Token(r.0, p, r.1))
  {
    PlainTokenShape(s, p, prev);
  }

  lemma {:induction false} LexFromShaped(s: string, p: nat, prev: Option<Kind>)
    requires p <= |s|
    ensures Shaped(s, p, LexFrom(s, p, prev))
    decreases |s| - p
  {
    if p < |s| {
      var (kind, end) := TokenAt(s, p, prev);
      TokenAtShape(s, p, prev);
      LexFromShaped(s, end, Significant(prev, kind));
      ShapedCons(s, Token(kind, p, end), LexFrom(s, end, Significant(prev, kind)));
    }
  }

  lemma ShapedCons(s: string, t: Token, rest: seq<Token>)
    requires Shape(s, t) && Shaped(s, t.end, rest)
    ensures Shaped(s, t.start, [t] + rest)
  {
    assert ([t] + rest)[1..] == rest;
  }

  // Every token of a shaped text has a shape of its own, but for the end of file.
  lemma {:induction false} ShapedTokens(s: string, p: nat, ts: seq<Token>, t: Token)
    requires p <= |s| && Shaped(s, p, ts) && t in ts
    ensures p <= t.start <= t.end <= |s| && (t.start < |s| ==> Shape(s, t)) && (t.start == |s| ==> t == Token(Eof, |s|, |s|))
    decreases |s| - p
  {
    if p < |s| && t != ts[0] { ShapedTokens(s, ts[0].end, ts[1..], t); }
  }

}
