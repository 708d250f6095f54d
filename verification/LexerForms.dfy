/**
 Kinds and texts of tokens. A token of a fixed text has that text, and that text is a token of its kind wherever no
 longer one stands. Numbers, objects, symbols and words are told by their form.
 */
module LexerForms {

  import opened Prelude
  import opened MooText
  import opened Lexer
  import opened LexerSpelling

  // ---------------------------------------------------------------- operators

  lemma SpellsPair(k: Kind, c: char, d: char)
    requires PairSpelling(k) == Some((c, d))
    ensures OperatorSpelling(k) == Some([c, d])
  {
    hide IsPair, IsSign, IsMark, PairSpelling;
    PairKinds(k);
  }

  lemma SpellsSign(k: Kind, c: char)
    requires SignSpelling(k) == Some(c)
    ensures OperatorSpelling(k) == Some([c])
  {
    hide IsPair, IsSign, IsMark, SignSpelling;
    SignKinds(k);
    PairIsNoSign(k);
  }

  lemma SpellsMark(k: Kind, c: char)
    requires MarkSpelling(k) == Some(c)
    ensures OperatorSpelling(k) == Some([c])
  {
    hide IsPair, IsSign, IsMark, MarkSpelling;
    MarkKinds(k);
    PairIsNoMark(k);
    SignIsNoMark(k);
  }

  lemma SpellsRest()
    ensures OperatorSpelling(LShr) == Some(">>>") && OperatorSpelling(Hash) == Some("#") && OperatorSpelling(Apostrophe) == Some("'")
  {
  }

  // An operator's text is the spelling of its kind.
  lemma OperatorSpelled(s: string, p: nat)
    requires p < |s|
    ensures var (k, e) := Operator(s, p); k != Error ==> OperatorSpelling(k) == Some(s[p..e])
  {
    hide OperatorSpelling, PairSpelling, SignSpelling, MarkSpelling, OneCharacter, TwoCharacters, IsPlainKind, IsWordKind;
    SpellsRest();
    var c := s[p];
    assert s[p..p + 1] == [c];
    OneSpelled(c);
    var one := OneCharacter(c);
    if SignSpelling(one) == Some(c) { SpellsSign(one, c); }
    if MarkSpelling(one) == Some(c) { SpellsMark(one, c); }
    if p + 1 < |s| {
      var d := s[p + 1];
      assert s[p..p + 2] == [c, d];
      PairSpelled(c, d);
      if TwoCharacters(c, d).Some? { SpellsPair(TwoCharacters(c, d).value, c, d); }
    }
    if At(s, p, '>') && At(s, p + 1, '>') && At(s, p + 2, '>') { assert s[p..p + 3] == ">>>"; }
  }

  predicate Stands(s: string, p: nat, w: string) {
    p + |w| <= |s| && s[p..p + |w|] == w
  }

  // No longer operator stands at p.
  ghost predicate Longest(s: string, p: nat, w: string) {
    forall k :: OperatorSpelling(k).Some? && Stands(s, p, OperatorSpelling(k).value) ==> |OperatorSpelling(k).value| <= |w|
  }

  lemma NoTriple(s: string, p: nat, w: string)
    requires Longest(s, p, w) && |w| <= 2
    ensures !(At(s, p, '>') && At(s, p + 1, '>') && At(s, p + 2, '>'))
  {
    hide OperatorSpelling;
    SpellsRest();
    assert At(s, p, '>') && At(s, p + 1, '>') && At(s, p + 2, '>') ==> Stands(s, p, ">>>");
  }

  lemma NoPair(s: string, p: nat, w: string)
    requires Longest(s, p, w) && |w| == 1 && p + 1 < |s|
    ensures TwoCharacters(s[p], s[p + 1]).None?
  {
    hide OperatorSpelling, PairSpelling, TwoCharacters, IsWordKind;
    var c, d := s[p], s[p + 1];
    PairSpelled(c, d);
    assert Stands(s, p, [c, d]);
    if TwoCharacters(c, d).Some? { SpellsPair(TwoCharacters(c, d).value, c, d); }
  }

  lemma SingleIs(k: Kind, c: char)
    requires OperatorSpelling(k) == Some([c]) && k != Hash && k != Apostrophe
    ensures OneCharacter(c) == k
  {
    hide IsPair, IsSign, IsMark, PairSpelling, SignSpelling, MarkSpelling, OneCharacter, OneSign, IsMarkChar;
    var w := OperatorSpelling(k).value;
    assert |w| == 1 && w[0] == c;
    if IsSign(k) {
      SignKinds(k);
      SignIs(k, c);
      SignChars(k, c);
      SignIsOne(c);
    } else if IsMark(k) {
      MarkKinds(k);
      MarkIs(k, c);
    }
  }

  lemma DoubleIs(k: Kind, c: char, d: char)
    requires OperatorSpelling(k) == Some([c, d])
    ensures TwoCharacters(c, d) == Some(k)
  {
    hide IsPair, IsSign, IsMark, PairSpelling, SignSpelling, MarkSpelling, TwoCharacters;
    var w := OperatorSpelling(k).value;
    assert |w| == 2 && w[0] == c && w[1] == d;
    if IsPair(k) {
      PairKinds(k);
      PairIs(k, c, d);
    }
  }

  lemma SpellingSizes(k: Kind)
    requires OperatorSpelling(k).Some?
    ensures 1 <= |OperatorSpelling(k).value| <= 3
    ensures |OperatorSpelling(k).value| == 3 ==> k == LShr
  {
    hide IsPair, IsSign, IsMark, PairSpelling, SignSpelling, MarkSpelling;
  }

  lemma SingleStands(s: string, p: nat, k: Kind, c: char)
    requires OperatorSpelling(k) == Some([c]) && k != Hash && k != Apostrophe && At(s, p, c) && Longest(s, p, [c])
    ensures Operator(s, p) == (k, p + 1)
  {
    hide OperatorSpelling, OneCharacter, TwoCharacters, Longest, IsPlainKind, IsWordKind;
    NoTriple(s, p, [c]);
    if p + 1 < |s| { NoPair(s, p, [c]); }
    SingleIs(k, c);
  }

  lemma DoubleStands(s: string, p: nat, k: Kind, c: char, d: char)
    requires OperatorSpelling(k) == Some([c, d]) && At(s, p, c) && At(s, p + 1, d) && Longest(s, p, [c, d])
    ensures Operator(s, p) == (k, p + 2)
  {
    hide OperatorSpelling, OneCharacter, TwoCharacters, Longest, IsPlainKind, IsWordKind;
    NoTriple(s, p, [c, d]);
    DoubleIs(k, c, d);
  }

  // The longest spelling that stands at p is the operator there.
  lemma OperatorIs(s: string, p: nat, k: Kind)
    requires OperatorSpelling(k).Some? && k != Hash && k != Apostrophe && p < |s|
    requires Stands(s, p, OperatorSpelling(k).value) && Longest(s, p, OperatorSpelling(k).value)
    ensures Operator(s, p) == (k, p + |OperatorSpelling(k).value|)
  {
    hide OperatorSpelling, Longest, Operator;
    var w := OperatorSpelling(k).value;
    SpellingSizes(k);
    SpellsRest();
    assert forall i :: 0 <= i < |w| ==> s[p + i] == w[i];
    if |w| == 3 {
      TripleStands(s, p);
    } else if |w| == 2 {
      assert w == [s[p], s[p + 1]];
      DoubleStands(s, p, k, s[p], s[p + 1]);
    } else {
      assert w == [s[p]];
      SingleStands(s, p, k, s[p]);
    }
  }

  lemma TripleStands(s: string, p: nat)
    requires At(s, p, '>') && At(s, p + 1, '>') && At(s, p + 2, '>')
    ensures Operator(s, p) == (LShr, p + 3)
  {
  }

  // Starts a token that is no operator.
  predicate StartsOther(c: char) {
    IsBlank(c) || c == '\n' || c == '\r' || c == '"' || c == '\'' || c == '#' || IsIdentStart(c) || IsDigit(c)
  }

  lemma NotMark(c: char)
    requires StartsOther(c)
    ensures !IsMarkChar(c)
  {
  }

  lemma NotSign(c: char)
    requires StartsOther(c)
    ensures OneSign(c) == Error
  {
    hide IsPlainKind;
  }

  lemma NotPair(c: char, d: char)
    requires StartsOther(c)
    ensures TwoCharacters(c, d).None?
  {
    hide IsWordKind;
  }

  lemma NoOperator(s: string, p: nat)
    requires p < |s| && StartsOther(s[p])
    ensures Operator(s, p).0 == Error
  {
    hide OneCharacter, OneSign, TwoCharacters, IsPlainKind, IsWordKind, IsMarkChar;
    NotMark(s[p]);
    NotSign(s[p]);
    SignIsOne(s[p]);
    if p + 1 < |s| { NotPair(s[p], s[p + 1]); }
  }

  lemma PlainIsOperator(s: string, p: nat, prev: Option<Kind>)
    requires p < |s| && Operator(s, p).0 != Error && !StartsNumber(s, p, prev) && !IsLineComment(s, p) && !IsBlockComment(s, p)
    ensures TokenAt(s, p, prev) == Operator(s, p)
  {
    hide Operator, StartsNumber, IsPlainKind;
    if StartsOther(s[p]) { NoOperator(s, p); }
  }

  // The converse of the spelling law: a spelling that stands at a token's start, that no longer operator extends and
  // that starts neither a number nor a comment, is a token of its kind.
  lemma OperatorIsToken(s: string, p: nat, prev: Option<Kind>, k: Kind)
    requires OperatorSpelling(k).Some? && k != Hash && k != Apostrophe && p < |s|
    requires Stands(s, p, OperatorSpelling(k).value) && Longest(s, p, OperatorSpelling(k).value)
    requires !StartsNumber(s, p, prev) && !IsLineComment(s, p) && !IsBlockComment(s, p)
    ensures TokenAt(s, p, prev) == (k, p + |OperatorSpelling(k).value|)
  {
    hide Operator, StartsNumber, Longest, TokenAt;
    OperatorIs(s, p, k);
    NotError(k);
    PlainIsOperator(s, p, prev);
  }

  lemma NotError(k: Kind)
    requires OperatorSpelling(k).Some?
    ensures k != Error
  {
  }

  // ---------------------------------------------------------------- words

  lemma WordToken(s: string, p: nat, prev: Option<Kind>)
    requires p < |s| && IsIdentStart(s[p]) && !IsBinary(s, p)
    ensures TokenAt(s, p, prev) == IdentLike(s, p)
  {
    hide Number, StartsNumber, IdentLike, Operator, ObjectOrHash, SymbolOrApostrophe, SkipWhile, BlockRest, StringRest, BinaryRest, IsPlainKind;
    WordStartsNoNumber(s, p, prev);
  }

  lemma WordStartsNoNumber(s: string, p: nat, prev: Option<Kind>)
    requires p < |s| && IsIdentStart(s[p])
    ensures !StartsNumber(s, p, prev)
  {
  }

  lemma WordEnds(s: string, p: nat, e: nat)
    requires p < e <= |s| && (forall i :: p <= i < e ==> IsIdentContinue(s[i])) && (e < |s| ==> !IsIdentContinue(s[e]))
    ensures IdentEnd(s, p + 1) == e
  {
    var d := IdentEnd(s, p + 1);
    assert forall i :: p + 1 <= i < d ==> IsIdentContinue(s[i]);
    assert d < |s| ==> !IsIdentContinue(s[d]);
  }

  // A keyword, in any case, that no longer identifier extends is a token of its kind.
  lemma KeywordIsToken(s: string, p: nat, e: nat, prev: Option<Kind>, k: Kind)
    requires p < e <= |s| && (e < |s| ==> !IsIdentContinue(s[e]))
    requires KeywordSpelling(k).Some? && SameWord(s[p..e], KeywordSpelling(k).value)
    ensures TokenAt(s, p, prev) == (k, e)
  {
    hide KeywordSpelling, IsKeyword, TokenAt, WordKind, Marked, IsWordKind, SameWord;
    var w, text := KeywordSpelling(k).value, s[p..e];
    KeywordKinds(k);
    KeywordLower(k);
    SameWordIs(text, w);
    forall i | p <= i < e ensures IsAlpha(s[i]) { assert s[i] == text[i - p] && IsLower(w[i - p]); }
    WordEnds(s, p, e);
    WordToken(s, p, prev);
    WordExactly(text, k);
    KeywordsNamed(k);
  }

  lemma KeywordsNamed(k: Kind)
    requires IsKeyword(k)
    ensures k != Ident && k != QualifiedName && k != Error && k != TypeConstant && k != ErrorLit
  {
  }

  // ---------------------------------------------------------------- digits

  predicate DigitAt(s: string, i: nat, e: nat) {
    i < e <= |s| && (IsDigit(s[i]) || (s[i] == '_' && i + 1 < e && IsDigit(s[i + 1])))
  }

  // Digits, and underscores each followed by a digit.
  predicate Digits(s: string, p: nat, e: nat) {
    p <= e <= |s| && forall i :: p <= i < e ==> DigitAt(s, i, e)
  }

  lemma DigitsHead(s: string, p: nat, e: nat)
    requires p < e <= |s|
    ensures Digits(s, p, e) <==> DigitAt(s, p, e) && Digits(s, p + 1, e)
  {
  }

  // The longest stretch of them.
  lemma {:induction false} DigitsEndIs(s: string, p: nat)
    requires p <= |s|
    ensures Digits(s, p, DigitsEnd(s, p))
    ensures forall e :: DigitsEnd(s, p) < e <= |s| ==> !Digits(s, p, e)
    decreases |s| - p
  {
    var d := DigitsEnd(s, p);
    if d > p {
      DigitsEndIs(s, p + 1);
      DigitsHead(s, p, d);
    }
    forall e | d < e <= |s| ensures !Digits(s, p, e) { DigitsHead(s, p, e); }
  }

  // ---------------------------------------------------------------- numbers

  predicate IsSigned(s: string, p: nat) {
    At(s, p, '+') || At(s, p, '-')
  }

  // A text that reads as a number: a sign or none, then a digit, or a point and a digit.
  predicate IsNumeric(t: string) {
    var q := if IsSigned(t, 0) then 1 else 0;
    q < |t| && (IsDigit(t[q]) || (t[q] == '.' && q + 1 < |t| && IsDigit(t[q + 1])))
  }

  predicate HasPointOrExponent(t: string) {
    '.' in t || 'e' in t || 'E' in t
  }

  predicate IsWhole(t: string) {
    var q := if IsSigned(t, 0) then 1 else 0;
    q < |t| && IsDigit(t[q]) && Digits(t, q, |t|)
  }

  // The end of the optional sign.
  function AfterSign(s: string, p: nat): nat {
    if IsSigned(s, p) then p + 1 else p
  }

  lemma StartsNumeric(s: string, p: nat, prev: Option<Kind>)
    requires p < |s| && StartsNumber(s, p, prev)
    ensures var q := AfterSign(s, p);
      q < |s| && (IsDigit(s[q]) || (s[q] == '.' && q + 1 < |s| && IsDigit(s[q + 1])))
  {
  }

  // The text from p to e, from within.
  ghost predicate InText(s: string, p: nat, e: nat, c: char) {
    exists i :: p <= i < e && i < |s| && s[i] == c
  }

  lemma TextHolds(s: string, p: nat, e: nat, c: char)
    requires p <= e <= |s|
    ensures c in s[p..e] <==> InText(s, p, e, c)
  {
    if InText(s, p, e, c) {
      var i :| p <= i < e && i < |s| && s[i] == c;
      assert s[p..e][i - p] == c;
    }
    if c in s[p..e] {
      var i :| 0 <= i < |s[p..e]| && s[p..e][i] == c;
      assert s[p + i] == c;
    }
  }

  ghost predicate Pointed(s: string, p: nat, e: nat) {
    InText(s, p, e, '.') || InText(s, p, e, 'e') || InText(s, p, e, 'E')
  }

  lemma PointAt(s: string, p: nat, q: nat, i: nat, e: nat)
    requires p <= q <= i < e <= |s| && (s[i] == '.' || s[i] == 'e' || s[i] == 'E')
    ensures Pointed(s, p, e) && !Digits(s, q, e)
  {
    assert !DigitAt(s, i, e);
  }

  lemma WholeDigits(s: string, p: nat, e: nat)
    requires p <= |s| && Digits(s, AfterSign(s, p), e)
    ensures !Pointed(s, p, e)
  {
    forall i | p <= i < e ensures s[i] != '.' && s[i] != 'e' && s[i] != 'E' {
      assert AfterSign(s, p) <= i ==> DigitAt(s, i, e);
    }
  }

  lemma {:induction false} SomeDigits(s: string, p: nat)
    requires p < |s| && IsDigit(s[p])
    ensures DigitsEnd(s, p) > p
  {
  }

  // A number ends after its digits as a whole one, or goes on with a point or an exponent.
  lemma AfterDigitsIs(s: string, p: nat)
    requires p <= |s|
    ensures var (k, e) := AfterDigits(s, p);
      && (k == IntLit || k == FloatLit)
      && (k == IntLit ==> e == p)
      && (k == FloatLit ==> e > p && (s[p] == '.' || s[p] == 'e' || s[p] == 'E'))
  {
    hide IsWordKind, DigitsEnd;
  }

  // Where a number may start: a sign or none, then a digit, or a point and a digit.
  predicate NumericAt(s: string, p: nat) {
    var q := AfterSign(s, p);
    q < |s| && (IsDigit(s[q]) || (s[q] == '.' && q + 1 < |s| && IsDigit(s[q + 1])))
  }

  lemma PointNumber(s: string, p: nat)
    requires NumericAt(s, p) && p < |s| && At(s, AfterSign(s, p), '.')
    ensures var (k, e) := Number(s, p); k == FloatLit && e > AfterSign(s, p)
  {
    hide IsWordKind, IsPlainKind, DigitsEnd, AfterDigits, ExponentEnd;
    SomeDigits(s, AfterSign(s, p) + 1);
  }

  lemma DigitNumber(s: string, p: nat)
    requires NumericAt(s, p) && p < |s| && !At(s, AfterSign(s, p), '.')
    ensures var (k, e) := Number(s, p); var q := AfterSign(s, p);
      q < |s| && DigitsEnd(s, q) > q && (k, e) == AfterDigits(s, DigitsEnd(s, q))
  {
    hide IsWordKind, IsPlainKind, DigitsEnd, AfterDigits, ExponentEnd;
    SomeDigits(s, AfterSign(s, p));
  }

  // A number, from its sign: whole exactly when it is all digits, and exactly when it has no point and no exponent.
  lemma NumberIs(s: string, p: nat)
    requires NumericAt(s, p) && p < |s|
    ensures var (k, e) := Number(s, p); var q := AfterSign(s, p);
      && (k == IntLit || k == FloatLit) && q < e
      && (k == IntLit <==> Digits(s, q, e)) && (k == IntLit <==> !Pointed(s, p, e))
  {
    hide IsWordKind, IsPlainKind, DigitsEnd, AfterDigits, Digits, Pointed, Number;
    var q := AfterSign(s, p);
    var (k, e) := Number(s, p);
    if At(s, q, '.') {
      PointNumber(s, p);
      PointAt(s, p, q, q, e);
    } else {
      DigitNumber(s, p);
      DigitsEndIs(s, q);
      AfterDigitsIs(s, DigitsEnd(s, q));
      if k == IntLit { WholeDigits(s, p, e); } else { PointAt(s, p, q, DigitsEnd(s, q), e); }
    }
  }

  // ---------------------------------------------------------------- objects

  predicate AllHexFrom(s: string, p: nat, e: nat) {
    p <= e <= |s| && forall i :: p <= i < e ==> IsHex(s[i])
  }

  lemma {:induction false} HexEndIs(s: string, p: nat, count: nat)
    requires p <= |s|
    ensures HexEnd(s, p, count).1 <==> AllHexFrom(s, p, p + count)
    ensures HexEnd(s, p, count).1 ==> HexEnd(s, p, count).0 == p + count
    decreases count
  {
    if count > 0 && p < |s| && IsHex(s[p]) { HexEndIs(s, p + 1, count - 1); }
  }

  // Six hexadecimal digits, a dash, ten more.
  predicate Uuid(s: string, p: nat) {
    AllHexFrom(s, p, p + 6) && At(s, p + 6, '-') && AllHexFrom(s, p + 7, p + 17)
  }

  lemma UuidEndIs(s: string, p: nat)
    requires p <= |s|
    ensures UuidEnd(s, p) == if Uuid(s, p) then Some(p + 17) else None
  {
    hide HexEnd, AllHexFrom;
    HexEndIs(s, p, 6);
    if At(s, p + 6, '-') { HexEndIs(s, p + 7, 10); }
  }

  // The number of an object: a sign or none, then digits, up to e.
  predicate ObjectDigits(s: string, p: nat, e: nat) {
    AfterSign(s, p) < e && Digits(s, AfterSign(s, p), e)
  }

  // The object written from the hash at p up to e.
  predicate ObjectText(s: string, p: nat, e: nat) {
    && At(s, p, '#')
    && (|| (StartsAnonymous(s, p + 1) && Uuid(s, p + 6) && e == p + 23)
        || (Uuid(s, p + 1) && e == p + 18)
        || ObjectDigits(s, p + 1, e))
  }

  lemma NotAnonymous(s: string, p: nat, e: nat)
    requires StartsAnonymous(s, p)
    ensures !Uuid(s, p) && !ObjectDigits(s, p, e)
  {
    assert !IsHex('n');
    assert !DigitAt(s, p, e);
  }

  lemma ObjectNumberIs(s: string, p: nat, q: nat)
    requires At(s, p, '#') && q == p + 1
    ensures var (k, e) := ObjectNumber(s, p);
      if k == ObjectLit then ObjectDigits(s, q, e) && forall d :: e < d <= |s| ==> !ObjectDigits(s, q, d)
      else k == Hash && e == q && forall d :: 0 <= d <= |s| ==> !ObjectDigits(s, q, d)
  {
    hide IsWordKind, DigitsEnd, Digits;
    DigitsEndIs(s, AfterSign(s, q));
  }

  // A hash starts an object exactly when one is written there, and the token is the whole of it.
  lemma ObjectIs(s: string, p: nat)
    requires At(s, p, '#')
    ensures var (k, e) := ObjectOrHash(s, p);
      if k == ObjectLit then ObjectText(s, p, e) && e > p + 1
      else k == Hash && e == p + 1 && forall d :: 0 <= d <= |s| ==> !ObjectText(s, p, d)
  {
    hide IsWordKind, ObjectNumber, UuidEnd, Uuid, ObjectDigits, StartsAnonymous;
    var q := p + 1;
    if StartsAnonymous(s, q) {
      AnonymousFits(s, q);
      UuidEndIs(s, q + 5);
      forall d | 0 <= d <= |s| ensures !Uuid(s, q) && !ObjectDigits(s, q, d) { NotAnonymous(s, q, d); }
    } else {
      UuidEndIs(s, q);
      ObjectNumberIs(s, p, q);
      if ObjectNumber(s, p).0 == ObjectLit { NumberAfterHash(s, q, ObjectNumber(s, p).1); }
    }
  }

  lemma AnonymousFits(s: string, p: nat)
    requires StartsAnonymous(s, p)
    ensures p + 5 <= |s|
  {
  }

  lemma NumberAfterHash(s: string, p: nat, e: nat)
    requires ObjectDigits(s, p, e)
    ensures p < e
  {
  }

  // ---------------------------------------------------------------- every token

  // An identifier's characters, and nothing after them that would go on.
  predicate WordText(s: string, p: nat, e: nat) {
    p < e <= |s| && IsIdentStart(s[p]) && (forall i :: p <= i < e ==> IsIdentContinue(s[i])) && (e < |s| ==> !IsIdentContinue(s[e]))
  }

  // A token of a fixed text has that text, keywords in any case.
  predicate FixedText(s: string, p: nat, k: Kind, e: nat) {
    && p < e <= |s|
    && (OperatorSpelling(k).Some? ==> OperatorSpelling(k).value == s[p..e])
    && (KeywordSpelling(k).Some? ==> SameWord(s[p..e], KeywordSpelling(k).value))
  }

  // Of the others, what each kind says of the text.
  ghost predicate FormedText(s: string, p: nat, k: Kind, e: nat) {
    && p < e <= |s|
    && (k.IntLit? ==> NumericAt(s, p) && Digits(s, AfterSign(s, p), e) && !Pointed(s, p, e))
    && (k.FloatLit? ==> NumericAt(s, p) && Pointed(s, p, e))
    && (k.ObjectLit? ==> ObjectText(s, p, e))
    && (k.SymbolLit? ==> At(s, p, '\'') && WordText(s, p + 1, e))
    && (k.TypeConstant? ==> WordText(s, p, e) && IsTypeName(s[p..e]))
    && (k.ErrorLit? ==> WordText(s, p, e) && IsErrorName(s[p..e]))
    && (k.Ident? ==> WordText(s, p, e) && !IsTypeName(s[p..e]) && !IsErrorName(s[p..e]) && KeywordKind(s[p..e]).None?)
  }

  predicate IsLiteral(k: Kind) {
    k.IntLit? || k.FloatLit? || k.ObjectLit? || k.SymbolLit? || k.TypeConstant? || k.ErrorLit? || k.Ident?
  }

  // Kinds this says nothing of.
  predicate IsLoose(k: Kind) {
    k.Error? || k.Whitespace? || k.Newline? || k.LineComment? || k.BlockComment? || k.StringLit? || k.BinaryLit? || k.QualifiedName?
  }

  lemma OperatorKinds(k: Kind)
    ensures OperatorSpelling(k).Some? <==> IsOperator(k)
  {
    hide IsPair, IsSign, IsMark, PairSpelling, SignSpelling, MarkSpelling;
  }

  lemma OperatorIsFixed(k: Kind)
    requires IsOperator(k)
    ensures !IsLiteral(k) && !IsLoose(k)
  {
  }

  lemma KeywordIsFixed(k: Kind)
    requires IsKeyword(k)
    ensures !IsLiteral(k) && !IsLoose(k)
  {
  }

  lemma LiteralIsNotLoose(k: Kind)
    requires IsLoose(k)
    ensures !IsLiteral(k)
  {
  }

  lemma VaryingText(s: string, p: nat, k: Kind, e: nat)
    requires p < e <= |s| && (IsLiteral(k) || IsLoose(k))
    ensures FixedText(s, p, k, e)
  {
    hide IsLiteral, IsLoose, IsOperator, IsKeyword, OperatorSpelling, KeywordSpelling;
    OperatorKinds(k);
    KeywordKinds(k);
    if IsOperator(k) { OperatorIsFixed(k); }
    if IsKeyword(k) { KeywordIsFixed(k); }
  }

  lemma FormlessText(s: string, p: nat, k: Kind, e: nat)
    requires p < e <= |s| && !IsLiteral(k)
    ensures FormedText(s, p, k, e)
  {
  }

  lemma KeywordIsNoOperator(k: Kind)
    requires IsKeyword(k)
    ensures OperatorSpelling(k).None?
  {
    hide IsOperator, OperatorSpelling, IsBlock, IsJump, IsOther;
    OperatorKinds(k);
    BlockIsNoOperator(k);
    JumpIsNoOperator(k);
    OtherIsNoOperator(k);
  }

  // The kind of a token says what its text is.
  ghost predicate Spelled(s: string, p: nat, r: (Kind, nat)) {
    FixedText(s, p, r.0, r.1) && FormedText(s, p, r.0, r.1)
  }

  lemma OperatorHolds(s: string, p: nat, k: Kind, e: nat)
    requires p < e <= |s| && OperatorSpelling(k) == Some(s[p..e])
    ensures Spelled(s, p, (k, e))
  {
    hide IsLiteral, IsLoose, IsOperator, IsKeyword, OperatorSpelling, KeywordSpelling, FormedText;
    OperatorKinds(k);
    KeywordKinds(k);
    OperatorIsFixed(k);
    FormlessText(s, p, k, e);
    if IsKeyword(k) { KeywordIsNoOperator(k); }
  }

  lemma KeywordHolds(s: string, p: nat, k: Kind, e: nat)
    requires p < e <= |s| && IsKeyword(k) && KeywordSpelling(k).Some? && SameWord(s[p..e], KeywordSpelling(k).value)
    ensures Spelled(s, p, (k, e))
  {
    hide IsLiteral, IsLoose, IsOperator, IsKeyword, OperatorSpelling, KeywordSpelling, FormedText, SameWord;
    KeywordIsFixed(k);
    FormlessText(s, p, k, e);
    KeywordIsNoOperator(k);
  }

  lemma LooseHolds(s: string, p: nat, k: Kind, e: nat)
    requires p < e <= |s| && IsLoose(k)
    ensures Spelled(s, p, (k, e))
  {
    hide IsLiteral, IsLoose, FixedText, FormedText;
    VaryingText(s, p, k, e);
    LiteralIsNotLoose(k);
    FormlessText(s, p, k, e);
  }

  lemma LiteralHolds(s: string, p: nat, k: Kind, e: nat)
    requires IsLiteral(k) && FormedText(s, p, k, e)
    ensures Spelled(s, p, (k, e))
  {
    hide IsLiteral, IsLoose, FixedText;
    VaryingText(s, p, k, e);
  }

  lemma WordEndIs(s: string, p: nat)
    requires p < |s| && IsIdentStart(s[p])
    ensures WordText(s, p, IdentEnd(s, p + 1))
  {
    var e := IdentEnd(s, p + 1);
    assert forall i :: p + 1 <= i < e ==> IsIdentContinue(s[i]);
  }

  lemma NameHolds(s: string, p: nat, e: nat)
    requires p < e <= |s| && WordText(s, p, e) && KeywordKind(s[p..e]).None?
    ensures Spelled(s, p, (WordKind(s[p..e]), e))
  {
    hide WordKind, IsTypeName, IsErrorName, KeywordKind, WordText, Spelled, IsWordKind;
    NameExactly(s[p..e]);
    LiteralHolds(s, p, WordKind(s[p..e]), e);
  }

  lemma WordHolds(s: string, p: nat)
    requires p < |s| && IsIdentStart(s[p])
    ensures Spelled(s, p, IdentLike(s, p))
  {
    hide WordKind, KeywordKind, WordText, Spelled, IsKeyword, KeywordSpelling, SameWord, IdentEnd, IsWordKind, IsQualifier, IsLoose;
    var e := IdentEnd(s, p + 1);
    var text := s[p..e];
    WordEndIs(s, p);
    KeywordIsWordKind(text);
    if KeywordKind(text).Some? {
      KeywordSpelled(text);
      KeywordHolds(s, p, KeywordKind(text).value, e);
      KeywordsNamed(KeywordKind(text).value);
    } else {
      NameHolds(s, p, e);
      QualifiedIsLoose();
      if IdentLike(s, p).0 == QualifiedName { LooseHolds(s, p, QualifiedName, IdentLike(s, p).1); }
    }
  }

  lemma KeywordIsWordKind(text: string)
    ensures KeywordKind(text).Some? ==> WordKind(text) == KeywordKind(text).value
  {
    hide KeywordKind, IsTypeConstant, SameWord, IsWordKind;
  }

  lemma QualifiedIsLoose()
    ensures IsLoose(QualifiedName)
  {
  }

  lemma NumberHolds(s: string, p: nat)
    requires NumericAt(s, p) && p < |s|
    ensures Spelled(s, p, Number(s, p))
  {
    hide Number, Spelled, Digits, Pointed;
    NumberIs(s, p);
    LiteralHolds(s, p, Number(s, p).0, Number(s, p).1);
  }

  lemma ObjectHolds(s: string, p: nat)
    requires At(s, p, '#')
    ensures Spelled(s, p, ObjectOrHash(s, p))
  {
    hide ObjectOrHash, Spelled, ObjectText, OperatorSpelling, IsWordKind;
    ObjectIs(s, p);
    SpellsRest();
    var (k, e) := ObjectOrHash(s, p);
    if k == ObjectLit {
      LiteralHolds(s, p, k, e);
    } else {
      assert s[p..p + 1] == "#";
      OperatorHolds(s, p, k, e);
    }
  }

  lemma SymbolHolds(s: string, p: nat)
    requires At(s, p, '\'')
    ensures Spelled(s, p, SymbolOrApostrophe(s, p))
  {
    hide Spelled, WordText, OperatorSpelling, IdentEnd, IsWordKind;
    SpellsRest();
    var (k, e) := SymbolOrApostrophe(s, p);
    if p + 1 < |s| && IsIdentStart(s[p + 1]) {
      WordEndIs(s, p + 1);
      LiteralHolds(s, p, SymbolLit, e);
    } else {
      assert s[p..p + 1] == "'";
      OperatorHolds(s, p, Apostrophe, e);
    }
  }

  lemma OperatorTextHolds(s: string, p: nat)
    requires p < |s|
    ensures Spelled(s, p, Operator(s, p))
  {
    hide Spelled, Operator, OperatorSpelling, IsPlainKind;
    OperatorSpelled(s, p);
    var (k, e) := Operator(s, p);
    if k == Error {
      LooseHolds(s, p, k, e);
    } else {
      OperatorHolds(s, p, k, e);
    }
  }

  lemma NumberStarts(s: string, p: nat, prev: Option<Kind>)
    requires p < |s| && StartsNumber(s, p, prev)
    ensures NumericAt(s, p) && (IsDigit(s[p]) || s[p] == '.' || s[p] == '+' || s[p] == '-')
  {
  }

  lemma PlainHolds(s: string, p: nat, prev: Option<Kind>)
    requires p < |s|
    ensures Spelled(s, p, PlainToken(s, p, prev))
  {
    hide Spelled, Operator, Number, StartsNumber, IdentLike, ObjectOrHash, SymbolOrApostrophe, SkipWhile, IsPlainKind, IsWordKind, NumericAt;
    var c := s[p];
    var (k, e) := PlainToken(s, p, prev);
    if IsBlank(c) || c == '\n' || c == '\r' {
      LooseHolds(s, p, k, e);
    } else if c == '\'' {
      SymbolHolds(s, p);
    } else if c == '#' {
      ObjectHolds(s, p);
    } else if StartsNumber(s, p, prev) {
      NumberStarts(s, p, prev);
      NumberHolds(s, p);
    } else if IsIdentStart(c) {
      WordHolds(s, p);
    } else {
      OperatorTextHolds(s, p);
    }
  }

  // The spelling law: whatever token the lexer finds, its text is what its kind says.
  lemma TokenSpelled(s: string, p: nat, prev: Option<Kind>)
    requires p < |s|
    ensures Spelled(s, p, TokenAt(s, p, prev))
  {
    hide Spelled, PlainToken, SkipWhile, BlockRest, StringRest, BinaryRest, IsPlainKind;
    var (k, e) := TokenAt(s, p, prev);
    if IsLineComment(s, p) || IsBlockComment(s, p) || s[p] == '"' || IsBinary(s, p) {
      LooseHolds(s, p, k, e);
    } else {
      PlainHolds(s, p, prev);
    }
  }

  // All tokens of a text are spelled as their kinds say.
  lemma {:induction false} LexSpelled(s: string, p: nat, prev: Option<Kind>)
    requires p <= |s|
    ensures forall t :: t in LexFrom(s, p, prev) && t.kind != Eof ==> Spelled(s, t.start, (t.kind, t.end))
    decreases |s| - p
  {
    if p < |s| {
      hide Spelled, TokenAt;
      TokenSpelled(s, p, prev);
      var (kind, end) := TokenAt(s, p, prev);
      LexSpelled(s, end, Significant(prev, kind));
    }
  }

  // ---------------------------------------------------------------- numbers and objects, exactly

  lemma NumberToken(s: string, p: nat, prev: Option<Kind>)
    requires p < |s| && StartsNumber(s, p, prev)
    ensures TokenAt(s, p, prev) == Number(s, p)
  {
    hide Number, StartsNumber, NumericAt, IdentLike, Operator, ObjectOrHash, SymbolOrApostrophe, SkipWhile, BlockRest, StringRest, BinaryRest, IsPlainKind;
    NumberStarts(s, p, prev);
  }

  lemma NumberOnly(s: string, p: nat, prev: Option<Kind>)
    requires p < |s| && (TokenAt(s, p, prev).0.IntLit? || TokenAt(s, p, prev).0.FloatLit?)
    ensures StartsNumber(s, p, prev)
  {
    hide Spelled, Number, Operator, StartsNumber, SkipWhile, IsPlainKind, IdentLike, ObjectOrHash, SymbolOrApostrophe, OperatorSpelling, Digits, Pointed;
    TokenSpelled(s, p, prev);
    NumericText(s, p, TokenAt(s, p, prev).0, TokenAt(s, p, prev).1);
    OperatorSpelled(s, p);
    NumberIsNoOperator(Operator(s, p).0);
  }

  lemma NumericText(s: string, p: nat, k: Kind, e: nat)
    requires Spelled(s, p, (k, e)) && (k.IntLit? || k.FloatLit?)
    ensures p < |s| && (IsDigit(s[p]) || s[p] == '.' || s[p] == '+' || s[p] == '-')
  {
    hide FixedText;
  }

  lemma NumberIsNoOperator(k: Kind)
    ensures k.IntLit? || k.FloatLit? ==> OperatorSpelling(k).None? && k != Error
  {
    hide OperatorSpelling, IsOperator;
    OperatorKinds(k);
    if IsOperator(k) { OperatorIsFixed(k); }
  }

  // A token is a number exactly where one starts; a whole one exactly when all after the sign is digits, a
  // floating-point one exactly when it has a point or an exponent.
  lemma NumberExactly(s: string, p: nat, prev: Option<Kind>)
    requires p < |s|
    ensures var (k, e) := TokenAt(s, p, prev);
      && (k == IntLit <==> StartsNumber(s, p, prev) && Digits(s, AfterSign(s, p), e))
      && (k == FloatLit <==> StartsNumber(s, p, prev) && Pointed(s, p, e))
  {
    hide TokenAt, StartsNumber, Number, Digits, Pointed, NumericAt;
    var (k, e) := TokenAt(s, p, prev);
    if k.IntLit? || k.FloatLit? { NumberOnly(s, p, prev); }
    if StartsNumber(s, p, prev) {
      NumberStarts(s, p, prev);
      NumberToken(s, p, prev);
      NumberIs(s, p);
    }
  }

  lemma HashToken(s: string, p: nat, prev: Option<Kind>)
    requires At(s, p, '#')
    ensures TokenAt(s, p, prev) == ObjectOrHash(s, p)
  {
    hide ObjectOrHash, IsPlainKind, IsWordKind;
  }

  // A hash is an object literal exactly when an object is written there; otherwise it stands for itself.
  lemma ObjectExactly(s: string, p: nat, prev: Option<Kind>)
    requires At(s, p, '#')
    ensures var (k, e) := TokenAt(s, p, prev);
      && (k == ObjectLit <==> exists d :: 0 <= d <= |s| && ObjectText(s, p, d))
      && (k == ObjectLit ==> ObjectText(s, p, e))
      && (k != ObjectLit ==> (k, e) == (Hash, p + 1))
  {
    hide TokenAt, ObjectText, ObjectOrHash;
    HashToken(s, p, prev);
    ObjectIs(s, p);
  }

}
