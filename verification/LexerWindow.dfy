/**
 The lexer reads a stretch of a text as it reads that stretch alone, where the text ends with the stretch or goes on
 with a quote or a line end, and no token is still open there. Position p of the stretch is position q of the text.
 */
module LexerWindow {

  import opened Prelude
  import opened MooText
  import opened Lexer

  predicate IsBoundary(c: char) { c == '"' || c == '\n' || c == '\r' }

  // The text t stands in s at n, and s ends with it or goes on with a quote or a line end.
  predicate Window(s: string, n: nat, t: string) {
    && n + |t| <= |s|
    && (forall i :: 0 <= i < |t| ==> t[i] == s[n + i])
    && (n + |t| < |s| ==> IsBoundary(s[n + |t|]))
  }

  predicate Ends(s: string, n: nat, t: string) { n + |t| == |s| }

  // Position p of t, in a window, is position q of s.
  predicate Lies(s: string, n: nat, t: string, p: nat, q: nat) {
    Window(s, n, t) && p <= |t| && q == n + p
  }

  // ---------------------------------------------------------------- characters and runs

  lemma CharWindow(s: string, n: nat, t: string, p: nat, q: nat)
    requires Lies(s, n, t, p, q)
    ensures p <= |t| && q <= |s|
    ensures p < |t| ==> q < |s| && s[q] == t[p] && Lies(s, n, t, p + 1, q + 1)
    ensures p == |t| && q < |s| ==> IsBoundary(s[q])
  {
  }

  lemma AtWindow(s: string, n: nat, t: string, p: nat, q: nat, c: char)
    requires Lies(s, n, t, p, q) && !IsBoundary(c)
    ensures At(s, q, c) <==> At(t, p, c)
  {
    CharWindow(s, n, t, p, q);
  }

  lemma {:induction false} SkipWindow(s: string, n: nat, t: string, p: nat, q: nat, test: char -> bool)
    requires Lies(s, n, t, p, q)
    requires Ends(s, n, t) || !test(s[n + |t|]) || SkipWhile(t, p, test) < |t|
    ensures q <= |s| && Lies(s, n, t, SkipWhile(t, p, test), SkipWhile(s, q, test))
    decreases |t| - p
  {
    CharWindow(s, n, t, p, q);
    if p < |t| && test(t[p]) { SkipWindow(s, n, t, p + 1, q + 1, test); }
  }

  // A run that no quote and no line end belongs to.
  lemma RunWindow(s: string, n: nat, t: string, p: nat, q: nat, test: char -> bool)
    requires Lies(s, n, t, p, q) && !test('"') && !test('\n') && !test('\r')
    ensures q <= |s| && Lies(s, n, t, SkipWhile(t, p, test), SkipWhile(s, q, test))
  {
    CharWindow(s, n, t, |t|, n + |t|);
    SkipWindow(s, n, t, p, q, test);
  }

  lemma {:induction false} DigitsWindow(s: string, n: nat, t: string, p: nat, q: nat)
    requires Lies(s, n, t, p, q)
    ensures q <= |s| && Lies(s, n, t, DigitsEnd(t, p), DigitsEnd(s, q))
    decreases |t| - p
  {
    CharWindow(s, n, t, p, q);
    if p < |t| {
      CharWindow(s, n, t, p + 1, q + 1);
      if IsDigit(t[p]) || (t[p] == '_' && p + 1 < |t| && IsDigit(t[p + 1])) { DigitsWindow(s, n, t, p + 1, q + 1); }
    }
  }

  lemma {:induction false} HexWindow(s: string, n: nat, t: string, p: nat, q: nat, count: nat)
    requires Lies(s, n, t, p, q)
    ensures q <= |s| && HexEnd(s, q, count).1 == HexEnd(t, p, count).1
    ensures Lies(s, n, t, HexEnd(t, p, count).0, HexEnd(s, q, count).0)
    decreases count
  {
    CharWindow(s, n, t, p, q);
    if count > 0 && p < |t| && IsHex(t[p]) { HexWindow(s, n, t, p + 1, q + 1, count - 1); }
  }

  lemma UuidWindow(s: string, n: nat, t: string, p: nat, q: nat)
    requires Lies(s, n, t, p, q)
    ensures q <= |s| && UuidEnd(s, q).Some? == UuidEnd(t, p).Some?
    ensures UuidEnd(t, p).Some? ==> Lies(s, n, t, UuidEnd(t, p).value, UuidEnd(s, q).value)
  {
    hide Lies, HexEnd;
    CharWindow(s, n, t, p, q);
    HexWindow(s, n, t, p, q, 6);
    var a, b := HexEnd(t, p, 6).0, HexEnd(s, q, 6).0;
    AtWindow(s, n, t, a, b, '-');
    CharWindow(s, n, t, a, b);
    if HexEnd(t, p, 6).1 && At(t, a, '-') {
      HexWindow(s, n, t, a + 1, b + 1, 10);
    } else {
      assert UuidEnd(t, p).None? && UuidEnd(s, q).None?;
    }
  }

  // ---------------------------------------------------------------- plain tokens

  // Tokens of the same kind that end at the same place.
  predicate SameToken(s: string, n: nat, t: string, a: (Kind, nat), b: (Kind, nat)) {
    a.0 == b.0 && Lies(s, n, t, b.1, a.1)
  }

  lemma AnonymousWindow(s: string, n: nat, t: string, p: nat, q: nat)
    requires Lies(s, n, t, p, q)
    ensures StartsAnonymous(s, q) <==> StartsAnonymous(t, p)
    ensures StartsAnonymous(t, p) ==> Lies(s, n, t, p + 5, q + 5)
  {
    AtWindow(s, n, t, p, q, 'a');
    if p < |t| { AtWindow(s, n, t, p + 1, q + 1, 'n'); }
    if p + 1 < |t| { AtWindow(s, n, t, p + 2, q + 2, 'o'); }
    if p + 2 < |t| { AtWindow(s, n, t, p + 3, q + 3, 'n'); }
    if p + 3 < |t| { AtWindow(s, n, t, p + 4, q + 4, '_'); }
  }

  // A sign or none.
  function PastSign(s: string, p: nat): nat {
    if At(s, p, '+') || At(s, p, '-') then p + 1 else p
  }

  lemma SignWindow(s: string, n: nat, t: string, p: nat, q: nat)
    requires Lies(s, n, t, p, q)
    ensures (At(s, q, '+') || At(s, q, '-')) == (At(t, p, '+') || At(t, p, '-'))
    ensures Lies(s, n, t, PastSign(t, p), PastSign(s, q))
  {
    AtWindow(s, n, t, p, q, '+');
    AtWindow(s, n, t, p, q, '-');
  }

  lemma ObjectNumberWindow(s: string, n: nat, t: string, p: nat, q: nat)
    requires Lies(s, n, t, p, q) && At(t, p, '#')
    ensures At(s, q, '#') && SameToken(s, n, t, ObjectNumber(s, q), ObjectNumber(t, p))
  {
    hide DigitsEnd;
    CharWindow(s, n, t, p, q);
    SignWindow(s, n, t, p + 1, q + 1);
    DigitsWindow(s, n, t, PastSign(t, p + 1), PastSign(s, q + 1));
  }

  lemma ObjectWindow(s: string, n: nat, t: string, p: nat, q: nat)
    requires Lies(s, n, t, p, q) && At(t, p, '#')
    ensures At(s, q, '#') && SameToken(s, n, t, ObjectOrHash(s, q), ObjectOrHash(t, p))
  {
    hide Lies, UuidEnd, ObjectNumber, StartsAnonymous;
    CharWindow(s, n, t, p, q);
    AnonymousWindow(s, n, t, p + 1, q + 1);
    if StartsAnonymous(t, p + 1) {
      UuidWindow(s, n, t, p + 6, q + 6);
    } else {
      UuidWindow(s, n, t, p + 1, q + 1);
      ObjectNumberWindow(s, n, t, p, q);
    }
  }

  lemma ExponentWindow(s: string, n: nat, t: string, p: nat, q: nat)
    requires Lies(s, n, t, p, q)
    ensures q <= |s| && Lies(s, n, t, ExponentEnd(t, p), ExponentEnd(s, q))
  {
    hide DigitsEnd;
    CharWindow(s, n, t, p, q);
    AtWindow(s, n, t, p, q, 'e');
    AtWindow(s, n, t, p, q, 'E');
    if p < |t| {
      SignWindow(s, n, t, p + 1, q + 1);
      DigitsWindow(s, n, t, PastSign(t, p + 1), PastSign(s, q + 1));
    }
  }

  lemma AfterDigitsWindow(s: string, n: nat, t: string, p: nat, q: nat)
    requires Lies(s, n, t, p, q)
    ensures q <= |s| && SameToken(s, n, t, AfterDigits(s, q), AfterDigits(t, p))
  {
    hide DigitsEnd, ExponentEnd;
    CharWindow(s, n, t, p, q);
    AtWindow(s, n, t, p, q, '.');
    if p < |t| { AtWindow(s, n, t, p + 1, q + 1, '.'); }
    if At(t, p, '.') && !At(t, p + 1, '.') {
      DigitsWindow(s, n, t, p + 1, q + 1);
      ExponentWindow(s, n, t, DigitsEnd(t, p + 1), DigitsEnd(s, q + 1));
    } else {
      ExponentWindow(s, n, t, p, q);
    }
  }

  predicate NumberStart(c: char) { IsDigit(c) || c == '.' || c == '+' || c == '-' }

  lemma FractionWindow(s: string, n: nat, t: string, p: nat, q: nat)
    requires Lies(s, n, t, p, q) && p < |t|
    ensures q < |s| && Lies(s, n, t, DigitsEnd(t, p + 1), DigitsEnd(s, q + 1))
    ensures Lies(s, n, t, ExponentEnd(t, DigitsEnd(t, p + 1)), ExponentEnd(s, DigitsEnd(s, q + 1)))
  {
    hide DigitsEnd, ExponentEnd;
    CharWindow(s, n, t, p, q);
    DigitsWindow(s, n, t, p + 1, q + 1);
    ExponentWindow(s, n, t, DigitsEnd(t, p + 1), DigitsEnd(s, q + 1));
  }

  lemma WholeWindow(s: string, n: nat, t: string, p: nat, q: nat)
    requires Lies(s, n, t, p, q)
    ensures q <= |s| && Lies(s, n, t, DigitsEnd(t, p), DigitsEnd(s, q))
    ensures SameToken(s, n, t, AfterDigits(s, DigitsEnd(s, q)), AfterDigits(t, DigitsEnd(t, p)))
  {
    hide DigitsEnd, AfterDigits;
    DigitsWindow(s, n, t, p, q);
    AfterDigitsWindow(s, n, t, DigitsEnd(t, p), DigitsEnd(s, q));
  }

  // A number that starts at p and whose sign, if it has one, ends at d.
  function NumberFrom(s: string, p: nat, d: nat): (Kind, nat)
    requires p < |s| && d <= |s|
  {
    if At(s, d, '.') then
      var e := DigitsEnd(s, d + 1);
      if e == d + 1 then (Dot, p + 1) else (FloatLit, ExponentEnd(s, e))
    else
      var e := DigitsEnd(s, d);
      if e == d then (Error, p + 1) else AfterDigits(s, e)
  }

  lemma NumberSplits(s: string, p: nat)
    requires p < |s| && NumberStart(s[p])
    ensures Number(s, p) == NumberFrom(s, p, PastSign(s, p))
  {
    hide DigitsEnd, ExponentEnd, AfterDigits;
  }

  lemma NumberFromWindow(s: string, n: nat, t: string, p: nat, q: nat, d: nat, e: nat)
    requires Lies(s, n, t, p, q) && p < |t| && Lies(s, n, t, d, e)
    ensures q < |s| && e <= |s| && SameToken(s, n, t, NumberFrom(s, q, e), NumberFrom(t, p, d))
  {
    hide DigitsEnd, ExponentEnd, AfterDigits;
    CharWindow(s, n, t, p, q);
    CharWindow(s, n, t, d, e);
    AtWindow(s, n, t, d, e, '.');
    if At(t, d, '.') { FractionWindow(s, n, t, d, e); } else { WholeWindow(s, n, t, d, e); }
  }

  lemma NumberWindow(s: string, n: nat, t: string, p: nat, q: nat)
    requires Lies(s, n, t, p, q) && p < |t| && NumberStart(t[p])
    ensures q < |s| && s[q] == t[p] && SameToken(s, n, t, Number(s, q), Number(t, p))
  {
    hide Lies, NumberFrom, Number;
    CharWindow(s, n, t, p, q);
    SignWindow(s, n, t, p, q);
    NumberFromWindow(s, n, t, p, q, PastSign(t, p), PastSign(s, q));
    NumberSplits(t, p);
    NumberSplits(s, q);
  }

  lemma QualifierWindow(s: string, n: nat, t: string, p: nat, q: nat)
    requires Lies(s, n, t, p, q)
    ensures IsQualifier(s, q) <==> IsQualifier(t, p)
    ensures IsQualifier(t, p) ==> Lies(s, n, t, p + 2, q + 2)
  {
    AtWindow(s, n, t, p, q, ':');
    if p < |t| { AtWindow(s, n, t, p + 1, q + 1, ':'); }
    if p + 1 < |t| { CharWindow(s, n, t, p + 2, q + 2); }
  }

  lemma WordWindow(s: string, n: nat, t: string, p: nat, q: nat)
    requires Lies(s, n, t, p, q) && p < |t|
    ensures q < |s| && Lies(s, n, t, IdentEnd(t, p + 1), IdentEnd(s, q + 1))
    ensures s[q..IdentEnd(s, q + 1)] == t[p..IdentEnd(t, p + 1)]
  {
    hide SkipWhile;
    CharWindow(s, n, t, p, q);
    RunWindow(s, n, t, p + 1, q + 1, IsIdentContinue);
    SliceWindow(s, n, t, p, q, IdentEnd(t, p + 1), IdentEnd(s, q + 1));
  }

  lemma SliceWindow(s: string, n: nat, t: string, p: nat, q: nat, d: nat, e: nat)
    requires Lies(s, n, t, p, q) && Lies(s, n, t, d, e) && p <= d
    ensures q <= e <= |s| && s[q..e] == t[p..d]
  {
  }

  lemma QualifiedWindow(s: string, n: nat, t: string, p: nat, q: nat, kind: Kind)
    requires Lies(s, n, t, p, q) && IsWordKind(kind)
    ensures q <= |s| && SameToken(s, n, t, Qualified(s, q, kind), Qualified(t, p, kind))
  {
    hide Lies, SkipWhile, IsQualifier;
    CharWindow(s, n, t, p, q);
    QualifierWindow(s, n, t, p, q);
    if IsQualifier(t, p) { RunWindow(s, n, t, p + 2, q + 2, IsIdentContinue); }
  }

  lemma IdentLikeWindow(s: string, n: nat, t: string, p: nat, q: nat)
    requires Lies(s, n, t, p, q) && p < |t| && IsIdentStart(t[p])
    ensures q < |s| && s[q] == t[p] && SameToken(s, n, t, IdentLike(s, q), IdentLike(t, p))
  {
    hide Lies, IdentEnd, WordKind, Qualified;
    CharWindow(s, n, t, p, q);
    WordWindow(s, n, t, p, q);
    var d, e := IdentEnd(t, p + 1), IdentEnd(s, q + 1);
    QualifiedWindow(s, n, t, d, e, WordKind(t[p..d]));
  }

  lemma SymbolWindow(s: string, n: nat, t: string, p: nat, q: nat)
    requires Lies(s, n, t, p, q) && At(t, p, '\'')
    ensures At(s, q, '\'') && SameToken(s, n, t, SymbolOrApostrophe(s, q), SymbolOrApostrophe(t, p))
  {
    hide Window, IdentEnd;
    CharWindow(s, n, t, p, q);
    CharWindow(s, n, t, p + 1, q + 1);
    if p + 1 < |t| { WordWindow(s, n, t, p + 1, q + 1); }
  }

  // No operator goes on with a quote or a line end.
  lemma NoPairAcross(c: char, d: char)
    requires IsBoundary(d)
    ensures TwoCharacters(c, d).None?
  {
  }

  lemma OperatorWindow(s: string, n: nat, t: string, p: nat, q: nat)
    requires Lies(s, n, t, p, q) && p < |t|
    ensures q < |s| && SameToken(s, n, t, Operator(s, q), Operator(t, p))
  {
    hide Window, TwoCharacters, OneCharacter;
    CharWindow(s, n, t, p, q);
    CharWindow(s, n, t, p + 1, q + 1);
    if p + 1 == |t| && q + 1 < |s| { NoPairAcross(t[p], s[q + 1]); }
    if p + 1 < |t| { AtWindow(s, n, t, p + 2, q + 2, '>'); }
  }

  lemma StartsNumberWindow(s: string, n: nat, t: string, p: nat, q: nat, prev: Option<Kind>)
    requires Lies(s, n, t, p, q) && p < |t|
    ensures q < |s| && (StartsNumber(s, q, prev) <==> StartsNumber(t, p, prev))
  {
    hide Window;
    CharWindow(s, n, t, p, q);
    CharWindow(s, n, t, p + 1, q + 1);
    if p + 1 < |t| { CharWindow(s, n, t, p + 2, q + 2); }
  }

  lemma StartsNumberStart(t: string, p: nat, prev: Option<Kind>)
    requires p < |t| && StartsNumber(t, p, prev)
    ensures NumberStart(t[p])
  {
  }

  // A carriage return at the end of the stretch that a line feed follows.
  predicate SplitsLineEnd(s: string, n: nat, t: string, p: nat) {
    p + 1 == |t| && At(t, p, '\r') && At(s, n + |t|, '\n')
  }

  lemma PlainWindow(s: string, n: nat, t: string, p: nat, q: nat, prev: Option<Kind>)
    requires Lies(s, n, t, p, q) && p < |t| && !SplitsLineEnd(s, n, t, p)
    ensures q < |s| && s[q] == t[p] && SameToken(s, n, t, PlainToken(s, q, prev), PlainToken(t, p, prev))
  {
    CharWindow(s, n, t, p, q);
    CharWindow(s, n, t, p + 1, q + 1);
    hide Window, StartsNumber, Number, IdentLike, Operator, ObjectOrHash, SymbolOrApostrophe, SkipWhile;
    var c := t[p];
    if IsBlank(c) {
      RunWindow(s, n, t, p, q, IsBlank);
    } else if c == '\n' || c == '\r' {
      if p + 1 < |t| { CharWindow(s, n, t, p + 1, q + 1); }
    } else if c == '\'' {
      SymbolWindow(s, n, t, p, q);
    } else if c == '#' {
      ObjectWindow(s, n, t, p, q);
    } else {
      StartsNumberWindow(s, n, t, p, q, prev);
      if StartsNumber(t, p, prev) {
        StartsNumberStart(t, p, prev);
        NumberWindow(s, n, t, p, q);
      } else if IsIdentStart(c) {
        IdentLikeWindow(s, n, t, p, q);
      } else {
        OperatorWindow(s, n, t, p, q);
      }
    }
  }

  // ---------------------------------------------------------------- strings, binary literals and comments

  lemma EscapeWindow(s: string, n: nat, t: string, p: nat, q: nat)
    requires Lies(s, n, t, p, q) && p < |t| && (Ends(s, n, t) || EscapeEnd(t, p) < |t|)
    ensures q < |s| && Lies(s, n, t, EscapeEnd(t, p), EscapeEnd(s, q))
  {
    hide HexEscapeEnd;
    CharWindow(s, n, t, p, q);
    CharWindow(s, n, t, p + 1, q + 1);
    if t[p] == 'x' { HexEscapeWindow(s, n, t, p + 1, q + 1, 2); }
    if t[p] == 'u' { HexEscapeWindow(s, n, t, p + 1, q + 1, 4); }
    if t[p] == 'U' { HexEscapeWindow(s, n, t, p + 1, q + 1, 8); }
  }

  lemma HexEscapeWindow(s: string, n: nat, t: string, p: nat, q: nat, count: nat)
    requires Lies(s, n, t, p, q) && (Ends(s, n, t) || HexEscapeEnd(t, p, count) < |t|)
    ensures q <= |s| && Lies(s, n, t, HexEscapeEnd(t, p, count), HexEscapeEnd(s, q, count))
  {
    hide HexEnd, SkipWhile;
    HexWindow(s, n, t, p, q, count);
    if !HexEnd(t, p, count).1 { SkipWindow(s, n, t, HexEnd(t, p, count).0, HexEnd(s, q, count).0, InString); }
  }

  lemma UnclosedAtEnd(t: string)
    ensures !StringRest(t, |t|).1
  {
  }

  lemma {:induction false} StringWindow(s: string, n: nat, t: string, p: nat, q: nat)
    requires Lies(s, n, t, p, q) && (Ends(s, n, t) || StringRest(t, p).1)
    ensures q <= |s| && StringRest(s, q).1 == StringRest(t, p).1
    ensures Lies(s, n, t, StringRest(t, p).0, StringRest(s, q).0)
    decreases |t| - p
  {
    hide EscapeEnd;
    CharWindow(s, n, t, p, q);
    if p < |t| && t[p] != '"' {
      if t[p] != '\\' {
        StringWindow(s, n, t, p + 1, q + 1);
      } else if p + 1 < |t| {
        UnclosedAtEnd(t);
        EscapeWindow(s, n, t, p + 1, q + 1);
        StringWindow(s, n, t, EscapeEnd(t, p + 1), EscapeEnd(s, q + 1));
      }
    }
  }

  lemma {:induction false} BlockWindow(s: string, n: nat, t: string, p: nat, q: nat)
    requires Lies(s, n, t, p, q) && (Ends(s, n, t) || BlockRest(t, p).1)
    ensures q <= |s| && BlockRest(s, q).1 == BlockRest(t, p).1
    ensures Lies(s, n, t, BlockRest(t, p).0, BlockRest(s, q).0)
    decreases |t| - p
  {
    CharWindow(s, n, t, p, q);
    if p < |t| {
      AtWindow(s, n, t, p, q, '*');
      AtWindow(s, n, t, p + 1, q + 1, '/');
      if !(At(t, p, '*') && At(t, p + 1, '/')) { BlockWindow(s, n, t, p + 1, q + 1); }
    }
  }

  lemma BrokenWindow(s: string, n: nat, t: string, p: nat, q: nat)
    requires Lies(s, n, t, p, q)
    requires var r := BrokenEnd(t, p); Ends(s, n, t) || r.1 || r.0 < |t|
    ensures q <= |s| && BrokenEnd(s, q).1 == BrokenEnd(t, p).1
    ensures Lies(s, n, t, BrokenEnd(t, p).0, BrokenEnd(s, q).0)
  {
    hide SkipWhile;
    RunWindow(s, n, t, p, q, InBrokenBinary);
    CharWindow(s, n, t, SkipWhile(t, p, InBrokenBinary), SkipWhile(s, q, InBrokenBinary));
  }

  lemma BinaryWindow(s: string, n: nat, t: string, p: nat, q: nat)
    requires Lies(s, n, t, p, q)
    requires var r := BinaryRest(t, p); Ends(s, n, t) || r.2 || r.0 < |t|
    ensures q <= |s| && BinaryRest(s, q).1 == BinaryRest(t, p).1 && BinaryRest(s, q).2 == BinaryRest(t, p).2
    ensures Lies(s, n, t, BinaryRest(t, p).0, BinaryRest(s, q).0)
  {
    hide SkipWhile, BrokenEnd;
    var d, e := SkipWhile(t, p, IsBase64), SkipWhile(s, q, IsBase64);
    RunWindow(s, n, t, p, q, IsBase64);
    CharWindow(s, n, t, d, e);
    if d < |t| && t[d] != '"' { BrokenWindow(s, n, t, d + 1, e + 1); }
  }

}
