/**
 What else reads as the same literal: numbers with underscores, plus signs and leading zeros, literals after any white
 space and comments, constants by name, anonymous objects.
 */
module LiteralSpelling {

  import opened Prelude
  import opened MooText
  import opened Numerals
  import opened ObjectIds
  import opened StatementTerminator
  import opened Literal
  import opened LiteralGrammar
  import opened LiteralScalars

  // ---------------------------------------------------------------- numbers

  lemma {:induction false} WithoutJoins(a: string, b: string, c: char)
    ensures Without(a + b, c) == Without(a, c) + Without(b, c)
  {
    if a == "" {
      assert a + b == b;
    } else {
      assert (a + b)[0] == a[0] && (a + b)[1..] == a[1..] + b;
      WithoutJoins(a[1..], b, c);
    }
  }

  // An underscore anywhere in a number changes nothing.
  lemma UnderscoreIgnored(a: string, b: string)
    ensures ReadNumber(a + "_" + b) == ReadNumber(a + b)
  {
    WithoutJoins(a + "_", b, '_');
    WithoutJoins(a, "_", '_');
    WithoutJoins(a, b, '_');
    assert Without("_", '_') == "";
    assert Without(a, '_') + "" == Without(a, '_');
  }

  lemma {:induction false} ZeroReads(text: string)
    requires AllDigits(text)
    ensures ReadNat("0" + text) == ReadNat(text) && ReadNat(text).Some?
    decreases |text|
  {
    var longer := "0" + text;
    if text == "" {
      assert longer == "0" && longer[..0] == "" && DigitValue('0') == 0;
    } else {
      var front := text[..|text| - 1];
      ZeroReads(front);
      assert longer[..|longer| - 1] == "0" + front;
    }
  }

  lemma PlusReads(text: string)
    requires text != "" && IsDigit(text[0])
    ensures ReadInt("+" + text, INT_MIN, INT_MAX) == ReadInt(text, INT_MIN, INT_MAX)
  {
    hide ReadNat;
    assert ("+" + text)[1..] == text;
  }

  lemma MinusReads(text: string, other: string)
    requires text != "" && other != "" && ReadNat(text) == ReadNat(other)
    ensures ReadInt("-" + text, INT_MIN, INT_MAX) == ReadInt("-" + other, INT_MIN, INT_MAX)
  {
    hide ReadNat;
    assert ("-" + text)[1..] == text && ("-" + other)[1..] == other;
  }

  lemma PlainReads(text: string, other: string)
    requires text != "" && other != "" && IsDigit(text[0]) && IsDigit(other[0]) && ReadNat(text) == ReadNat(other)
    ensures ReadInt(text, INT_MIN, INT_MAX) == ReadInt(other, INT_MIN, INT_MAX)
  {
    hide ReadNat;
  }

  // Nor do a plus sign and a leading zero.
  lemma SignsAndZeros(n: nat)
    ensures ReadInt("+" + PrintNat(n), INT_MIN, INT_MAX) == ReadInt(PrintNat(n), INT_MIN, INT_MAX)
    ensures ReadInt("0" + PrintNat(n), INT_MIN, INT_MAX) == ReadInt(PrintNat(n), INT_MIN, INT_MAX)
    ensures ReadInt("-" + ("0" + PrintNat(n)), INT_MIN, INT_MAX) == ReadInt("-" + PrintNat(n), INT_MIN, INT_MAX)
  {
    hide ReadNat, ReadInt, PrintNat;
    var text := PrintNat(n);
    PrintsDigits(n);
    ZeroReads(text);
    PlusReads(text);
    PlainReads("0" + text, text);
    MinusReads("0" + text, text);
  }

  lemma LastDigit(text: string, n: nat)
    requires text != "" && IsDigit(text[|text| - 1]) && ReadNat(text[..|text| - 1]) == Some(n)
    ensures ReadNat(text) == Some(10 * n + DigitValue(text[|text| - 1]))
  {
  }

  lemma Shift(n: nat, power: nat, m: nat, d: nat)
    ensures 10 * (n * power + m) + d == n * (10 * power) + (10 * m + d)
  {
  }

  // Each digit counts ten times the ones after it.
  lemma {:induction false} DigitsJoin(a: string, b: string)
    requires AllDigits(a) && AllDigits(b)
    ensures ReadNat(a).Some? && ReadNat(b).Some? && ReadNat(a + b) == Some(ReadNat(a).value * Pow10(|b|) + ReadNat(b).value)
    decreases |b|
  {
    ZeroReads(a);
    if b == "" {
      assert a + b == a;
    } else {
      var front, last := b[..|b| - 1], b[|b| - 1];
      assert (a + b)[..|a + b| - 1] == a + front && (a + b)[|a + b| - 1] == last;
      DigitsJoin(a, front);
      hide ReadNat, DigitValue;
      var n, m := ReadNat(a).value, ReadNat(front).value;
      LastDigit(b, m);
      LastDigit(a + b, n * Pow10(|front|) + m);
      Shift(n, Pow10(|front|), m, DigitValue(last));
    }
  }

  function Pow10(k: nat): nat {
    if k == 0 then 1 else 10 * Pow10(k - 1)
  }

  // The digits, in order.
  lemma DigitsAre(d: nat)
    requires d < 16
    ensures HexChar(d) == "0123456789ABCDEF"[d] && (d < 10 ==> DigitChar(d) == "0123456789"[d])
  {
  }

  lemma LastHex(text: string)
    requires text != "" && AllHex(text)
    ensures ReadHex(text) == 16 * ReadHex(text[..|text| - 1]) + HexValue(text[|text| - 1])
  {
  }

  lemma ShiftHex(n: nat, power: nat, m: nat, d: nat)
    ensures 16 * (n * power + m) + d == n * (16 * power) + (16 * m + d)
  {
  }

  lemma {:induction false} HexJoin(a: string, b: string)
    requires AllHex(a) && AllHex(b)
    ensures AllHex(a + b) && ReadHex(a + b) == ReadHex(a) * Pow16(|b|) + ReadHex(b)
    decreases |b|
  {
    if b == "" {
      assert a + b == a;
    } else {
      var front, last := b[..|b| - 1], b[|b| - 1];
      assert (a + b)[..|a + b| - 1] == a + front && (a + b)[|a + b| - 1] == last;
      HexJoin(a, front);
      LastHex(b);
      LastHex(a + b);
      hide ReadHex, HexValue;
      ShiftHex(ReadHex(a), Pow16(|front|), ReadHex(front), HexValue(last));
    }
  }

  // An identifier is written as one number in hexadecimal, with a dash after the sixth digit.
  lemma UuidIsNumber(packed: nat)
    requires packed < 0x4000_0000_0000_0000
    ensures var text := PrintUuid(packed); AllHex(text[..6] + text[7..]) && ReadHex(text[..6] + text[7..]) == packed
  {
    hide ReadHex, Pow16, PrintUuid, FirstGroup, PrintHex;
    var text := PrintUuid(packed);
    PrintedGroups(packed);
    FirstGroupIsQuotient(packed);
    Powers();
    HexJoin(text[..6], text[7..]);
    assert |text[7..]| == 10;
  }

  // ---------------------------------------------------------------- white space and comments

  datatype Piece = Blank(c: char) | Line(text: string) | Block(text: string)

  function Render(piece: Piece): string {
    match piece
    case Blank(c) => [c]
    case Line(text) => "//" + text + "\n"
    case Block(text) => "/*" + text + "*/"
  }

  // A line comment ends at its line feed, a block comment at the first star and slash.
  ghost predicate ValidPiece(piece: Piece) {
    match piece
    case Blank(c) => IsWhitespace(c)
    case Line(text) => '\n' !in text
    case Block(text) => forall i :: 0 <= i < |text| ==> !StartsWith(text + "*/", i, '*', '/')
  }

  function Rendered(pieces: seq<Piece>): string {
    if pieces == [] then "" else Render(pieces[0]) + Rendered(pieces[1..])
  }

  predicate TriviaEnds(s: string, q: nat) {
    q <= |s| && !(q < |s| && IsWhitespace(s[q])) && !StartsWith(s, q, '/', '/') && !StartsWith(s, q, '/', '*')
  }

  lemma NothingSkipped(s: string, q: nat)
    requires TriviaEnds(s, q)
    ensures SkipTrivia(s, q) == q
  {
  }

  lemma BlankSkipped(s: string, p: nat)
    requires p < |s| && IsWhitespace(s[p])
    ensures SkipTrivia(s, p) == SkipTrivia(s, p + 1)
  {
    hide IsWhitespace;
    assert SkipWhile(s, p, IsWhitespace) == SkipWhile(s, p + 1, IsWhitespace);
    assert TriviaOnce(s, p) == TriviaOnce(s, p + 1);
  }

  lemma CommentSkipped(s: string, p: nat, e: nat)
    requires p < e <= |s| && TriviaOnce(s, p) == e
    ensures SkipTrivia(s, p) == SkipTrivia(s, e)
  {
  }

  lemma LineSkipped(s: string, p: nat, text: string)
    requires StandsAt(s, p, Render(Line(text))) && '\n' !in text
    ensures TriviaOnce(s, p) == p + |text| + 3
  {
    var r := Render(Line(text));
    StandsChar(s, p, r, 0);
    StandsChar(s, p, r, 1);
    StandsChar(s, p, r, |text| + 2);
    StandsSplit(s, p, "//" + text, "\n");
    forall i | 0 <= i < |text| + 2 ensures NotLineFeed(("//" + text)[i]) {
      if i >= 2 { assert ("//" + text)[i] == text[i - 2] && text[i - 2] in text; }
    }
    TextRun(s, p, "//" + text, NotLineFeed);
    assert !IsWhitespace('/');
  }

  lemma {:induction false} PastCommentIs(s: string, p: nat, e: nat)
    requires p <= e && StartsWith(s, e, '*', '/') && forall i :: p <= i < e ==> !StartsWith(s, i, '*', '/')
    ensures PastComment(s, p) == e + 2
    decreases e - p
  {
    if p < e { PastCommentIs(s, p + 1, e); }
  }

  lemma BlockSkipped(s: string, p: nat, text: string)
    requires StandsAt(s, p, Render(Block(text))) && ValidPiece(Block(text))
    ensures TriviaOnce(s, p) == p + |text| + 4
  {
    var r, body := Render(Block(text)), text + "*/";
    assert r == "/*" + body;
    StandsChar(s, p, r, 0);
    StandsChar(s, p, r, 1);
    StandsSplit(s, p, "/*", body);
    StandsChar(s, p + 2, body, |text|);
    StandsChar(s, p + 2, body, |text| + 1);
    forall i | p + 2 <= i < p + 2 + |text| ensures !StartsWith(s, i, '*', '/') {
      StandsChar(s, p + 2, body, i - p - 2);
      StandsChar(s, p + 2, body, i - p - 1);
      assert !StartsWith(body, i - p - 2, '*', '/');
    }
    PastCommentIs(s, p + 2, p + 2 + |text|);
    assert !IsWhitespace('/');
  }

  lemma PieceSkipped(s: string, p: nat, piece: Piece)
    requires StandsAt(s, p, Render(piece)) && ValidPiece(piece)
    ensures p <= |s| && p + |Render(piece)| <= |s| && SkipTrivia(s, p) == SkipTrivia(s, p + |Render(piece)|)
  {
    hide SkipTrivia, TriviaOnce;
    match piece
    case Blank(c) =>
      StandsChar(s, p, [c], 0);
      BlankSkipped(s, p);
    case Line(text) =>
      LineSkipped(s, p, text);
      CommentSkipped(s, p, p + |Render(piece)|);
    case Block(text) =>
      BlockSkipped(s, p, text);
      CommentSkipped(s, p, p + |Render(piece)|);
  }

  // Any run of white space and comments is skipped, to the first thing that is neither.
  lemma {:induction false} TriviaSkipped(s: string, p: nat, pieces: seq<Piece>)
    requires StandsAt(s, p, Rendered(pieces)) && TriviaEnds(s, p + |Rendered(pieces)|)
    requires forall i :: 0 <= i < |pieces| ==> ValidPiece(pieces[i])
    ensures SkipTrivia(s, p) == p + |Rendered(pieces)|
    decreases |pieces|
  {
    hide SkipTrivia, ValidPiece, Render;
    if pieces == [] {
      NothingSkipped(s, p);
    } else {
      StandsSplit(s, p, Render(pieces[0]), Rendered(pieces[1..]));
      PieceSkipped(s, p, pieces[0]);
      TriviaSkipped(s, p + |Render(pieces[0])|, pieces[1..]);
    }
  }

  // So it changes nothing before a literal.
  lemma TriviaIgnored(s: string, p: nat, pieces: seq<Piece>, depth: nat, constants: map<string, Value>)
    requires StandsAt(s, p, Rendered(pieces)) && TriviaEnds(s, p + |Rendered(pieces)|)
    requires forall i :: 0 <= i < |pieces| ==> ValidPiece(pieces[i])
    ensures ParseLiteral(s, p, depth, constants) == ParseLiteral(s, p + |Rendered(pieces)|, depth, constants)
  {
    hide SkipTrivia, ParseInner, ValidPiece, Rendered, TriviaEnds;
    TriviaSkipped(s, p, pieces);
    NothingSkipped(s, p + |Rendered(pieces)|);
  }

  // ---------------------------------------------------------------- words and anonymous objects

  // Neither a truth value, an inclusion nor an error.
  predicate IsPlainName(name: string) {
    && IsIdent(name) && !SameWord(name, "true") && !SameWord(name, "false")
    && !SameWord(name, "include") && !SameWord(name, "include_bin")
    && !(|name| >= 2 && (name[0] == 'e' || name[0] == 'E') && name[1] == '_')
  }

  lemma NotErrorName(name: string)
    requires |name| >= 2
    ensures SameWord(name[..2], "e_") ==> (name[0] == 'e' || name[0] == 'E') && name[1] == '_'
  {
    var w := name[..2];
    if SameWord(w, "e_") { assert Lower(w[0]) == Lower('e') && SameFrom(w, "e_", 1) && Lower(w[1]) == Lower('_'); }
  }

  // A name stands for the constant of that name, and without one it is an error.
  lemma ConstantReads(s: string, p: nat, name: string, constants: map<string, Value>)
    requires IsPlainName(name) && StandsAt(s, p, name) && Follow(s, p + |name|)
    ensures ParseWord(s, p, constants)
         == if name in constants then Got(constants[name], p + |name|) else Failed(ConstantNotFound(name))
  {
    hide SameWord;
    IdentReads(s, p, name);
    assert s[p..p + |name|] == name;
    if |name| >= 2 { NotErrorName(name); }
  }

  // True and false in any case.
  lemma TruthInAnyCase(s: string, p: nat, name: string, constants: map<string, Value>)
    requires IsIdent(name) && StandsAt(s, p, name) && Follow(s, p + |name|)
    requires SameWord(name, "true") || SameWord(name, "false")
    ensures ParseWord(s, p, constants) == Got(Bool(SameWord(name, "true")), p + |name|)
  {
    hide SameWord;
    IdentReads(s, p, name);
  }

  lemma AnonymousReads(packed: nat)
    requires packed < 0x4000_0000_0000_0000
    ensures ReadObject("anon_" + PrintUuid(packed)) == Some(Anonymous(packed))
  {
    var text := "anon_" + PrintUuid(packed);
    assert text[..5] == "anon_" && text[5..] == PrintUuid(packed);
    ServerReadsBack(packed);
  }

}
