/**
 Writing a string as a quoted literal, and reading any quoted literal back: each character as itself or by any of
 its escapes. What is written reads back as it was.
 */
module QuotedStrings {

  import opened Prelude
  import opened MooText
  import opened Numerals
  import opened StatementTerminator
  import opened LiteralGrammar
  import opened LiteralScalars
  import opened Literal

  // ---------------------------------------------------------------- spellings of a character

  // After a backslash these stand for something else than themselves.
  predicate IsEscapeLetter(c: char) {
    c == 'n' || c == 'r' || c == 't' || c == '0' || c == 'x' || c == 'u'
  }

  predicate IsHexOf(digits: string, c: char) {
    AllHex(digits) && ReadHex(digits) == c as int
  }

  // The ways a quoted literal may spell a character.
  predicate Spells(e: string, c: char) {
    || (|e| == 1 && e[0] == c && c != '"' && c != '\\')
    || (|e| == 2 && e[0] == '\\' && e[1] == c && !IsEscapeLetter(c))
    || (e == "\\n" && c == '\n') || (e == "\\r" && c == '\r') || (e == "\\t" && c == '\t') || (e == "\\0" && c == '\0')
    || (|e| == 4 && e[..2] == "\\x" && IsHexOf(e[2..], c))
    || (|e| == 6 && e[..2] == "\\u" && IsHexOf(e[2..], c))
    || (5 <= |e| <= 10 && e[..3] == "\\u{" && e[|e| - 1] == '}' && IsHexOf(e[3..|e| - 1], c))
  }

  lemma CharIsU32(c: char)
    ensures FromU32(c as int) == Some(c)
  {
  }

  lemma HexSpelled(t: string, p: nat, digits: string, c: char)
    requires StandsAt(t, p, digits) && IsHexOf(digits, c)
    ensures HexEscape(t, p, |digits|) == Some((c, p + |digits|))
  {
    CharIsU32(c);
  }

  lemma BracesSpelled(t: string, p: nat, digits: string, c: char)
    requires StandsAt(t, p, digits) && IsHexOf(digits, c) && 1 <= |digits| <= 6 && At(t, p + |digits|, '}')
    ensures BracedEscape(t, p) == Some((c, p + |digits| + 1))
  {
    CharIsU32(c);
    TextRun(t, p, digits, IsHex);
  }

  // An escape, wherever it stands before more text, is read as its character.
  lemma EscapeReads(t: string, p: nat, e: string, c: char)
    requires StandsAt(t, p, e) && |e| >= 2 && e[0] == '\\' && Spells(e, c) && p + |e| < |t|
    ensures UnquoteEscape(t, p + 1) == Some((c, p + |e|))
  {
    StandsChar(t, p, e, 0);
    StandsChar(t, p, e, 1);
    if |e| == 4 && e[..2] == "\\x" {
      assert e[1] == e[..2][1] && e == e[..2] + e[2..];
      StandsSplit(t, p, e[..2], e[2..]);
      HexSpelled(t, p + 2, e[2..], c);
    } else if |e| == 6 && e[..2] == "\\u" && IsHexOf(e[2..], c) {
      assert e[1] == e[..2][1] && e == e[..2] + e[2..];
      StandsSplit(t, p, e[..2], e[2..]);
      HexSpelled(t, p + 2, e[2..], c);
      StandsChar(t, p, e, 2);
      assert e[2] == e[2..][0];
    } else if 5 <= |e| <= 10 && e[..3] == "\\u{" {
      BracesRead(t, p, e, c);
    }
  }

  lemma BracesRead(t: string, p: nat, e: string, c: char)
    requires StandsAt(t, p, e) && 5 <= |e| <= 10 && e[..3] == "\\u{" && e[|e| - 1] == '}' && IsHexOf(e[3..|e| - 1], c)
    ensures UnquoteEscape(t, p + 1) == Some((c, p + |e|))
  {
    var digits := e[3..|e| - 1];
    StandsChar(t, p, e, 1);
    StandsChar(t, p, e, 2);
    StandsChar(t, p, e, |e| - 1);
    assert e[1] == e[..3][1] && e[2] == e[..3][2];
    assert e == e[..3] + (digits + [e[|e| - 1]]);
    StandsSplit(t, p, e[..3], digits + [e[|e| - 1]]);
    StandsSplit(t, p + 3, digits, [e[|e| - 1]]);
    BracesSpelled(t, p + 3, digits, c);
  }

  lemma SpelledReads(t: string, p: nat, e: string, c: char)
    requires StandsAt(t, p, e) && Spells(e, c) && p + |e| < |t|
    ensures |e| >= 1 && UnquoteFrom(t, p) == Prepend(c, UnquoteFrom(t, p + |e|))
  {
    SpellingStarts(e, c);
    StandsChar(t, p, e, 0);
    if |e| >= 2 {
      hide Spells, UnquoteEscape;
      EscapeReads(t, p, e, c);
    }
  }

  lemma SpellingStarts(e: string, c: char)
    requires Spells(e, c)
    ensures |e| >= 1 && (|e| == 1 ==> e[0] == c && c != '"' && c != '\\') && (|e| >= 2 ==> e[0] == '\\')
  {
    if |e| >= 3 { assert e[0] == e[..2][0] == e[..3][0]; }
  }

  // ---------------------------------------------------------------- spelled texts

  function Joined(pieces: seq<string>): string {
    if pieces == [] then "" else pieces[0] + Joined(pieces[1..])
  }

  ghost predicate SpellsText(pieces: seq<string>, v: string) {
    |pieces| == |v| && forall i :: 0 <= i < |v| ==> Spells(pieces[i], v[i])
  }

  lemma {:induction false} SpelledUnquotes(t: string, p: nat, pieces: seq<string>, v: string)
    requires SpellsText(pieces, v) && StandsAt(t, p, Joined(pieces)) && p + |Joined(pieces)| + 1 == |t| && t[|t| - 1] == '"'
    ensures UnquoteFrom(t, p) == Some(v)
    decreases |v|
  {
    hide UnquoteFrom, Spells;
    if v == "" {
      UnquoteEnds(t);
    } else {
      var e, rest := pieces[0], pieces[1..];
      StandsSplit(t, p, e, Joined(rest));
      assert Spells(e, v[0]);
      SpelledReads(t, p, e, v[0]);
      assert SpellsText(rest, v[1..]) by {
        forall i | 0 <= i < |v| - 1 ensures Spells(rest[i], v[1..][i]) { assert rest[i] == pieces[i + 1]; }
      }
      SpelledUnquotes(t, p + |e|, rest, v[1..]);
      assert v == [v[0]] + v[1..];
    }
  }

  // Whichever way each character is spelled, the literal reads as the text.
  lemma AnySpellingUnquotes(pieces: seq<string>, v: string)
    requires SpellsText(pieces, v)
    ensures Unquote("\"" + Joined(pieces) + "\"") == Some(v)
  {
    var body := Joined(pieces);
    var t := "\"" + body + "\"";
    assert t[1..1 + |body|] == body;
    SpelledUnquotes(t, 1, pieces, v);
  }

  // ---------------------------------------------------------------- where the literal ends

  // No quote or backslash after the first two characters.
  lemma SpellingInside(e: string, c: char)
    requires Spells(e, c)
    ensures forall i :: 2 <= i < |e| ==> e[i] != '"' && e[i] != '\\'
  {
    forall i | 2 <= i < |e| ensures e[i] != '"' && e[i] != '\\' {
      if |e| == 4 || (|e| == 6 && e[..2] == "\\u" && IsHexOf(e[2..], c)) {
        assert e[i] == e[2..][i - 2];
      } else {
        assert i == 2 ==> e[i] == e[..3][2];
        assert 3 <= i < |e| - 1 ==> e[i] == e[3..|e| - 1][i - 3];
      }
    }
  }

  lemma {:induction false} PlainScans(s: string, p: nat, q: nat)
    requires p <= q <= |s| && forall i :: p <= i < q ==> s[i] != '"' && s[i] != '\\'
    ensures QuotedEnd(s, p, false) == QuotedEnd(s, q, false)
    decreases q - p
  {
    if p < q { PlainScans(s, p + 1, q); }
  }

  lemma SpelledScans(s: string, p: nat, e: string, c: char)
    requires StandsAt(s, p, e) && Spells(e, c)
    ensures QuotedEnd(s, p, false) == QuotedEnd(s, p + |e|, false)
  {
    SpellingStarts(e, c);
    SpellingInside(e, c);
    hide Spells;
    StandsChar(s, p, e, 0);
    if |e| >= 2 {
      StandsChar(s, p, e, 1);
      forall i | p + 2 <= i < p + |e| ensures s[i] != '"' && s[i] != '\\' { StandsChar(s, p, e, i - p); }
      assert QuotedEnd(s, p, false) == QuotedEnd(s, p + 1, true) == QuotedEnd(s, p + 2, false);
      PlainScans(s, p + 2, p + |e|);
    }
  }

  lemma {:induction false} SpelledEnds(s: string, p: nat, pieces: seq<string>, v: string)
    requires SpellsText(pieces, v) && StandsAt(s, p, Joined(pieces)) && At(s, p + |Joined(pieces)|, '"')
    ensures QuotedEnd(s, p, false) == Some(p + |Joined(pieces)| + 1)
    decreases |v|
  {
    hide Spells;
    if v != "" {
      var e, rest := pieces[0], pieces[1..];
      StandsSplit(s, p, e, Joined(rest));
      assert Spells(e, v[0]);
      SpelledScans(s, p, e, v[0]);
      assert SpellsText(rest, v[1..]) by {
        forall i | 0 <= i < |v| - 1 ensures Spells(rest[i], v[1..][i]) { assert rest[i] == pieces[i + 1]; }
      }
      SpelledEnds(s, p + |e|, rest, v[1..]);
    }
  }

  // A quoted literal of any spelling, standing anywhere, is read as its text, to its closing quote.
  lemma AnySpellingParses(s: string, p: nat, pieces: seq<string>, v: string)
    requires SpellsText(pieces, v) && StandsAt(s, p, "\"" + Joined(pieces) + "\"")
    ensures At(s, p, '"') && ParseString(s, p) == Got(Str(v), p + |Joined(pieces)| + 2)
  {
    hide Joined, SpellsText, QuotedEnd, Unquote, ParseString;
    var body := Joined(pieces);
    Inside(s, p, body);
    SpelledEnds(s, p + 1, pieces, v);
    AnySpellingUnquotes(pieces, v);
    StringAt(s, p, p + |body| + 2, v);
  }

  lemma Inside(s: string, p: nat, body: string)
    requires StandsAt(s, p, "\"" + body + "\"")
    ensures p + |body| + 2 <= |s| && s[p..p + |body| + 2] == "\"" + body + "\""
    ensures At(s, p, '"') && StandsAt(s, p + 1, body) && At(s, p + 1 + |body|, '"')
  {
    var t := "\"" + body + "\"";
    StandsChar(s, p, t, 0);
    StandsChar(s, p, t, |body| + 1);
    StandsSplit(s, p, "\"" + body, "\"");
    StandsSplit(s, p, "\"", body);
  }

  lemma StringAt(s: string, p: nat, end: nat, v: string)
    requires At(s, p, '"') && p <= end <= |s| && QuotedEnd(s, p + 1, false) == Some(end) && Unquote(s[p..end]) == Some(v)
    ensures ParseString(s, p) == Got(Str(v), end)
  {
  }

  // ---------------------------------------------------------------- writing

  // Format characters, and the line and paragraph separators, in ranges.
  const INVISIBLE: seq<(int, int)> :=
    [(0x00AD, 0x00AD), (0x0600, 0x0605), (0x061C, 0x061C), (0x06DD, 0x06DD), (0x070F, 0x070F),
     (0x0890, 0x0891), (0x08E2, 0x08E2), (0x180E, 0x180E), (0x200B, 0x200F), (0x2028, 0x202E),
     (0x2060, 0x2064), (0x2066, 0x206F), (0xFEFF, 0xFEFF), (0xFFF9, 0xFFFB), (0x110BD, 0x110BD),
     (0x110CD, 0x110CD), (0x13430, 0x1343F), (0x1BCA0, 0x1BCA3), (0x1D173, 0x1D17A), (0xE0001, 0xE0001),
     (0xE0020, 0xE007F)]

  predicate IsInvisible(c: char) {
    exists i :: 0 <= i < |INVISIBLE| && INVISIBLE[i].0 <= c as int <= INVISIBLE[i].1
  }

  predicate IsControl(c: char) {
    c as int < 0x20 || 0x7F <= c as int < 0xA0
  }

  predicate IsGraphic(c: char) {
    0x21 <= c as int < 0x7F
  }

  // Hexadecimal, upper case, as many digits as it takes.
  function HexDigits(n: nat): (text: string)
    ensures text != "" && AllHex(text)
  {
    if n < 16 then [HexChar(n)] else HexDigits(n / 16) + [HexChar(n % 16)]
  }

  lemma {:induction false} HexDigitsRead(n: nat)
    ensures ReadHex(HexDigits(n)) == n
  {
    HexCharReadsBack(n % 16);
    if n >= 16 {
      HexDigitsRead(n / 16);
      var front := HexDigits(n / 16);
      assert (front + [HexChar(n % 16)])[..|front|] == front;
    } else {
      assert [HexChar(n)][..0] == "";
    }
  }

  lemma {:induction false} HexDigitsFit(n: nat, k: nat)
    requires n < Pow16(k) && k > 0
    ensures |HexDigits(n)| <= k
    decreases k
  {
    if n >= 16 { HexDigitsFit(n / 16, k - 1); }
  }

  // How a character is written in a quoted literal.
  function QuotedChar(c: char): string {
    match c
    case '"' => "\\\""
    case '\\' => "\\\\"
    case '\n' => "\\n"
    case '\r' => "\\r"
    case '\t' => "\\t"
    case '\0' => "\\0"
    case _ =>
      if IsControl(c) then "\\x" + PrintHex(c as int, 2)
      else if !IsInvisible(c) then [c]
      else if c as int <= 0xFFFF then "\\u" + PrintHex(c as int, 4)
      else "\\u{" + HexDigits(c as int) + "}"
  }

  function Pieces(v: string): (es: seq<string>)
    ensures |es| == |v|
  {
    if v == "" then [] else Pieces(v[..|v| - 1]) + [QuotedChar(v[|v| - 1])]
  }

  function Quoted(v: string): string {
    "\"" + Joined(Pieces(v)) + "\""
  }

  lemma HexSizes(two: nat, four: nat, six: nat)
    requires two == 2 && four == 4 && six == 6
    ensures Pow16(two) == 0x100 && Pow16(four) == 0x1_0000 && Pow16(six) == 0x100_0000
  {
    assert Pow16(two - 2) == 1 && Pow16(two - 1) == 16 && Pow16(two) == 0x100;
    assert Pow16(four - 1) == 0x1000 && Pow16(four) == 0x1_0000;
    assert Pow16(six - 1) == 0x10_0000 && Pow16(six) == 0x100_0000;
  }

  lemma ControlSpelled(c: char)
    requires IsControl(c)
    ensures Spells("\\x" + PrintHex(c as int, 2), c)
  {
    var e := "\\x" + PrintHex(c as int, 2);
    HexSizes(2, 4, 6);
    HexReadsBack(c as int, 2);
    assert e[..2] == "\\x" && e[2..] == PrintHex(c as int, 2);
  }

  lemma InvisibleSpelled(c: char)
    ensures c as int <= 0xFFFF ==> Spells("\\u" + PrintHex(c as int, 4), c)
    ensures Spells("\\u{" + HexDigits(c as int) + "}", c)
  {
    hide Spells;
    if c as int <= 0xFFFF { FourSpelled(c); }
    BracesSpell(c);
  }

  lemma FourSpelled(c: char)
    requires c as int <= 0xFFFF
    ensures Spells("\\u" + PrintHex(c as int, 4), c)
  {
    var e := "\\u" + PrintHex(c as int, 4);
    HexSizes(2, 4, 6);
    HexReadsBack(c as int, 4);
    assert e[..2] == "\\u" && e[2..] == PrintHex(c as int, 4);
    hide PrintHex, ReadHex, Pow16;
  }

  lemma BracesSpell(c: char)
    ensures Spells("\\u{" + HexDigits(c as int) + "}", c)
  {
    var digits := HexDigits(c as int);
    var e := "\\u{" + digits + "}";
    HexSizes(2, 4, 6);
    HexDigitsRead(c as int);
    HexDigitsFit(c as int, 6);
    assert e[..3] == "\\u{" && e[3..|e| - 1] == digits && e[|e| - 1] == '}';
    hide HexDigits, ReadHex, Pow16;
  }

  lemma QuotedCharSpells(c: char)
    ensures Spells(QuotedChar(c), c)
  {
    if IsControl(c) { ControlSpelled(c); }
    InvisibleSpelled(c);
  }

  lemma {:induction false} PiecesSpell(v: string)
    ensures SpellsText(Pieces(v), v)
  {
    hide Spells;
    if v != "" {
      PiecesSpell(v[..|v| - 1]);
      QuotedCharSpells(v[|v| - 1]);
      forall i | 0 <= i < |v| ensures Spells(Pieces(v)[i], v[i]) {
        if i < |v| - 1 { assert v[i] == v[..|v| - 1][i]; }
      }
    }
  }

  // Reading undoes writing, for every text.
  lemma QuotedReadsBack(v: string)
    ensures Unquote(Quoted(v)) == Some(v)
  {
    PiecesSpell(v);
    AnySpellingUnquotes(Pieces(v), v);
  }

  // And so it does wherever the literal stands.
  lemma QuotedParses(s: string, p: nat, v: string)
    requires StandsAt(s, p, Quoted(v))
    ensures At(s, p, '"') && ParseString(s, p) == Got(Str(v), p + |Quoted(v)|)
  {
    PiecesSpell(v);
    AnySpellingParses(s, p, Pieces(v), v);
  }

  // ---------------------------------------------------------------- what the reader of a literal sees

  predicate IsVisible(c: char) {
    !IsControl(c) && !IsInvisible(c)
  }

  predicate AllVisible(s: string) {
    forall i :: 0 <= i < |s| ==> IsVisible(s[i])
  }

  lemma RangesAbove(i: nat)
    requires i < |INVISIBLE|
    ensures INVISIBLE[i].0 >= 0xAD
  {
  }

  lemma AsciiVisible(c: char)
    requires 0x20 <= c as int < 0x7F
    ensures IsVisible(c)
  {
    hide INVISIBLE;
    forall i | 0 <= i < |INVISIBLE| ensures INVISIBLE[i].0 > c as int { RangesAbove(i); }
  }

  lemma AsciiText(s: string)
    requires forall i :: 0 <= i < |s| ==> 0x20 <= s[i] as int < 0x7F
    ensures AllVisible(s)
  {
    hide IsVisible;
    forall i | 0 <= i < |s| ensures IsVisible(s[i]) { AsciiVisible(s[i]); }
  }

  lemma JoinVisible(a: string, b: string)
    requires AllVisible(a) && AllVisible(b)
    ensures AllVisible(a + b)
  {
    hide IsVisible;
  }

  lemma HexVisible(s: string)
    requires AllHex(s)
    ensures AllVisible(s)
  {
    AsciiText(s);
  }

  lemma QuotedCharVisible(c: char)
    ensures AllVisible(QuotedChar(c))
  {
    hide INVISIBLE, IsInvisible;
    var n := c as int;
    AsciiText("\\x");
    AsciiText("\\u");
    AsciiText("\\u{");
    AsciiText("}");
    HexVisible(PrintHex(n, 2));
    HexVisible(PrintHex(n, 4));
    HexVisible(HexDigits(n));
    hide AllVisible, PrintHex, HexDigits;
    JoinVisible("\\x", PrintHex(n, 2));
    JoinVisible("\\u", PrintHex(n, 4));
    JoinVisible("\\u{", HexDigits(n));
    JoinVisible("\\u{" + HexDigits(n), "}");
    ShortVisible(c);
  }

  lemma ShortVisible(c: char)
    ensures AllVisible("\\\"") && AllVisible("\\\\") && AllVisible("\\n") && AllVisible("\\r") && AllVisible("\\t") && AllVisible("\\0")
    ensures IsVisible(c) ==> AllVisible([c])
  {
    AsciiText("\\\"");
    AsciiText("\\\\");
    AsciiText("\\n");
    AsciiText("\\r");
    AsciiText("\\t");
    AsciiText("\\0");
  }

  lemma {:induction false} JoinedVisible(pieces: seq<string>)
    requires forall i :: 0 <= i < |pieces| ==> AllVisible(pieces[i])
    ensures AllVisible(Joined(pieces))
  {
    hide AllVisible;
    if pieces == [] {
      AsciiText("");
    } else {
      JoinedVisible(pieces[1..]);
      JoinVisible(pieces[0], Joined(pieces[1..]));
    }
  }

  lemma {:induction false} PieceAt(v: string, i: nat)
    requires i < |v|
    ensures Pieces(v)[i] == QuotedChar(v[i])
  {
    hide QuotedChar;
    if i < |v| - 1 { PieceAt(v[..|v| - 1], i); }
  }

  // Every character of a written literal can be seen.
  lemma QuotedVisible(v: string)
    ensures AllVisible(Quoted(v))
  {
    hide QuotedChar, AllVisible;
    forall i | 0 <= i < |v| ensures AllVisible(Pieces(v)[i]) {
      PieceAt(v, i);
      QuotedCharVisible(v[i]);
    }
    JoinedVisible(Pieces(v));
    AsciiText("\"");
    JoinVisible("\"", Joined(Pieces(v)));
    JoinVisible("\"" + Joined(Pieces(v)), "\"");
  }

  // ---------------------------------------------------------------- the writer as it runs

  lemma {:induction false} JoinedAppend(pieces: seq<string>, e: string)
    ensures Joined(pieces + [e]) == Joined(pieces) + e
  {
    if pieces == [] {
      assert [e][1..] == [];
    } else {
      assert (pieces + [e])[1..] == pieces[1..] + [e];
      JoinedAppend(pieces[1..], e);
    }
  }

  // One more character.
  lemma PiecesGrow(s: string, i: nat)
    requires i < |s|
    ensures Joined(Pieces(s[..i + 1])) == Joined(Pieces(s[..i])) + QuotedChar(s[i])
  {
    hide QuotedChar;
    assert s[..i + 1][..i] == s[..i];
    JoinedAppend(Pieces(s[..i]), QuotedChar(s[i]));
  }

  predicate NeedsNoEscape(c: char) {
    (IsGraphic(c) && c != '"' && c != '\\') || c == ' '
  }

  lemma PlainQuoted(c: char)
    requires NeedsNoEscape(c)
    ensures QuotedChar(c) == [c]
  {
    hide INVISIBLE, IsInvisible;
    AsciiVisible(c);
  }

  method AllPlain(s: string) returns (plain: bool)
    ensures plain ==> Joined(Pieces(s)) == s
  {
    for i := 0 to |s|
      invariant Joined(Pieces(s[..i])) == s[..i]
    {
      if !NeedsNoEscape(s[i]) { return false; }
      PlainQuoted(s[i]);
      PiecesGrow(s, i);
      assert s[..i + 1] == s[..i] + [s[i]];
    }
    assert s[..|s|] == s;
    plain := true;
  }

  method FindInvisible(c: char) returns (found: bool)
    ensures found == IsInvisible(c)
  {
    for i := 0 to |INVISIBLE|
      invariant forall j :: 0 <= j < i ==> !(INVISIBLE[j].0 <= c as int <= INVISIBLE[j].1)
    {
      if INVISIBLE[i].0 <= c as int <= INVISIBLE[i].1 { return true; }
    }
    found := false;
  }

  method Escape(c: char) returns (escape: Option<string>)
    ensures QuotedChar(c) == if escape.Some? then escape.value else [c]
  {
    match c {
      case '"' => return Some("\\\"");
      case '\\' => return Some("\\\\");
      case '\n' => return Some("\\n");
      case '\r' => return Some("\\r");
      case '\t' => return Some("\\t");
      case '\0' => return Some("\\0");
      case _ =>
    }
    if IsControl(c) { return Some("\\x" + PrintHex(c as int, 2)); }
    var invisible := FindInvisible(c);
    if !invisible { return None; }
    if c as int <= 0xFFFF { return Some("\\u" + PrintHex(c as int, 4)); }
    escape := Some("\\u{" + HexDigits(c as int) + "}");
  }

  // Plain texts are written whole; others stretch by stretch, with an escape where one is needed.
  method WriteQuoted(s: string) returns (out: string)
    ensures out == Quoted(s)
  {
    hide QuotedChar;
    var plain := AllPlain(s);
    if plain { return "\"" + s + "\""; }
    out := "\"";
    var unescaped := 0;
    for i := 0 to |s|
      invariant 0 <= unescaped <= i
      invariant out + s[unescaped..i] == "\"" + Joined(Pieces(s[..i]))
    {
      var escape := Escape(s[i]);
      PiecesGrow(s, i);
      ghost var before := "\"" + Joined(Pieces(s[..i]));
      assert before + QuotedChar(s[i]) == "\"" + Joined(Pieces(s[..i + 1]));
      assert out + s[unescaped..i + 1] == out + s[unescaped..i] + [s[i]];
      if escape.Some? {
        out := out + s[unescaped..i] + escape.value;
        unescaped := i + 1;
        assert out + s[unescaped..i + 1] == out;
      }
    }
    assert s[..|s|] == s;
    out := out + s[unescaped..] + "\"";
  }

}
