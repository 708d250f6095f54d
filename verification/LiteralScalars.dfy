/** Printed scalars are read back, wherever they stand before a delimiter. */
module LiteralScalars {

  import opened Prelude
  import opened MooText
  import opened Numerals
  import opened ObjectIds
  import opened TextScanner
  import opened StatementTerminator
  import opened Literal
  import opened LiteralGrammar

  // What may follow a printed value: the end, a delimiter, or the arrow after a key.
  predicate Follow(s: string, q: nat) {
    q == |s| || At(s, q, ',') || At(s, q, '}') || At(s, q, ']') || (At(s, q, ' ') && At(s, q + 1, '-'))
  }

  lemma StandsSplit(s: string, p: nat, a: string, b: string)
    requires StandsAt(s, p, a + b)
    ensures StandsAt(s, p, a) && StandsAt(s, p + |a|, b)
  {
    SplitSlice(s, p, a, b);
  }

  lemma StandsChar(s: string, p: nat, text: string, i: nat)
    requires StandsAt(s, p, text) && i < |text|
    ensures s[p + i] == text[i]
  {
    assert s[p + i] == s[p..p + |text|][i];
  }

  // ---------------------------------------------------------------- trivia and runs

  predicate NoTrivia(s: string, p: nat) {
    p < |s| ==> !IsWhitespace(s[p]) && s[p] != '/'
  }

  lemma TriviaStays(s: string, p: nat)
    requires p <= |s| && NoTrivia(s, p)
    ensures SkipTrivia(s, p) == p
  {
  }

  lemma SpaceSkips(s: string, p: nat)
    requires At(s, p, ' ') && NoTrivia(s, p + 1)
    ensures SkipTrivia(s, p) == p + 1
  {
    assert SkipWhile(s, p, IsWhitespace) == SkipWhile(s, p + 1, IsWhitespace) == p + 1;
    TriviaStays(s, p + 1);
  }

  lemma {:induction false} RunStops(s: string, p: nat, q: nat, test: char -> bool)
    requires p <= q <= |s| && (forall i :: p <= i < q ==> test(s[i])) && (q < |s| ==> !test(s[q]))
    ensures SkipWhile(s, p, test) == q
    decreases q - p
  {
    if p < q { RunStops(s, p + 1, q, test); }
  }

  // A run that is exactly the text standing at p.
  lemma TextRun(s: string, p: nat, text: string, test: char -> bool)
    requires StandsAt(s, p, text) && (forall i :: 0 <= i < |text| ==> test(text[i]))
    requires p + |text| < |s| ==> !test(s[p + |text|])
    ensures SkipWhile(s, p, test) == p + |text|
  {
    forall i | p <= i < p + |text| ensures test(s[i]) { StandsChar(s, p, text, i - p); }
    RunStops(s, p, p + |text|, test);
  }

  // ---------------------------------------------------------------- numbers and objects

  predicate IsNumeral(text: string) {
    text != "" && (IsDigit(text[0]) || text[0] == '-') && forall i :: 1 <= i < |text| ==> IsDigit(text[i])
  }

  lemma IntIsNumeral(n: int)
    ensures IsNumeral(PrintInt(n))
  {
    PrintsDigits(if n < 0 then -n else n);
  }

  lemma {:induction false} NothingWithout(text: string, c: char)
    requires c !in text
    ensures Without(text, c) == text
  {
    if text != "" { NothingWithout(text[1..], c); }
  }

  lemma NumeralReads(n: int)
    ensures ReadNumber(PrintInt(n)) == if INT_MIN <= n <= INT_MAX then Ok(Int(n)) else Err(BadNumber)
  {
    IntIsNumeral(n);
    NothingWithout(PrintInt(n), '_');
    IntReadsBack(n, INT_MIN, INT_MAX);
  }

  lemma NumeralRun(s: string, p: nat, text: string)
    requires IsNumeral(text) && StandsAt(s, p, text) && Follow(s, p + |text|)
    ensures p < |s| && (IsDigit(s[p]) || s[p] == '-')
    ensures SkipWhile(s, p, InNumber) == p + |text|
  {
    StandsChar(s, p, text, 0);
    TextRun(s, p, text, InNumber);
  }

  lemma NumberAt(s: string, p: nat, end: nat, v: Result<Value, Error>)
    requires p < |s| && (IsDigit(s[p]) || s[p] == '-')
    requires end == SkipWhile(s, p, InNumber) && ReadNumber(s[p..end]) == v
    ensures ParseNumber(s, p) == if v.Ok? then Got(v.value, end) else Failed(v.error)
  {
  }

  lemma IntReads(s: string, p: nat, n: int)
    requires StandsAt(s, p, PrintInt(n)) && Follow(s, p + |PrintInt(n)|)
    ensures p < |s| && (IsDigit(s[p]) || s[p] == '-')
    ensures ParseNumber(s, p)
         == if INT_MIN <= n <= INT_MAX then Got(Int(n), p + |PrintInt(n)|) else Failed(BadNumber)
  {
    var text := PrintInt(n);
    IntIsNumeral(n);
    NumeralRun(s, p, text);
    NumeralReads(n);
    NumberAt(s, p, p + |text|, ReadNumber(text));
  }

  lemma ObjectAt(s: string, p: nat, end: nat, v: Value)
    requires At(s, p, '#') && end == SkipWhile(s, p + 1, InObjectId) && ReadObject(s[p + 1..end]) == Some(v)
    ensures ParseObject(s, p) == Got(v, end)
  {
  }

  lemma ObjectRun(s: string, p: nat, text: string)
    requires StandsAt(s, p, "#" + text) && Follow(s, p + 1 + |text|)
    requires forall i :: 0 <= i < |text| ==> InObjectId(text[i])
    ensures At(s, p, '#') && SkipWhile(s, p + 1, InObjectId) == p + 1 + |text| && s[p + 1..p + 1 + |text|] == text
  {
    StandsSplit(s, p, "#", text);
    StandsChar(s, p, "#", 0);
    TextRun(s, p + 1, text, InObjectId);
  }

  lemma ObjReads(s: string, p: nat, id: int)
    requires StandsAt(s, p, "#" + PrintInt(id)) && Follow(s, p + 1 + |PrintInt(id)|) && OBJ_MIN <= id <= OBJ_MAX
    ensures At(s, p, '#') && ParseObject(s, p) == Got(Obj(id), p + 1 + |PrintInt(id)|)
  {
    hide PrintInt, ReadObject, ParseObject, StandsAt, SkipWhile, Follow;
    IntIsNumeral(id);
    ObjectRun(s, p, PrintInt(id));
    NumberedObject(id);
    ObjectAt(s, p, p + 1 + |PrintInt(id)|, Obj(id));
  }

  lemma UuidReads(s: string, p: nat, packed: nat)
    requires StandsAt(s, p, "#" + PrintUuid(packed)) && Follow(s, p + 18) && packed < 0x4000_0000_0000_0000
    ensures At(s, p, '#') && ParseObject(s, p) == Got(Uuid(packed), p + 18)
  {
    UuidChars(packed);
    ObjectRun(s, p, PrintUuid(packed));
    UuidObject(packed);
    ObjectAt(s, p, p + 18, Uuid(packed));
  }

  lemma NumberedObject(id: int)
    requires OBJ_MIN <= id <= OBJ_MAX
    ensures ReadObject(PrintInt(id)) == Some(Obj(id))
  {
    var text := PrintInt(id);
    IntIsNumeral(id);
    IntReadsBack(id, OBJ_MIN, OBJ_MAX);
    if |text| >= 5 { assert text[..5][1] != 'n'; }
  }

  lemma UuidObject(packed: nat)
    requires packed < 0x4000_0000_0000_0000
    ensures ReadObject(PrintUuid(packed)) == Some(Uuid(packed))
  {
    var text := PrintUuid(packed);
    ServerReadsBack(packed);
    assert text[4] == text[..6][4] && IsHex(text[4]);
    assert text[..5][4] == text[4] != '_';
  }

  lemma UuidChars(packed: nat)
    ensures forall i :: 0 <= i < 17 ==> InObjectId(PrintUuid(packed)[i])
  {
    var text := PrintUuid(packed);
    forall i | 0 <= i < 17 ensures InObjectId(text[i]) {
      if i < 6 { assert text[i] == text[..6][i]; }
      else if i > 6 { assert text[i] == text[7..][i - 7]; }
    }
  }

  // ---------------------------------------------------------------- strings

  lemma {:induction false} QuotedIsScan(s: string, p: nat, escaped: bool)
    requires p <= |s|
    ensures QuotedEnd(s, p, escaped) == if StringScan(s, p, escaped).1 then Some(StringScan(s, p, escaped).0) else None
    decreases |s| - p
  {
    if p < |s| && (escaped || s[p] != '"') { QuotedIsScan(s, p + 1, !escaped && s[p] == '\\'); }
  }

  // Unquoting undoes escaping.
  lemma {:induction false} UnquoteEscaped(t: string, p: nat, v: string)
    requires StandsAt(t, p, Escaped(v)) && p + |Escaped(v)| + 1 == |t| && t[|t| - 1] == '"'
    ensures UnquoteFrom(t, p) == Some(v)
    decreases |v|
  {
    hide UnquoteFrom, StandsAt;
    if v == "" {
      UnquoteEnds(t);
    } else {
      var c, rest := v[0], v[1..];
      EscapedHead(t, p, v);
      hide Escaped;
      UnquoteEscaped(t, p + |EscapedChar(c)|, rest);
      UnquoteChar(t, p, c);
      assert v == [c] + rest;
    }
  }

  lemma UnquoteEnds(t: string)
    requires t != "" && t[|t| - 1] == '"'
    ensures UnquoteFrom(t, |t| - 1) == Some("")
  {
  }

  // The first character's escape, and the rest.
  lemma EscapedHead(t: string, p: nat, v: string)
    requires v != "" && StandsAt(t, p, Escaped(v))
    ensures var head, rest := EscapedChar(v[0]), Escaped(v[1..]);
      && |Escaped(v)| == |head| + |rest| && StandsAt(t, p + |head|, rest)
      && p + |head| <= |t| && t[p] == head[0] && (|head| == 2 ==> t[p + 1] == v[0])
  {
    var head, rest := EscapedChar(v[0]), Escaped(v[1..]);
    assert Escaped(v) == head + rest;
    hide Escaped;
    StandsSplit(t, p, head, rest);
    StandsChar(t, p, head, 0);
    if |head| == 2 { StandsChar(t, p, head, 1); }
  }

  lemma UnquoteChar(t: string, p: nat, c: char)
    requires p + |EscapedChar(c)| < |t| && t[p] == EscapedChar(c)[0]
    requires |EscapedChar(c)| == 2 ==> t[p + 1] == c
    ensures UnquoteFrom(t, p) == Prepend(c, UnquoteFrom(t, p + |EscapedChar(c)|))
  {
    if c == '\\' || c == '"' { assert UnquoteEscape(t, p + 1) == Some((c, p + 2)); }
  }

  lemma QuotedUnquotes(v: string)
    ensures Unquote("\"" + Escaped(v) + "\"") == Some(v)
  {
    var t := "\"" + Escaped(v) + "\"";
    assert t[1..1 + |Escaped(v)|] == Escaped(v);
    UnquoteEscaped(t, 1, v);
  }

  lemma QuotedEnds(s: string, p: nat, v: string)
    requires StandsAt(s, p, "\"" + Escaped(v) + "\"")
    ensures At(s, p, '"') && QuotedEnd(s, p + 1, false) == Some(p + |Escaped(v)| + 2)
  {
    var esc := Escaped(v);
    StandsSplit(s, p, "\"" + esc, "\"");
    StandsSplit(s, p, "\"", esc);
    StandsChar(s, p, "\"", 0);
    StandsChar(s, p + 1 + |esc|, "\"", 0);
    EscapedStaysInside(s, p + 1, v);
    QuotedIsScan(s, p + 1, false);
  }

  lemma StringReads(s: string, p: nat, v: string)
    requires StandsAt(s, p, "\"" + Escaped(v) + "\"")
    ensures At(s, p, '"') && ParseString(s, p) == Got(Str(v), p + |Escaped(v)| + 2)
  {
    QuotedEnds(s, p, v);
    QuotedUnquotes(v);
  }

  // ---------------------------------------------------------------- words

  lemma IdentReads(s: string, p: nat, name: string)
    requires IsIdent(name) && StandsAt(s, p, name) && Follow(s, p + |name|)
    ensures IdentAt(s, p) == Some(p + |name|) && ConstantNameAt(s, p) == Some(p + |name|)
  {
    StandsChar(s, p, name, 0);
    TextRun(s, p, name, IsIdentContinue);
  }

  lemma BoolReads(s: string, p: nat, b: bool, constants: map<string, Value>)
    requires StandsAt(s, p, Print(Bool(b))) && Follow(s, p + |Print(Bool(b))|)
    ensures ParseWord(s, p, constants) == Got(Bool(b), p + |Print(Bool(b))|)
  {
    IdentReads(s, p, Print(Bool(b)));
    assert SameWord("true", "true") && SameWord("false", "false") && !SameWord("false", "true");
  }

  // ---------------------------------------------------------------- any scalar

  predicate IsScalar(v: Value) {
    !v.List? && !v.Map?
  }

  // No printed value starts with white space or a comment, and only lists and maps as containers do.
  lemma FirstChar(s: string, p: nat, v: Value)
    requires Printable(v) && StandsAt(s, p, Print(v))
    ensures |Print(v)| > 0 && NoTrivia(s, p)
    ensures IsScalar(v) ==> !StartsContainer(s, p)
  {
    if v.Int? { IntIsNumeral(v.n); }
    StandsChar(s, p, Print(v), 0);
    if v.Bool? { StandsChar(s, p, Print(v), 1); }
    NotFn(s, p);
  }

  lemma NotFn(s: string, p: nat)
    requires p < |s| && (Lower(s[p]) != 'f' || (p + 1 < |s| && Lower(s[p + 1]) != 'n'))
    ensures !StartsWithFn(s, p)
  {
    if p + 2 <= |s| {
      var w := s[p..p + 2];
      assert w[0] == s[p] && w[1] == s[p + 1];
      assert SameFrom(w, "fn", 1) ==> Lower(w[1]) == Lower('n');
    }
  }

  lemma SymbolReads(s: string, p: nat, name: string)
    requires IsIdent(name) && StandsAt(s, p, "'" + name) && Follow(s, p + 1 + |name|)
    ensures At(s, p, '\'') && ParseSymbol(s, p) == Got(Sym(name), p + 1 + |name|)
  {
    StandsSplit(s, p, "'", name);
    StandsChar(s, p, "'", 0);
    IdentReads(s, p + 1, name);
  }

  // Which reader a first character calls.
  lemma NumberDispatch(s: string, p: nat, depth: nat, constants: map<string, Value>)
    requires p < |s| && (IsDigit(s[p]) || s[p] == '-')
    ensures ParseInner(s, p, depth, constants) == ParseNumber(s, p)
  {
  }

  lemma QuoteDispatch(s: string, p: nat, depth: nat, constants: map<string, Value>)
    requires At(s, p, '"')
    ensures ParseInner(s, p, depth, constants) == ParseString(s, p)
  {
  }

  lemma HashDispatch(s: string, p: nat, depth: nat, constants: map<string, Value>)
    requires At(s, p, '#')
    ensures ParseInner(s, p, depth, constants) == ParseObject(s, p)
  {
  }

  lemma TickDispatch(s: string, p: nat, depth: nat, constants: map<string, Value>)
    requires At(s, p, '\'')
    ensures ParseInner(s, p, depth, constants) == ParseSymbol(s, p)
  {
  }

  lemma WordDispatch(s: string, p: nat, depth: nat, constants: map<string, Value>)
    requires (At(s, p, 't') || At(s, p, 'f')) && !StartsContainer(s, p)
    ensures ParseInner(s, p, depth, constants) == ParseWord(s, p, constants)
  {
  }

  lemma NumberReads(s: string, p: nat, v: Value, depth: nat, constants: map<string, Value>)
    requires v.Int? && StandsAt(s, p, Print(v)) && Follow(s, p + |Print(v)|)
    ensures ParseInner(s, p, depth, constants) == if Fits(v) then Got(v, p + |Print(v)|) else Failed(BadNumber)
  {
    IntReads(s, p, v.n);
    NumberDispatch(s, p, depth, constants);
  }

  lemma TruthReads(s: string, p: nat, v: Value, depth: nat, constants: map<string, Value>)
    requires v.Bool? && Printable(v) && StandsAt(s, p, Print(v)) && Follow(s, p + |Print(v)|)
    ensures ParseInner(s, p, depth, constants) == Got(v, p + |Print(v)|)
  {
    FirstChar(s, p, v);
    StandsChar(s, p, Print(v), 0);
    BoolReads(s, p, v.b, constants);
    WordDispatch(s, p, depth, constants);
  }

  lemma TextReads(s: string, p: nat, v: Value, depth: nat, constants: map<string, Value>)
    requires v.Str? && Printable(v) && StandsAt(s, p, Print(v)) && Follow(s, p + |Print(v)|)
    ensures ParseInner(s, p, depth, constants) == Got(v, p + |Print(v)|)
  {
    EscapesEachChar(v.text);
    StringReads(s, p, v.text);
    QuoteDispatch(s, p, depth, constants);
  }

  lemma ObjectReads(s: string, p: nat, v: Value, depth: nat, constants: map<string, Value>)
    requires v.Obj? && Printable(v) && StandsAt(s, p, Print(v)) && Follow(s, p + |Print(v)|)
    ensures ParseInner(s, p, depth, constants) == Got(v, p + |Print(v)|)
  {
    ObjReads(s, p, v.id);
    HashDispatch(s, p, depth, constants);
  }

  lemma UniqueReads(s: string, p: nat, v: Value, depth: nat, constants: map<string, Value>)
    requires v.Uuid? && Printable(v) && StandsAt(s, p, Print(v)) && Follow(s, p + |Print(v)|)
    ensures ParseInner(s, p, depth, constants) == Got(v, p + |Print(v)|)
  {
    UuidReads(s, p, v.packed);
    HashDispatch(s, p, depth, constants);
  }

  lemma NameReads(s: string, p: nat, v: Value, depth: nat, constants: map<string, Value>)
    requires v.Sym? && Printable(v) && StandsAt(s, p, Print(v)) && Follow(s, p + |Print(v)|)
    ensures ParseInner(s, p, depth, constants) == Got(v, p + |Print(v)|)
  {
    SymbolReads(s, p, v.name);
    TickDispatch(s, p, depth, constants);
  }

  lemma ScalarReads(s: string, p: nat, v: Value, depth: nat, constants: map<string, Value>)
    requires IsScalar(v) && Printable(v) && StandsAt(s, p, Print(v)) && Follow(s, p + |Print(v)|)
    ensures ParseInner(s, p, depth, constants) == if Fits(v) then Got(v, p + |Print(v)|) else Failed(BadNumber)
  {
    match v
    case Int(_) => NumberReads(s, p, v, depth, constants);
    case Bool(_) => TruthReads(s, p, v, depth, constants);
    case Str(_) => TextReads(s, p, v, depth, constants);
    case Obj(_) => ObjectReads(s, p, v, depth, constants);
    case Uuid(_) => UniqueReads(s, p, v, depth, constants);
    case Sym(_) => NameReads(s, p, v, depth, constants);
  }

}
