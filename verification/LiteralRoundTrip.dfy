/**
 Reading the literal of a value gives the value back exactly when its lists and maps nest no deeper than the limit
 and its integers are shown as they are; the lookahead for a lambda never takes a printed list for one.
 */
module LiteralRoundTrip {

  import opened Prelude
  import opened MooText
  import opened TextScanner
  import opened StatementTerminator
  import opened Literal
  import opened LiteralGrammar
  import opened LiteralScalars
  import JsShown

  // ---------------------------------------------------------------- the brace lookahead

  // The lookahead passes over the text standing at p without changing depth.
  ghost predicate Passes(s: string, p: nat, q: nat, depth: nat) {
    p <= q <= |s| && ClosingBrace(s, p, depth, false, false) == ClosingBrace(s, q, depth, false, false)
  }

  predicate NoBrace(c: char) { c != '"' && c != '{' && c != '}' }

  lemma {:induction false} PlainPasses(s: string, p: nat, text: string, depth: nat)
    requires StandsAt(s, p, text) && forall i :: 0 <= i < |text| ==> NoBrace(text[i])
    ensures Passes(s, p, p + |text|, depth)
    decreases |text|
  {
    if text != "" {
      StandsChar(s, p, text, 0);
      assert text == text[..1] + text[1..];
      StandsSplit(s, p, text[..1], text[1..]);
      PlainPasses(s, p + 1, text[1..], depth);
    }
  }

  lemma {:induction false} StringPasses(s: string, p: nat, depth: nat, escaped: bool)
    requires p <= |s| && StringScan(s, p, escaped).1
    ensures ClosingBrace(s, p, depth, true, escaped) == ClosingBrace(s, StringScan(s, p, escaped).0, depth, false, false)
    decreases |s| - p
  {
    if escaped || s[p] != '"' { StringPasses(s, p + 1, depth, !escaped && s[p] == '\\'); }
  }

  // A printed scalar that is no string holds no quote and no brace.
  lemma ScalarIsPlain(v: Value)
    requires IsScalar(v) && Printable(v) && !v.Str?
    ensures forall i :: 0 <= i < |Print(v)| ==> NoBrace(Print(v)[i])
  {
    match v
    case Int(n) => IntIsNumeral(n);
    case Bool(_) =>
    case Obj(id) => IntIsNumeral(id);
    case Uuid(packed) => UuidChars(packed);
    case Sym(name) =>
  }

  lemma ScalarPasses(s: string, p: nat, v: Value, depth: nat)
    requires IsScalar(v) && Printable(v) && StandsAt(s, p, Print(v))
    ensures Passes(s, p, p + |Print(v)|, depth)
  {
    if v.Str? {
      EscapesEachChar(v.text);
      hide ClosingBrace, EscapeMooString, Escaped;
      QuotedPasses(s, p, v.text, depth);
    } else {
      ScalarIsPlain(v);
      hide ClosingBrace, Print;
      PlainPasses(s, p, Print(v), depth);
    }
  }

  lemma QuotedPasses(s: string, p: nat, text: string, depth: nat)
    requires StandsAt(s, p, "\"" + Escaped(text) + "\"")
    ensures Passes(s, p, p + |Escaped(text)| + 2, depth)
  {
    QuotedText(s, p, text);
    EscapedStaysInside(s, p + 1, text);
    StringPasses(s, p + 1, depth, false);
  }

  lemma QuotedText(s: string, p: nat, text: string)
    requires StandsAt(s, p, "\"" + Escaped(text) + "\"")
    ensures At(s, p, '"') && StandsAt(s, p + 1, Escaped(text)) && At(s, p + 1 + |Escaped(text)|, '"')
  {
    var esc := Escaped(text);
    StandsSplit(s, p, "\"" + esc, "\"");
    StandsSplit(s, p, "\"", esc);
    StandsChar(s, p, "\"", 0);
    StandsChar(s, p + 1 + |esc|, "\"", 0);
  }

  // The parts of a printed list or map.
  lemma Bracketed(s: string, p: nat, open: string, inner: string, close: string)
    requires |open| == |close| == 1 && StandsAt(s, p, open + inner + close)
    ensures StandsAt(s, p + 1, inner) && At(s, p, open[0]) && At(s, p + 1 + |inner|, close[0])
  {
    StandsSplit(s, p, open + inner, close);
    StandsSplit(s, p, open, inner);
    StandsChar(s, p, open, 0);
    StandsChar(s, p + 1 + |inner|, close, 0);
  }

  // The parts of a joined list: the first, and the rest two characters on.
  lemma FirstOfMany(s: string, p: nat, first: string, rest: string)
    requires StandsAt(s, p, first + ", " + rest)
    ensures StandsAt(s, p, first) && StandsAt(s, p + |first|, ", ") && StandsAt(s, p + |first| + 2, rest)
    ensures At(s, p + |first|, ',') && At(s, p + |first| + 1, ' ')
  {
    StandsSplit(s, p, first + ", ", rest);
    StandsSplit(s, p, first, ", ");
    StandsChar(s, p + |first|, ", ", 0);
    StandsChar(s, p + |first|, ", ", 1);
  }

  lemma ArrowBetween(s: string, p: nat, key: string, value: string)
    requires StandsAt(s, p, key + " -> " + value)
    ensures StandsAt(s, p, key) && StandsAt(s, p + |key|, " -> ") && StandsAt(s, p + |key| + 4, value)
    ensures At(s, p + |key|, ' ') && At(s, p + |key| + 1, '-') && At(s, p + |key| + 2, '>') && At(s, p + |key| + 3, ' ')
  {
    StandsSplit(s, p, key + " -> ", value);
    StandsSplit(s, p, key, " -> ");
    var q := p + |key|;
    StandsChar(s, q, " -> ", 0);
    StandsChar(s, q, " -> ", 1);
    StandsChar(s, q, " -> ", 2);
    StandsChar(s, q, " -> ", 3);
  }

  lemma {:induction false} ValuePasses(s: string, p: nat, v: Value, depth: nat)
    requires Printable(v) && StandsAt(s, p, Print(v)) && depth > 0
    ensures Passes(s, p, p + |Print(v)|, depth)
    decreases v
  {
    hide ClosingBrace;
    hide StandsAt;
    hide PrintItems;
    hide PrintEntries;
    match v
    case List(items) =>
      Bracketed(s, p, "{", PrintItems(items), "}");
      ItemsPass(s, p + 1, items, depth + 1);
      BracesPass(s, p, p + 1 + |PrintItems(items)|, depth);
    case Map(entries) =>
      Bracketed(s, p, "[", PrintEntries(entries), "]");
      EntriesPass(s, p + 1, entries, depth);
      BracketsPass(s, p, p + 1 + |PrintEntries(entries)|, depth);
    case _ => ScalarPasses(s, p, v, depth);
  }

  lemma BracesPass(s: string, p: nat, q: nat, depth: nat)
    requires At(s, p, '{') && At(s, q, '}') && Passes(s, p + 1, q, depth + 1) && depth > 0
    ensures Passes(s, p, q + 1, depth)
  {
  }

  lemma BracketsPass(s: string, p: nat, q: nat, depth: nat)
    requires At(s, p, '[') && At(s, q, ']') && Passes(s, p + 1, q, depth)
    ensures Passes(s, p, q + 1, depth)
  {
  }

  lemma {:induction false} ItemsPass(s: string, p: nat, items: seq<Value>, depth: nat)
    requires (forall i :: 0 <= i < |items| ==> Printable(items[i])) && StandsAt(s, p, PrintItems(items)) && depth > 0
    ensures Passes(s, p, p + |PrintItems(items)|, depth)
    decreases items
  {
    hide Print;
    hide ClosingBrace;
    if |items| == 1 {
      ValuePasses(s, p, items[0], depth);
    } else if |items| > 1 {
      var first := Print(items[0]);
      FirstOfMany(s, p, first, PrintItems(items[1..]));
      ValuePasses(s, p, items[0], depth);
      PlainPasses(s, p + |first|, ", ", depth);
      ItemsPass(s, p + |first| + 2, items[1..], depth);
    }
  }

  lemma {:induction false} EntryPasses(s: string, p: nat, e: Entry, depth: nat)
    requires Printable(e.key) && Printable(e.value) && StandsAt(s, p, PrintEntry(e)) && depth > 0
    ensures Passes(s, p, p + |PrintEntry(e)|, depth)
    decreases e
  {
    hide Print;
    hide ClosingBrace;
    hide StandsAt;
    var key := Print(e.key);
    ArrowBetween(s, p, key, Print(e.value));
    ValuePasses(s, p, e.key, depth);
    PlainPasses(s, p + |key|, " -> ", depth);
    ValuePasses(s, p + |key| + 4, e.value, depth);
  }

  lemma {:induction false} EntriesPass(s: string, p: nat, entries: seq<Entry>, depth: nat)
    requires (forall i :: 0 <= i < |entries| ==> Printable(entries[i].key) && Printable(entries[i].value))
    requires StandsAt(s, p, PrintEntries(entries)) && depth > 0
    ensures Passes(s, p, p + |PrintEntries(entries)|, depth)
    decreases entries
  {
    hide Print;
    hide PrintEntry;
    hide ClosingBrace;
    if |entries| == 1 {
      EntryPasses(s, p, entries[0], depth);
    } else if |entries| > 1 {
      var first := PrintEntry(entries[0]);
      FirstOfMany(s, p, first, PrintEntries(entries[1..]));
      EntryPasses(s, p, entries[0], depth);
      PlainPasses(s, p + |first|, ", ", depth);
      EntriesPass(s, p + |first| + 2, entries[1..], depth);
    }
  }

  // What follows a printed value is no arrow of a lambda.
  lemma NoArrow(s: string, q: nat)
    requires Follow(s, q)
    ensures !StartsWith(s, SkipTrivia(s, q), '=', '>')
  {
    if At(s, q, ' ') { SpaceSkips(s, q); } else { TriviaStays(s, q); }
  }

  lemma ClosesAfter(s: string, p: nat, q: nat)
    requires At(s, p, '{') && At(s, q, '}') && Passes(s, p + 1, q, 1)
    ensures ClosingBrace(s, p, 0, false, false) == Some(q + 1)
  {
  }

  // A printed list is never taken for the parameters of a lambda.
  lemma ListIsNoLambda(s: string, p: nat, items: seq<Value>)
    requires Printable(List(items)) && StandsAt(s, p, Print(List(items))) && Follow(s, p + |Print(List(items))|)
    ensures !BraceStartsLambda(s, p)
  {
    hide ClosingBrace;
    hide StandsAt;
    hide SkipTrivia;
    hide PrintItems;
    var q := p + 1 + |PrintItems(items)|;
    Bracketed(s, p, "{", PrintItems(items), "}");
    ItemsPass(s, p + 1, items, 1);
    ClosesAfter(s, p, q);
    NoArrow(s, q + 1);
  }

  // ---------------------------------------------------------------- the round trip

  // The result of reading a value at depth d that ends at q.
  function Expected<T>(v: T, q: nat, d: nat): Parsed<T> {
    if d <= MAX_LITERAL_NESTING then Got(v, q) else Failed(LiteralNestingTooDeep)
  }

  // A value with an integer that does not fit is refused, at that integer or because it nests too deep.
  ghost predicate Answers<T>(r: Parsed<T>, v: T, q: nat, d: nat, fits: bool) {
    if fits then r == Expected(v, q, d) else r.Failed?
  }

  lemma AnswersMore<T>(r: Parsed<seq<T>>, v: T, rest: seq<T>, q: nat, depth: nat, a: nat, b: nat, fits: bool)
    requires depth + a <= MAX_LITERAL_NESTING && Answers(r, rest, q, depth + b, fits)
    ensures Answers(if r.Got? then Got([v] + r.value, r.end) else r, [v] + rest, q, depth + Max(a, b), fits)
  {
  }

  lemma {:induction false} ValueReads(s: string, p: nat, v: Value, depth: nat, constants: map<string, Value>)
    requires Printable(v) && StandsAt(s, p, Print(v)) && Follow(s, p + |Print(v)|) && depth <= MAX_LITERAL_NESTING
    ensures Answers(ParseLiteral(s, p, depth, constants), v, p + |Print(v)|, depth + Levels(v), Fits(v))
    decreases v, 1
  {
    hide Print;
    hide ParseLiteral;
    hide ParseInner;
    hide SkipTrivia;
    FirstChar(s, p, v);
    TriviaStays(s, p);
    EnterLiteral(s, p, depth, constants);
    if IsScalar(v) {
      ScalarReads(s, p, v, depth, constants);
    } else if v.List? {
      ListStarts(s, p, v.items);
      if depth < MAX_LITERAL_NESTING { ListReads(s, p, v.items, depth + 1, constants); }
    } else {
      MapStarts(s, p, v.entries);
      if depth < MAX_LITERAL_NESTING { MapReads(s, p, v.entries, depth + 1, constants); }
    }
  }

  lemma EnterLiteral(s: string, p: nat, depth: nat, constants: map<string, Value>)
    requires p <= |s| && SkipTrivia(s, p) == p
    ensures !StartsContainer(s, p) ==> ParseLiteral(s, p, depth, constants) == ParseInner(s, p, depth, constants)
    ensures StartsContainer(s, p) ==>
      ParseLiteral(s, p, depth, constants)
      == (if depth < MAX_LITERAL_NESTING then ParseInner(s, p, depth + 1, constants) else Failed(LiteralNestingTooDeep))
  {
  }

  lemma ListStarts(s: string, p: nat, items: seq<Value>)
    requires StandsAt(s, p, Print(List(items)))
    ensures At(s, p, '{') && StartsContainer(s, p)
    ensures StandsAt(s, p + 1, PrintItems(items)) && At(s, p + 1 + |PrintItems(items)|, '}')
    ensures |Print(List(items))| == |PrintItems(items)| + 2
  {
    Bracketed(s, p, "{", PrintItems(items), "}");
  }

  lemma MapStarts(s: string, p: nat, entries: seq<Entry>)
    requires StandsAt(s, p, Print(Map(entries)))
    ensures At(s, p, '[') && StartsContainer(s, p)
    ensures StandsAt(s, p + 1, PrintEntries(entries)) && At(s, p + 1 + |PrintEntries(entries)|, ']')
    ensures |Print(Map(entries))| == |PrintEntries(entries)| + 2
  {
    Bracketed(s, p, "[", PrintEntries(entries), "]");
  }

  lemma ListDispatch(s: string, p: nat, depth: nat, constants: map<string, Value>)
    requires At(s, p, '{') && !BraceStartsLambda(s, p)
    ensures ParseInner(s, p, depth, constants) == ParseList(s, p, depth, constants)
  {
  }

  lemma MapDispatch(s: string, p: nat, depth: nat, constants: map<string, Value>)
    requires At(s, p, '[')
    ensures ParseInner(s, p, depth, constants) == ParseMap(s, p, depth, constants)
  {
  }

  lemma {:induction false} ListReads(s: string, p: nat, items: seq<Value>, depth: nat, constants: map<string, Value>)
    requires Printable(List(items)) && StandsAt(s, p, Print(List(items))) && Follow(s, p + |Print(List(items))|)
    requires depth <= MAX_LITERAL_NESTING
    ensures Answers(ParseInner(s, p, depth, constants), List(items), p + |Print(List(items))|,
                    depth + ItemLevels(items), ItemsFit(items))
    decreases items, 2
  {
    hide ParseItems;
    hide Print;
    hide BraceStartsLambda;
    hide ParseLiteral;
    hide ParseInner;
    hide SkipTrivia;
    hide StandsAt;
    ListStarts(s, p, items);
    ListIsNoLambda(s, p, items);
    ListDispatch(s, p, depth, constants);
    if items == [] {
      TriviaStays(s, p + 1);
    } else {
      ItemsHead(s, p + 1, items);
      TriviaStays(s, p + 1);
      ItemsRead(s, p + 1, items, depth, constants);
    }
  }

  lemma NotClosing(s: string, p: nat, v: Value)
    requires Printable(v) && StandsAt(s, p, Print(v)) && |Print(v)| > 0
    ensures p < |s| && s[p] != '}' && s[p] != ']'
  {
    if v.Int? { IntIsNumeral(v.n); }
    StandsChar(s, p, Print(v), 0);
  }

  // The first of the printed items, and what comes before the others.
  lemma ItemsHead(s: string, p: nat, items: seq<Value>)
    requires items != [] && Printable(items[0]) && StandsAt(s, p, PrintItems(items))
    ensures StandsAt(s, p, Print(items[0])) && NoTrivia(s, p) && p < |s| && s[p] != '}'
    ensures |items| == 1 ==> |PrintItems(items)| == |Print(items[0])|
    ensures |items| > 1 ==>
      var q := p + |Print(items[0])|;
      && At(s, q, ',') && At(s, q + 1, ' ') && StandsAt(s, q + 2, PrintItems(items[1..]))
      && |PrintItems(items)| == |Print(items[0])| + 2 + |PrintItems(items[1..])|
  {
    hide Print;
    hide StandsAt;
    if |items| > 1 { FirstOfMany(s, p, Print(items[0]), PrintItems(items[1..])); }
    FirstChar(s, p, items[0]);
    NotClosing(s, p, items[0]);
  }

  // Past a comma and a space, the next part starts.
  lemma CommaSkips(s: string, q: nat)
    requires At(s, q, ',') && At(s, q + 1, ' ') && NoTrivia(s, q + 2)
    ensures SkipTrivia(s, q) == q && SkipTrivia(s, q + 1) == q + 2
  {
    TriviaStays(s, q);
    SpaceSkips(s, q + 1);
  }

  // One step of reading a list's items.
  lemma ItemsFail(s: string, p: nat, depth: nat, constants: map<string, Value>, e: Error)
    requires p <= |s| && ParseLiteral(s, p, depth, constants) == Failed(e)
    ensures ParseItems(s, p, depth, constants) == Failed(e)
  {
    hide ParseLiteral;
    hide ParseInner;
    hide SkipTrivia;
  }

  lemma ItemsEnd(s: string, p: nat, depth: nat, constants: map<string, Value>, v: Value, q: nat)
    requires p <= |s| && ParseLiteral(s, p, depth, constants) == Got(v, q) && At(s, q, '}')
    ensures ParseItems(s, p, depth, constants) == Got([v], q + 1)
  {
    hide ParseLiteral;
    hide ParseInner;
    hide SkipTrivia;
    TriviaStays(s, q);
  }

  lemma ItemsNext(s: string, p: nat, depth: nat, constants: map<string, Value>, v: Value, q: nat)
    requires p <= |s| && ParseLiteral(s, p, depth, constants) == Got(v, q)
    requires At(s, q, ',') && SkipTrivia(s, q) == q && q + 2 <= |s| && SkipTrivia(s, q + 1) == q + 2
    ensures var rest := ParseItems(s, q + 2, depth, constants);
      ParseItems(s, p, depth, constants) == if rest.Got? then Got([v] + rest.value, rest.end) else rest
  {
    hide ParseLiteral;
    hide ParseInner;
    hide SkipTrivia;
  }

  lemma {:induction false} ItemsRead(s: string, p: nat, items: seq<Value>, depth: nat, constants: map<string, Value>)
    requires items != [] && forall i :: 0 <= i < |items| ==> Printable(items[i])
    requires StandsAt(s, p, PrintItems(items)) && At(s, p + |PrintItems(items)|, '}') && depth <= MAX_LITERAL_NESTING
    ensures Answers(ParseItems(s, p, depth, constants), items, p + |PrintItems(items)| + 1,
                    depth + ItemLevels(items), ItemsFit(items))
    decreases items, 0
  {
    hide ParseItems;
    hide PrintItems;
    hide ParseEntries;
    hide ParseEntry;
    hide Print;
    hide PrintEntry;
    hide Levels;
    hide ParseLiteral;
    hide ParseInner;
    hide SkipTrivia;
    hide StandsAt;
    var v, rest := items[0], items[1..];
    assert items == [v] + rest;
    assert ItemLevels(items) == Max(Levels(v), ItemLevels(rest)) && ItemsFit(items) == (Fits(v) && ItemsFit(rest));
    var q := p + |Print(v)|;
    ItemsHead(s, p, items);
    ValueReads(s, p, v, depth, constants);
    var first := ParseLiteral(s, p, depth, constants);
    if first.Failed? {
      ItemsFail(s, p, depth, constants, first.error);
    } else if rest == [] {
      assert items == [v];
      ItemsEnd(s, p, depth, constants, v, q);
    } else {
      ItemsHead(s, q + 2, rest);
      CommaSkips(s, q);
      ItemsNext(s, p, depth, constants, v, q);
      ItemsRead(s, q + 2, rest, depth, constants);
      AnswersMore(ParseItems(s, q + 2, depth, constants), v, rest, p + |PrintItems(items)| + 1, depth,
                  Levels(v), ItemLevels(rest), ItemsFit(rest));
    }
  }

  lemma {:induction false} MapReads(s: string, p: nat, entries: seq<Entry>, depth: nat, constants: map<string, Value>)
    requires Printable(Map(entries)) && StandsAt(s, p, Print(Map(entries))) && depth <= MAX_LITERAL_NESTING
    ensures Answers(ParseInner(s, p, depth, constants), Map(entries), p + |Print(Map(entries))|,
                    depth + EntryLevels(entries), EntriesFit(entries))
    decreases entries, 2
  {
    hide ParseEntries;
    hide Print;
    hide ParseLiteral;
    hide ParseInner;
    hide SkipTrivia;
    hide StandsAt;
    MapStarts(s, p, entries);
    MapDispatch(s, p, depth, constants);
    if entries == [] {
      TriviaStays(s, p + 1);
    } else {
      EntriesLayout(s, p + 1, entries);
      KeyHead(s, p + 1, entries[0]);
      TriviaStays(s, p + 1);
      EntriesRead(s, p + 1, entries, depth, constants);
    }
  }

  lemma EntriesLayout(s: string, p: nat, entries: seq<Entry>)
    requires entries != [] && StandsAt(s, p, PrintEntries(entries))
    ensures StandsAt(s, p, PrintEntry(entries[0]))
    ensures |entries| == 1 ==> |PrintEntries(entries)| == |PrintEntry(entries[0])|
    ensures |entries| > 1 ==>
      var q := p + |PrintEntry(entries[0])|;
      && At(s, q, ',') && At(s, q + 1, ' ') && StandsAt(s, q + 2, PrintEntries(entries[1..]))
      && |PrintEntries(entries)| == |PrintEntry(entries[0])| + 2 + |PrintEntries(entries[1..])|
  {
    hide PrintEntry;
    hide StandsAt;
    if |entries| > 1 { FirstOfMany(s, p, PrintEntry(entries[0]), PrintEntries(entries[1..])); }
  }

  lemma KeyHead(s: string, p: nat, e: Entry)
    requires Printable(e.key) && StandsAt(s, p, PrintEntry(e))
    ensures NoTrivia(s, p) && p < |s| && s[p] != ']'
  {
    hide Print;
    ArrowBetween(s, p, Print(e.key), Print(e.value));
    FirstChar(s, p, e.key);
    NotClosing(s, p, e.key);
  }

  // One entry: the key, the arrow and the value.
  lemma EntryFails(s: string, p: nat, depth: nat, constants: map<string, Value>, e: Error)
    requires p <= |s| && ParseLiteral(s, p, depth, constants) == Failed(e)
    ensures ParseEntry(s, p, depth, constants) == Failed(e)
  {
    hide ParseLiteral;
    hide ParseInner;
    hide SkipTrivia;
  }

  lemma EntryFollows(s: string, p: nat, depth: nat, constants: map<string, Value>, key: Value, q: nat)
    requires p <= |s| && ParseLiteral(s, p, depth, constants) == Got(key, q) && q + 4 <= |s|
    requires SkipTrivia(s, q) == q + 1 && StartsWith(s, q + 1, '-', '>') && SkipTrivia(s, q + 3) == q + 4
    ensures var value := ParseLiteral(s, q + 4, depth, constants);
      ParseEntry(s, p, depth, constants)
      == if value.Got? then Got(Entry(key, value.value), value.end) else Failed(value.error)
  {
    hide ParseLiteral;
    hide ParseInner;
    hide SkipTrivia;
  }

  lemma EntrySkips(s: string, q: nat, value: Value)
    requires At(s, q, ' ') && At(s, q + 1, '-') && At(s, q + 3, ' ')
    requires Printable(value) && StandsAt(s, q + 4, Print(value))
    ensures SkipTrivia(s, q) == q + 1 && SkipTrivia(s, q + 3) == q + 4
  {
    SpaceSkips(s, q);
    FirstChar(s, q + 4, value);
    SpaceSkips(s, q + 3);
  }

  lemma {:induction false} EntryReads(s: string, p: nat, e: Entry, depth: nat, constants: map<string, Value>)
    requires Printable(e.key) && Printable(e.value) && StandsAt(s, p, PrintEntry(e)) && Follow(s, p + |PrintEntry(e)|)
    requires depth <= MAX_LITERAL_NESTING
    ensures Answers(ParseEntry(s, p, depth, constants), e, p + |PrintEntry(e)|, depth + EntryLevel(e), EntryFits(e))
    decreases e, 0
  {
    hide ParseEntry;
    hide Print;
    hide Levels;
    hide ParseLiteral;
    hide ParseInner;
    hide SkipTrivia;
    var q := p + |Print(e.key)|;
    ArrowBetween(s, p, Print(e.key), Print(e.value));
    EntrySkips(s, q, e.value);
    ValueReads(s, p, e.key, depth, constants);
    var key := ParseLiteral(s, p, depth, constants);
    if key.Failed? {
      EntryFails(s, p, depth, constants, key.error);
    } else {
      EntryFollows(s, p, depth, constants, e.key, q);
      ValueReads(s, q + 4, e.value, depth, constants);
    }
  }

  // One step of reading a map's entries.
  lemma EntriesFail(s: string, p: nat, depth: nat, constants: map<string, Value>, e: Error)
    requires p <= |s| && ParseEntry(s, p, depth, constants) == Failed(e)
    ensures ParseEntries(s, p, depth, constants) == Failed(e)
  {
    hide ParseLiteral;
    hide ParseInner;
    hide SkipTrivia;
  }

  lemma EntriesEnd(s: string, p: nat, depth: nat, constants: map<string, Value>, e: Entry, q: nat)
    requires p <= |s| && ParseEntry(s, p, depth, constants) == Got(e, q) && At(s, q, ']')
    ensures ParseEntries(s, p, depth, constants) == Got([e], q + 1)
  {
    hide ParseLiteral;
    hide ParseInner;
    hide SkipTrivia;
    TriviaStays(s, q);
  }

  lemma EntriesNext(s: string, p: nat, depth: nat, constants: map<string, Value>, e: Entry, q: nat)
    requires p <= |s| && ParseEntry(s, p, depth, constants) == Got(e, q)
    requires At(s, q, ',') && SkipTrivia(s, q) == q && q + 2 <= |s| && SkipTrivia(s, q + 1) == q + 2
    ensures var rest := ParseEntries(s, q + 2, depth, constants);
      ParseEntries(s, p, depth, constants) == if rest.Got? then Got([e] + rest.value, rest.end) else rest
  {
    hide ParseLiteral;
    hide ParseInner;
    hide SkipTrivia;
  }

  lemma {:induction false} EntriesRead(s: string, p: nat, entries: seq<Entry>, depth: nat, constants: map<string, Value>)
    requires entries != []
    requires forall i :: 0 <= i < |entries| ==> Printable(entries[i].key) && Printable(entries[i].value)
    requires StandsAt(s, p, PrintEntries(entries)) && At(s, p + |PrintEntries(entries)|, ']')
    requires depth <= MAX_LITERAL_NESTING
    ensures Answers(ParseEntries(s, p, depth, constants), entries, p + |PrintEntries(entries)| + 1,
                    depth + EntryLevels(entries), EntriesFit(entries))
    decreases entries, 0
  {
    hide ParseItems;
    hide ParseEntries;
    hide PrintEntries;
    hide ParseEntry;
    hide Print;
    hide PrintEntry;
    hide Levels;
    hide ParseLiteral;
    hide ParseInner;
    hide SkipTrivia;
    hide EntryLevel;
    hide StandsAt;
    var e, rest := entries[0], entries[1..];
    assert entries == [e] + rest;
    assert EntryLevels(entries) == Max(EntryLevel(e), EntryLevels(rest));
    assert EntriesFit(entries) == (EntryFits(e) && EntriesFit(rest));
    var q := p + |PrintEntry(e)|;
    EntriesLayout(s, p, entries);
    EntryReads(s, p, e, depth, constants);
    var first := ParseEntry(s, p, depth, constants);
    if first.Failed? {
      EntriesFail(s, p, depth, constants, first.error);
    } else if rest == [] {
      assert entries == [e];
      EntriesEnd(s, p, depth, constants, e, q);
    } else {
      EntriesLayout(s, q + 2, rest);
      KeyHead(s, q + 2, rest[0]);
      CommaSkips(s, q);
      EntriesNext(s, p, depth, constants, e, q);
      EntriesRead(s, q + 2, rest, depth, constants);
      AnswersMore(ParseEntries(s, q + 2, depth, constants), e, rest, p + |PrintEntries(entries)| + 1, depth,
                  EntryLevel(e), EntryLevels(rest), EntriesFit(rest));
    }
  }

  // Reading a value whose numbers are written out: an integer that does not fit and nesting beyond the limit are
  // refused, and everything else is read back.
  lemma PrintedReads(v: Value, constants: map<string, Value>)
    requires Printable(v)
    ensures var r := ParseLiteralValue(Print(v), constants);
      if Fits(v) then r == if Levels(v) <= MAX_LITERAL_NESTING then Ok(v) else Err(LiteralNestingTooDeep) else r.Err?
  {
    hide ParseLiteral;
    hide Print;
    hide SkipTrivia;
    hide Levels;
    var s := Print(v);
    assert s[0..0 + |s|] == s;
    FirstChar(s, 0, v);
    TriviaStays(s, 0);
    ValueReads(s, 0, v, 0, constants);
    TriviaStays(s, |s|);
  }

  // ---------------------------------------------------------------- integers as they are shown

  // Every integer in the value is, as a decimal, preferred to every other integer that is the same number.
  ghost predicate Exact(v: Value)
    decreases v
  {
    match v
    case Int(n) => JsShown.AsIs(n)
    case List(items) => forall i :: 0 <= i < |items| ==> Exact(items[i])
    case Map(entries) => forall i :: 0 <= i < |entries| ==> Exact(entries[i].key) && Exact(entries[i].value)
    case _ => true
  }

  lemma {:induction false} ItemFits(items: seq<Value>, i: nat)
    requires ItemsFit(items) && i < |items|
    ensures Fits(items[i])
  {
    if i > 0 { ItemFits(items[1..], i - 1); }
  }

  lemma {:induction false} EntryAtFits(entries: seq<Entry>, i: nat)
    requires EntriesFit(entries) && i < |entries|
    ensures EntryFits(entries[i])
  {
    if i > 0 { EntryAtFits(entries[1..], i - 1); }
  }

  // Exactly then it is shown as it is.
  lemma {:induction false} ExactIsShown(v: Value)
    requires Fits(v)
    ensures Exact(v) <==> Shown(v) == v
    decreases v
  {
    match v
    case Int(n) => JsShown.ShownExactly(n);
    case List(items) => ExactItems(items);
    case Map(entries) => ExactEntries(entries);
    case _ =>
  }

  lemma {:induction false} ExactItems(items: seq<Value>)
    requires ItemsFit(items)
    ensures Exact(List(items)) <==> ShownItems(items) == items
    decreases items
  {
    forall i | 0 <= i < |items| ensures Exact(items[i]) <==> Shown(items[i]) == items[i] {
      ItemFits(items, i);
      ExactIsShown(items[i]);
    }
    var shown := ShownItems(items);
    if Exact(List(items)) {
      assert forall i :: 0 <= i < |items| ==> shown[i] == items[i];
      assert shown == items;
    } else {
      var i :| 0 <= i < |items| && !Exact(items[i]);
      assert shown[i] != items[i];
    }
  }

  lemma {:induction false} ExactEntries(entries: seq<Entry>)
    requires EntriesFit(entries)
    ensures Exact(Map(entries)) <==> ShownEntries(entries) == entries
    decreases entries
  {
    forall i | 0 <= i < |entries|
      ensures Exact(entries[i].key) && Exact(entries[i].value) <==> ShownEntry(entries[i]) == entries[i]
    {
      EntryAtFits(entries, i);
      ExactIsShown(entries[i].key);
      ExactIsShown(entries[i].value);
    }
    var shown := ShownEntries(entries);
    if Exact(Map(entries)) {
      assert forall i :: 0 <= i < |entries| ==> shown[i] == entries[i];
      assert shown == entries;
    } else {
      var i :| 0 <= i < |entries| && !(Exact(entries[i].key) && Exact(entries[i].value));
      assert shown[i] != entries[i];
    }
  }

  lemma {:induction false} ShownKeeps(v: Value)
    ensures Levels(Shown(v)) == Levels(v)
    ensures Printable(v) ==> Printable(Shown(v))
    decreases v
  {
    match v
    case List(items) =>
      ShownItemsKeep(items);
      forall i | 0 <= i < |items| ensures Printable(items[i]) ==> Printable(Shown(items[i])) { ShownKeeps(items[i]); }
    case Map(entries) =>
      ShownEntriesKeep(entries);
      forall i | 0 <= i < |entries|
        ensures Printable(entries[i].key) ==> Printable(Shown(entries[i].key))
        ensures Printable(entries[i].value) ==> Printable(Shown(entries[i].value))
      {
        ShownKeeps(entries[i].key);
        ShownKeeps(entries[i].value);
      }
    case _ =>
  }

  lemma {:induction false} ShownItemsKeep(items: seq<Value>)
    ensures ItemLevels(ShownItems(items)) == ItemLevels(items)
    decreases items
  {
    if items != [] {
      ShownKeeps(items[0]);
      ShownItemsKeep(items[1..]);
    }
  }

  lemma {:induction false} ShownEntriesKeep(entries: seq<Entry>)
    ensures EntryLevels(ShownEntries(entries)) == EntryLevels(entries)
    decreases entries
  {
    if entries != [] {
      ShownEntryKeeps(entries[0]);
      ShownEntriesKeep(entries[1..]);
    }
  }

  lemma {:induction false} ShownEntryKeeps(e: Entry)
    ensures EntryLevel(ShownEntry(e)) == EntryLevel(e)
    decreases e
  {
    ShownKeeps(e.key);
    ShownKeeps(e.value);
  }

  // Reading the client's literal gives the value back exactly when it nests within the limit and each of its
  // integers is preferred to the others that are the same number.
  lemma LiteralReadsBackExactly(v: Value, constants: map<string, Value>)
    requires Printable(v) && Fits(v)
    ensures ParseLiteralValue(Print(Shown(v)), constants) == Ok(v)
      <==> Levels(v) <= MAX_LITERAL_NESTING && Exact(v)
    ensures Levels(v) > MAX_LITERAL_NESTING ==> ParseLiteralValue(Print(Shown(v)), constants).Err?
  {
    hide Print;
    hide ParseLiteralValue;
    hide Levels;
    ShownKeeps(v);
    ExactIsShown(v);
    PrintedReads(Shown(v), constants);
  }

  // Integers of at most 53 bits are.
  predicate Safe(v: Value)
    decreases v
  {
    match v
    case Int(n) => -9007199254740992 < n < 9007199254740992
    case List(items) => forall i :: 0 <= i < |items| ==> Safe(items[i])
    case Map(entries) => forall i :: 0 <= i < |entries| ==> Safe(entries[i].key) && Safe(entries[i].value)
    case _ => true
  }

  lemma {:induction false} SafeIsExact(v: Value)
    requires Safe(v)
    ensures Exact(v)
    decreases v
  {
    match v
    case Int(n) =>
      JsNumbers.SafeShown(n);
      JsShown.ShownExactly(n);
    case List(items) => forall i | 0 <= i < |items| ensures Exact(items[i]) { SafeIsExact(items[i]); }
    case Map(entries) =>
      forall i | 0 <= i < |entries| ensures Exact(entries[i].key) && Exact(entries[i].value) {
        SafeIsExact(entries[i].key);
        SafeIsExact(entries[i].value);
      }
    case _ =>
  }

  // The first integer beyond is read back as its neighbour, and the largest is not read at all.
  lemma IntegersMisread(constants: map<string, Value>)
    ensures ParseLiteralValue(Print(Shown(Int(9007199254740993))), constants) == Ok(Int(9007199254740992))
    ensures ParseLiteralValue(Print(Shown(Int(INT_MAX))), constants).Err?
  {
    hide Print;
    hide ParseLiteralValue;
    JsNumbers.FirstShownWrong();
    JsNumbers.LargestShown();
    PrintedReads(Int(9007199254740992), constants);
    PrintedReads(Int(9223372036854776000), constants);
  }

}
