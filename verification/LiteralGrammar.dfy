/**
 What the object-definition parser reads as a literal: the value and the position after it, or an error.
 Floats, binary literals, error values, flyweights, lambdas and included files are left at `Unsupported`.
 */
module LiteralGrammar {

  import opened Prelude
  import opened MooText
  import opened Numerals
  import opened ObjectIds
  import opened Literal

  const MAX_LITERAL_NESTING: nat := 64

  datatype Error =
    | Expected(what: string)
    | UnterminatedString
    | BadString
    | BadNumber
    | InvalidObjectId(text: string)
    | ConstantNotFound(name: string)
    | LiteralNestingTooDeep
    | TrailingInput
    | Unsupported

  // What was read and the position after it.
  datatype Parsed<+T> = Got(value: T, end: nat) | Failed(error: Error)

  // ---------------------------------------------------------------- trivia

  predicate IsWhitespace(c: char) {
    || '\t' <= c <= '\r' || c == ' ' || c == '\U{0085}' || c == '\U{00A0}' || c == '\U{1680}'
    || '\U{2000}' <= c <= '\U{200A}' || c == '\U{2028}' || c == '\U{2029}' || c == '\U{202F}'
    || c == '\U{205F}' || c == '\U{3000}'
  }

  predicate NotLineFeed(c: char) { c != '\n' }

  predicate StartsWith(s: string, p: nat, c: char, d: char) {
    At(s, p, c) && At(s, p + 1, d)
  }

  // Past the end of a block comment, or to the end of the text.
  function PastComment(s: string, p: nat): (e: nat)
    requires p <= |s|
    ensures p <= e <= |s|
    decreases |s| - p
  {
    if p == |s| then p else if StartsWith(s, p, '*', '/') then p + 2 else PastComment(s, p + 1)
  }

  function PastLine(s: string, p: nat): (e: nat)
    requires p <= |s|
    ensures p <= e <= |s|
  {
    var e := SkipWhile(s, p, NotLineFeed);
    if e < |s| then e + 1 else e
  }

  // White space, then one comment if there is one.
  function TriviaOnce(s: string, p: nat): (e: nat)
    requires p <= |s|
    ensures p <= e <= |s|
  {
    var w := SkipWhile(s, p, IsWhitespace);
    if StartsWith(s, w, '/', '/') then PastLine(s, w)
    else if StartsWith(s, w, '/', '*') then PastComment(s, w + 2)
    else w
  }

  function SkipTrivia(s: string, p: nat): (e: nat)
    requires p <= |s|
    ensures p <= e <= |s|
    decreases |s| - p
  {
    var e := TriviaOnce(s, p);
    if e == p then p else SkipTrivia(s, e)
  }

  // ---------------------------------------------------------------- words

  function IdentAt(s: string, p: nat): (e: Option<nat>)
    requires p <= |s|
    ensures e.Some? ==> p < e.value <= |s|
  {
    if p < |s| && IsIdentStart(s[p]) then Some(SkipWhile(s, p + 1, IsIdentContinue)) else None
  }

  // An identifier, or two with "::" between them.
  function ConstantNameAt(s: string, p: nat): (e: Option<nat>)
    requires p <= |s|
    ensures e.Some? ==> p < e.value <= |s|
  {
    var e := IdentAt(s, p);
    if e.Some? && StartsWith(s, e.value, ':', ':') then IdentAt(s, e.value + 2) else e
  }

  predicate StartsWithFn(s: string, p: nat) {
    p + 2 <= |s| && SameWord(s[p..p + 2], "fn") && !(p + 2 < |s| && IsIdentContinue(s[p + 2]))
  }

  function ParseWord(s: string, p: nat, constants: map<string, Value>): (r: Parsed<Value>)
    requires p <= |s|
    ensures r.Got? ==> p < r.end <= |s|
  {
    var end := ConstantNameAt(s, p);
    if end.None? then Failed(Expected("identifier"))
    else
      var name := s[p..end.value];
      if SameWord(name, "true") then Got(Bool(true), end.value)
      else if SameWord(name, "false") then Got(Bool(false), end.value)
      else if (SameWord(name, "include") || SameWord(name, "include_bin")) && At(s, end.value, '!') then Failed(Unsupported)
      else if ':' !in name && |name| >= 2 && SameWord(name[..2], "e_") then Failed(Unsupported)
      else if name in constants then Got(constants[name], end.value)
      else Failed(ConstantNotFound(name))
  }

  // ---------------------------------------------------------------- strings

  // The end of the quoted text at p, past its closing quote.
  function QuotedEnd(s: string, p: nat, escaped: bool): (e: Option<nat>)
    requires p <= |s|
    ensures e.Some? ==> p < e.value <= |s|
    decreases |s| - p
  {
    if p == |s| then None
    else if !escaped && s[p] == '"' then Some(p + 1)
    else QuotedEnd(s, p + 1, !escaped && s[p] == '\\')
  }

  function FromU32(n: nat): Option<char> {
    if n < 0xD800 || 0xE000 <= n < 0x11_0000 then Some(n as char) else None
  }

  // The character that `count` hexadecimal digits stand for, and the position after them.
  function HexEscape(t: string, p: nat, count: nat): (r: Option<(char, nat)>)
    ensures r.Some? ==> p <= r.value.1 <= |t|
  {
    if p + count > |t| || !AllHex(t[p..p + count]) then None
    else
      var c := FromU32(ReadHex(t[p..p + count]));
      if c.Some? then Some((c.value, p + count)) else None
  }

  function BracedEscape(t: string, p: nat): (r: Option<(char, nat)>)
    requires p <= |t|
    ensures r.Some? ==> p <= r.value.1 <= |t|
  {
    var e := SkipWhile(t, p, IsHex);
    if e == p || e > p + 6 || !At(t, e, '}') then None
    else
      var c := FromU32(ReadHex(t[p..e]));
      if c.Some? then Some((c.value, e + 1)) else None
  }

  // An escape whose letter, after the backslash, stands at p.
  function UnquoteEscape(t: string, p: nat): (r: Option<(char, nat)>)
    requires p < |t|
    ensures r.Some? ==> p < r.value.1 <= |t|
  {
    match t[p]
    case 'n' => Some(('\n', p + 1))
    case 'r' => Some(('\r', p + 1))
    case 't' => Some(('\t', p + 1))
    case '0' => Some(('\0', p + 1))
    case 'x' => HexEscape(t, p + 1, 2)
    case 'u' => if At(t, p + 1, '{') then BracedEscape(t, p + 2) else HexEscape(t, p + 1, 4)
    case c => Some((c, p + 1))
  }

  // The text inside a quoted literal, from p on.
  function UnquoteFrom(t: string, p: nat): Option<string>
    requires p <= |t|
    decreases |t| - p
  {
    if p == |t| then None
    else if t[p] == '"' then if p + 1 < |t| then None else Some("")
    else if t[p] != '\\' then Prepend(t[p], UnquoteFrom(t, p + 1))
    else if p + 1 == |t| then None
    else if t[p + 1] == '"' && p + 2 == |t| then Some("")
    else
      var e := UnquoteEscape(t, p + 1);
      if e.None? then None else Prepend(e.value.0, UnquoteFrom(t, e.value.1))
  }

  function Prepend(c: char, rest: Option<string>): Option<string> {
    if rest.Some? then Some([c] + rest.value) else None
  }

  function Unquote(t: string): Option<string> {
    if At(t, 0, '"') then UnquoteFrom(t, 1) else None
  }

  function ParseString(s: string, p: nat): (r: Parsed<Value>)
    requires At(s, p, '"')
    ensures r.Got? ==> p < r.end <= |s|
  {
    var end := QuotedEnd(s, p + 1, false);
    if end.None? then Failed(UnterminatedString)
    else
      var text := Unquote(s[p..end.value]);
      if text.Some? then Got(Str(text.value), end.value) else Failed(BadString)
  }

  // ---------------------------------------------------------------- objects and numbers

  predicate InObjectId(c: char) { IsIdentContinue(c) || c == '-' }

  predicate LooksLikeUuid(text: string) {
    |text| == 17 && text[6] == '-'
  }

  // The object that the text after the "#" names.
  function ReadObject(text: string): Option<Value> {
    if |text| >= 5 && text[..5] == "anon_" then
      var packed := if LooksLikeUuid(text[5..]) then FromUuidString(text[5..]) else None;
      if packed.Some? then Some(Anonymous(packed.value)) else None
    else if LooksLikeUuid(text) then
      var packed := FromUuidString(text);
      if packed.Some? then Some(Uuid(packed.value)) else None
    else
      var id := ReadInt(text, OBJ_MIN, OBJ_MAX);
      var packed := if '-' in text then FromUuidString(text) else None;
      if id.Some? then Some(Obj(id.value)) else if packed.Some? then Some(Uuid(packed.value)) else None
  }

  function ParseObject(s: string, p: nat): (r: Parsed<Value>)
    requires At(s, p, '#')
    ensures r.Got? ==> p < r.end <= |s|
  {
    var end := SkipWhile(s, p + 1, InObjectId);
    var v := ReadObject(s[p + 1..end]);
    if v.Some? then Got(v.value, end) else Failed(InvalidObjectId(s[p..end]))
  }

  predicate InNumber(c: char) {
    IsDigit(c) || c == '_' || c == '.' || c == 'e' || c == 'E' || c == '+' || c == '-'
  }

  function Without(text: string, c: char): string {
    if text == "" then "" else (if text[0] == c then "" else [text[0]]) + Without(text[1..], c)
  }

  function ReadNumber(raw: string): Result<Value, Error> {
    var text := Without(raw, '_');
    if '.' in text || 'e' in text || 'E' in text then Err(Unsupported)
    else
      var n := ReadInt(text, INT_MIN, INT_MAX);
      if n.Some? then Ok(Int(n.value)) else Err(BadNumber)
  }

  function ParseNumber(s: string, p: nat): (r: Parsed<Value>)
    requires p < |s| && (IsDigit(s[p]) || s[p] == '+' || s[p] == '-')
    ensures r.Got? ==> p < r.end <= |s|
  {
    var end := SkipWhile(s, p, InNumber);
    var n := ReadNumber(s[p..end]);
    if n.Ok? then Got(n.value, end) else Failed(n.error)
  }

  // ---------------------------------------------------------------- lists or lambdas

  // Past the brace that closes the one at depth 1, skipping strings; none if the text ends first.
  function ClosingBrace(s: string, p: nat, depth: nat, inString: bool, escaped: bool): (e: Option<nat>)
    requires p <= |s|
    ensures e.Some? ==> e.value <= |s|
    decreases |s| - p
  {
    if p == |s| then None
    else if inString then
      ClosingBrace(s, p + 1, depth, escaped || s[p] != '"', !escaped && s[p] == '\\')
    else if s[p] == '"' then ClosingBrace(s, p + 1, depth, true, false)
    else if s[p] == '{' then ClosingBrace(s, p + 1, depth + 1, false, false)
    else if s[p] == '}' then
      if depth <= 1 then Some(p + 1) else ClosingBrace(s, p + 1, depth - 1, false, false)
    else ClosingBrace(s, p + 1, depth, false, false)
  }

  predicate BraceStartsLambda(s: string, p: nat)
    requires p <= |s|
  {
    var close := ClosingBrace(s, p, 0, false, false);
    At(s, p, '{') && close.Some? && StartsWith(s, SkipTrivia(s, close.value), '=', '>')
  }

  // ---------------------------------------------------------------- literals

  predicate StartsContainer(s: string, p: nat) {
    At(s, p, '[') || At(s, p, '{') || At(s, p, '<') || StartsWithFn(s, p)
  }

  // A literal, past any trivia. Entering a container counts against the nesting limit.
  function ParseLiteral(s: string, start: nat, depth: nat, constants: map<string, Value>): (r: Parsed<Value>)
    requires start <= |s|
    ensures r.Got? ==> start < r.end <= |s|
    decreases |s| - start, 3
  {
    var p := SkipTrivia(s, start);
    if !StartsContainer(s, p) then ParseInner(s, p, depth, constants)
    else if depth + 1 > MAX_LITERAL_NESTING then Failed(LiteralNestingTooDeep)
    else ParseInner(s, p, depth + 1, constants)
  }

  function ParseInner(s: string, p: nat, depth: nat, constants: map<string, Value>): (r: Parsed<Value>)
    requires p <= |s|
    ensures r.Got? ==> p < r.end <= |s|
    decreases |s| - p, 2
  {
    if p == |s| then Failed(Expected("literal"))
    else if s[p] == '"' then ParseString(s, p)
    else if s[p] == '#' then ParseObject(s, p)
    else if s[p] == '\'' then ParseSymbol(s, p)
    else if s[p] == '[' then ParseMap(s, p, depth, constants)
    else if s[p] == '{' then if BraceStartsLambda(s, p) then Failed(Unsupported) else ParseList(s, p, depth, constants)
    else if s[p] == '<' then Failed(Unsupported)
    else if s[p] == '+' || s[p] == '-' || IsDigit(s[p]) then ParseNumber(s, p)
    else if StartsWith(s, p, 'b', '"') || StartsWithFn(s, p) then Failed(Unsupported)
    else ParseWord(s, p, constants)
  }

  function ParseSymbol(s: string, p: nat): (r: Parsed<Value>)
    requires At(s, p, '\'')
    ensures r.Got? ==> p < r.end <= |s|
  {
    var end := IdentAt(s, p + 1);
    if end.Some? then Got(Sym(s[p + 1..end.value]), end.value) else Failed(Expected("identifier"))
  }

  function ParseList(s: string, p: nat, depth: nat, constants: map<string, Value>): (r: Parsed<Value>)
    requires At(s, p, '{')
    ensures r.Got? ==> p < r.end <= |s|
    decreases |s| - p, 1
  {
    var q := SkipTrivia(s, p + 1);
    if At(s, q, '}') then Got(List([]), q + 1)
    else
      var items := ParseItems(s, q, depth, constants);
      if items.Got? then Got(List(items.value), items.end) else Failed(items.error)
  }

  // One or more literals with commas between them, and the closing brace.
  function ParseItems(s: string, p: nat, depth: nat, constants: map<string, Value>): (r: Parsed<seq<Value>>)
    requires p <= |s|
    ensures r.Got? ==> p < r.end <= |s|
    decreases |s| - p, 4
  {
    var first := ParseLiteral(s, p, depth, constants);
    if first.Failed? then Failed(first.error)
    else
      var q := SkipTrivia(s, first.end);
      if At(s, q, ',') then
        var rest := ParseItems(s, SkipTrivia(s, q + 1), depth, constants);
        if rest.Got? then Got([first.value] + rest.value, rest.end) else rest
      else if At(s, q, '}') then Got([first.value], q + 1)
      else Failed(Expected("}"))
  }

  function ParseMap(s: string, p: nat, depth: nat, constants: map<string, Value>): (r: Parsed<Value>)
    requires At(s, p, '[')
    ensures r.Got? ==> p < r.end <= |s|
    decreases |s| - p, 1
  {
    var q := SkipTrivia(s, p + 1);
    if At(s, q, ']') then Got(Map([]), q + 1)
    else
      var entries := ParseEntries(s, q, depth, constants);
      if entries.Got? then Got(Map(entries.value), entries.end) else Failed(entries.error)
  }

  function ParseEntry(s: string, p: nat, depth: nat, constants: map<string, Value>): (r: Parsed<Entry>)
    requires p <= |s|
    ensures r.Got? ==> p < r.end <= |s|
    decreases |s| - p, 4
  {
    var key := ParseLiteral(s, p, depth, constants);
    if key.Failed? then Failed(key.error)
    else
      var arrow := SkipTrivia(s, key.end);
      if !StartsWith(s, arrow, '-', '>') then Failed(Expected("->"))
      else
        var value := ParseLiteral(s, SkipTrivia(s, arrow + 2), depth, constants);
        if value.Got? then Got(Entry(key.value, value.value), value.end) else Failed(value.error)
  }

  function ParseEntries(s: string, p: nat, depth: nat, constants: map<string, Value>): (r: Parsed<seq<Entry>>)
    requires p <= |s|
    ensures r.Got? ==> p < r.end <= |s|
    decreases |s| - p, 5
  {
    var first := ParseEntry(s, p, depth, constants);
    if first.Failed? then Failed(first.error)
    else
      var q := SkipTrivia(s, first.end);
      if At(s, q, ',') then
        var rest := ParseEntries(s, SkipTrivia(s, q + 1), depth, constants);
        if rest.Got? then Got([first.value] + rest.value, rest.end) else rest
      else if At(s, q, ']') then Got([first.value], q + 1)
      else Failed(Expected("]"))
  }

  function ParseLiteralValue(s: string, constants: map<string, Value>): Result<Value, Error> {
    var r := ParseLiteral(s, SkipTrivia(s, 0), 0, constants);
    if r.Failed? then Err(r.error)
    else if SkipTrivia(s, r.end) == |s| then Ok(r.value)
    else Err(TrailingInput)
  }

}
