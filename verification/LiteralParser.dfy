/**
 The literal parser as it runs: a position that moves through the source and a nesting depth that is
 restored on every path. Each method is proved against the functions of module LiteralGrammar.
 */
module LiteralParser {

  import opened Prelude
  import opened MooText
  import opened Literal
  import G = LiteralGrammar

  class Parser {
    const source: string
    const constants: map<string, Value>
    var pos: nat
    var depth: nat

    constructor (source: string, constants: map<string, Value>)
      ensures this.source == source && this.constants == constants && pos == 0 && depth == 0
    {
      this.source := source;
      this.constants := constants;
      pos := 0;
      depth := 0;
    }

    // The result agrees with what the grammar reads; on success the position is past it.
    ghost predicate Follows<T>(r: Result<T, G.Error>, g: G.Parsed<T>)
      reads this
    {
      match g
      case Got(v, end) => r == Ok(v) && pos == end
      case Failed(e) => r == Err(e)
    }

    // ---------------------------------------------------------------- scans

    method ConsumeWhile(test: char -> bool)
      requires pos <= |source|
      modifies `pos
      ensures pos == SkipWhile(source, old(pos), test)
    {
      while pos < |source| && test(source[pos])
        invariant old(pos) <= pos <= |source|
        invariant SkipWhile(source, pos, test) == SkipWhile(source, old(pos), test)
        decreases |source| - pos
      {
        pos := pos + 1;
      }
    }

    method EatChar(c: char) returns (eaten: bool)
      requires pos <= |source|
      modifies `pos
      ensures eaten == At(source, old(pos), c)
      ensures pos == old(pos) + if eaten then 1 else 0
    {
      eaten := pos < |source| && source[pos] == c;
      if eaten { pos := pos + 1; }
    }

    method SkipComment()
      requires pos <= |source|
      modifies `pos
      ensures pos == G.PastComment(source, old(pos))
    {
      while pos < |source| && !G.StartsWith(source, pos, '*', '/')
        invariant old(pos) <= pos <= |source|
        invariant G.PastComment(source, pos) == G.PastComment(source, old(pos))
        decreases |source| - pos
      {
        pos := pos + 1;
      }
      if G.StartsWith(source, pos, '*', '/') { pos := pos + 2; }
    }

    method SkipLine()
      requires pos <= |source|
      modifies `pos
      ensures pos == G.PastLine(source, old(pos))
    {
      ConsumeWhile(G.NotLineFeed);
      if pos < |source| { pos := pos + 1; }
    }

    method SkipTriviaOnce()
      requires pos <= |source|
      modifies `pos
      ensures pos == G.TriviaOnce(source, old(pos))
    {
      ConsumeWhile(G.IsWhitespace);
      if G.StartsWith(source, pos, '/', '/') {
        SkipLine();
      } else if G.StartsWith(source, pos, '/', '*') {
        pos := pos + 2;
        SkipComment();
      }
    }

    method SkipTrivia()
      requires pos <= |source|
      modifies `pos
      ensures pos == G.SkipTrivia(source, old(pos))
    {
      hide G.TriviaOnce;
      var before := pos;
      SkipTriviaOnce();
      while pos != before
        invariant before <= pos <= |source|
        invariant pos == G.TriviaOnce(source, before)
        invariant G.SkipTrivia(source, before) == G.SkipTrivia(source, old(pos))
        decreases |source| - before
      {
        before := pos;
        SkipTriviaOnce();
      }
    }

    // ---------------------------------------------------------------- scalars

    // Past the closing quote of the string that starts at the position.
    method ParseQuoted() returns (closed: bool)
      requires At(source, pos, '"')
      modifies `pos
      ensures closed == G.QuotedEnd(source, old(pos) + 1, false).Some?
      ensures closed ==> pos == G.QuotedEnd(source, old(pos) + 1, false).value
    {
      pos := pos + 1;
      var escaped := false;
      while pos < |source|
        invariant old(pos) < pos <= |source|
        invariant G.QuotedEnd(source, pos, escaped) == G.QuotedEnd(source, old(pos) + 1, false)
        decreases |source| - pos
      {
        var c := source[pos];
        pos := pos + 1;
        if escaped {
          escaped := false;
        } else if c == '\\' {
          escaped := true;
        } else if c == '"' {
          return true;
        }
      }
      closed := false;
    }

    method ParseString() returns (r: Result<Value, G.Error>)
      requires At(source, pos, '"')
      modifies `pos
      ensures Follows(r, G.ParseString(source, old(pos)))
    {
      var start := pos;
      var closed := ParseQuoted();
      if !closed { return Err(G.UnterminatedString); }
      var text := Unquote(source[start..pos]);
      r := if text.Some? then Ok(Str(text.value)) else Err(G.BadString);
    }

    // The text inside a quoted literal, with its escapes undone.
    static method Unquote(t: string) returns (r: Option<string>)
      ensures r == G.Unquote(t)
    {
      if t == "" || t[0] != '"' { return None; }
      var output, p := "", 1;
      assert forall u: string :: "" + u == u;
      while p < |t|
        invariant 1 <= p <= |t|
        invariant G.Unquote(t) == Append(output, G.UnquoteFrom(t, p))
        decreases |t| - p
      {
        UnquoteStep(t, p, output);
        if t[p] == '"' {
          if p + 1 < |t| { return None; }
          return Some(output);
        } else if t[p] != '\\' {
          output, p := output + [t[p]], p + 1;
        } else if p + 1 == |t| {
          return None;
        } else if t[p + 1] == '"' && p + 2 == |t| {
          return Some(output);
        } else {
          var e := G.UnquoteEscape(t, p + 1);
          if e.None? { return None; }
          output, p := output + [e.value.0], e.value.1;
        }
      }
      r := None;
    }

    method ParseObject() returns (r: Result<Value, G.Error>)
      requires At(source, pos, '#')
      modifies `pos
      ensures Follows(r, G.ParseObject(source, old(pos)))
    {
      hide G.ReadObject;
      var start := pos;
      pos := pos + 1;
      ConsumeWhile(G.InObjectId);
      var v := G.ReadObject(source[start + 1..pos]);
      r := if v.Some? then Ok(v.value) else Err(G.InvalidObjectId(source[start..pos]));
    }

    method ParseNumber() returns (r: Result<Value, G.Error>)
      requires pos < |source| && (IsDigit(source[pos]) || source[pos] == '+' || source[pos] == '-')
      modifies `pos
      ensures Follows(r, G.ParseNumber(source, old(pos)))
    {
      hide G.ReadNumber;
      var start := pos;
      ConsumeWhile(G.InNumber);
      r := G.ReadNumber(source[start..pos]);
    }

    method ParseSymbol() returns (r: Result<Value, G.Error>)
      requires At(source, pos, '\'')
      modifies `pos
      ensures Follows(r, G.ParseSymbol(source, old(pos)))
    {
      pos := pos + 1;
      var start := pos;
      var ok := ParseIdent();
      r := if ok then Ok(Sym(source[start..pos])) else Err(G.Expected("identifier"));
    }

    method ParseIdent() returns (ok: bool)
      requires pos <= |source|
      modifies `pos
      ensures ok == G.IdentAt(source, old(pos)).Some?
      ensures pos == if ok then G.IdentAt(source, old(pos)).value else old(pos)
    {
      if pos == |source| || !IsIdentStart(source[pos]) { return false; }
      pos := pos + 1;
      ConsumeWhile(IsIdentContinue);
      ok := true;
    }

    method ParseConstantName() returns (ok: bool)
      requires pos <= |source|
      modifies `pos
      ensures ok == G.ConstantNameAt(source, old(pos)).Some?
      ensures ok ==> pos == G.ConstantNameAt(source, old(pos)).value
    {
      ok := ParseIdent();
      if ok && G.StartsWith(source, pos, ':', ':') {
        pos := pos + 2;
        ok := ParseIdent();
      }
    }

    method ParseWord() returns (r: Result<Value, G.Error>)
      requires pos <= |source|
      modifies `pos
      ensures Follows(r, G.ParseWord(source, old(pos), constants))
    {
      hide G.ConstantNameAt;
      hide SameWord;
      var start := pos;
      var ok := ParseConstantName();
      if !ok { return Err(G.Expected("identifier")); }
      var name := source[start..pos];
      if SameWord(name, "true") { return Ok(Bool(true)); }
      if SameWord(name, "false") { return Ok(Bool(false)); }
      if (SameWord(name, "include") || SameWord(name, "include_bin")) && At(source, pos, '!') {
        return Err(G.Unsupported);
      }
      if ':' !in name && |name| >= 2 && SameWord(name[..2], "e_") { return Err(G.Unsupported); }
      r := if name in constants then Ok(constants[name]) else Err(G.ConstantNotFound(name));
    }

    // Whether the list that starts at the position is the parameters of a lambda.
    method BraceStartsLambda() returns (lambda: bool)
      requires At(source, pos, '{')
      ensures lambda == G.BraceStartsLambda(source, pos)
    {
      hide G.SkipTrivia;
      var p, level: nat, inString, escaped := pos, 0, false, false;
      while p < |source|
        invariant pos <= p <= |source| && (escaped ==> inString)
        invariant G.ClosingBrace(source, p, level, inString, escaped) == G.ClosingBrace(source, pos, 0, false, false)
        decreases |source| - p
      {
        var c := source[p];
        if inString {
          if escaped {
            escaped := false;
          } else if c == '\\' {
            escaped := true;
          } else if c == '"' {
            inString := false;
          }
        } else if c == '"' {
          inString := true;
        } else if c == '{' {
          level := level + 1;
        } else if c == '}' {
          if level <= 1 {
            var q := G.SkipTrivia(source, p + 1);
            return G.StartsWith(source, q, '=', '>');
          }
          level := level - 1;
        }
        p := p + 1;
      }
      lambda := false;
    }

    // ---------------------------------------------------------------- literals

    method ParseLiteral() returns (r: Result<Value, G.Error>)
      requires pos <= |source|
      modifies `pos, `depth
      ensures Follows(r, G.ParseLiteral(source, old(pos), old(depth), constants))
      ensures depth == old(depth)
      decreases |source| - pos, 3
    {
      hide G.ParseInner;
      hide G.SkipTrivia;
      hide G.StartsContainer;
      SkipTrivia();
      var isContainer := G.StartsContainer(source, pos);
      if isContainer {
        depth := depth + 1;
        if depth > G.MAX_LITERAL_NESTING {
          depth := depth - 1;
          return Err(G.LiteralNestingTooDeep);
        }
      }
      r := ParseInner();
      if isContainer { depth := depth - 1; }
    }

    method ParseInner() returns (r: Result<Value, G.Error>)
      requires pos <= |source|
      modifies `pos, `depth
      ensures Follows(r, G.ParseInner(source, old(pos), old(depth), constants))
      ensures depth == old(depth)
      decreases |source| - pos, 2
    {
      hide G.ParseString;
      hide G.ParseObject;
      hide G.ParseSymbol;
      hide G.ParseNumber;
      hide G.ParseWord;
      hide G.ParseMap;
      hide G.ParseList;
      hide G.BraceStartsLambda;
      hide G.StartsWithFn;
      if pos == |source| { return Err(G.Expected("literal")); }
      var c := source[pos];
      if c == '"' {
        r := ParseString();
      } else if c == '#' {
        r := ParseObject();
      } else if c == '\'' {
        r := ParseSymbol();
      } else if c == '[' {
        r := ParseMap();
      } else if c == '{' {
        var lambda := BraceStartsLambda();
        if lambda { return Err(G.Unsupported); }
        r := ParseList();
      } else if c == '<' {
        r := Err(G.Unsupported);
      } else if c == '+' || c == '-' || IsDigit(c) {
        r := ParseNumber();
      } else if G.StartsWith(source, pos, 'b', '"') || G.StartsWithFn(source, pos) {
        r := Err(G.Unsupported);
      } else {
        r := ParseWord();
      }
    }

    method ParseList() returns (r: Result<Value, G.Error>)
      requires At(source, pos, '{')
      modifies `pos, `depth
      ensures Follows(r, G.ParseList(source, old(pos), old(depth), constants))
      ensures depth == old(depth)
      decreases |source| - pos, 1
    {
      hide G.SkipTrivia;
      hide G.ParseItems;
      pos := pos + 1;
      SkipTrivia();
      var closed := EatChar('}');
      if closed { return Ok(List([])); }
      var items := ParseItems();
      r := if items.Ok? then Ok(List(items.value)) else Err(items.error);
    }

    method ParseItems() returns (r: Result<seq<Value>, G.Error>)
      requires pos <= |source|
      modifies `pos, `depth
      ensures Follows(r, G.ParseItems(source, old(pos), old(depth), constants))
      ensures depth == old(depth)
      decreases |source| - pos, 4
    {
      hide G.ParseLiteral;
      hide G.SkipTrivia;
      var values := [];
      ghost var g := G.ParseItems(source, pos, depth, constants);
      BeforeAll(g);
      while true
        invariant old(pos) <= pos <= |source| && depth == old(depth)
        invariant g == Before(values, G.ParseItems(source, pos, depth, constants))
        decreases |source| - pos
      {
        var v := ParseLiteral();
        if v.Err? { return Err(v.error); }
        values := values + [v.value];
        SkipTrivia();
        var more := EatChar(',');
        if !more {
          var closed := EatChar('}');
          return if closed then Ok(values) else Err(G.Expected("}"));
        }
        SkipTrivia();
        BeforeMore(values, G.ParseItems(source, pos, depth, constants));
      }
      r := Ok(values);
    }

    method ParseMap() returns (r: Result<Value, G.Error>)
      requires At(source, pos, '[')
      modifies `pos, `depth
      ensures Follows(r, G.ParseMap(source, old(pos), old(depth), constants))
      ensures depth == old(depth)
      decreases |source| - pos, 1
    {
      hide G.SkipTrivia;
      hide G.ParseEntries;
      pos := pos + 1;
      SkipTrivia();
      var closed := EatChar(']');
      if closed { return Ok(Map([])); }
      var entries := ParseEntries();
      r := if entries.Ok? then Ok(Map(entries.value)) else Err(entries.error);
    }

    method ParseEntry() returns (r: Result<Entry, G.Error>)
      requires pos <= |source|
      modifies `pos, `depth
      ensures Follows(r, G.ParseEntry(source, old(pos), old(depth), constants))
      ensures depth == old(depth)
      decreases |source| - pos, 4
    {
      hide G.ParseLiteral;
      hide G.SkipTrivia;
      var key := ParseLiteral();
      if key.Err? { return Err(key.error); }
      SkipTrivia();
      if !G.StartsWith(source, pos, '-', '>') { return Err(G.Expected("->")); }
      pos := pos + 2;
      SkipTrivia();
      var value := ParseLiteral();
      r := if value.Ok? then Ok(Entry(key.value, value.value)) else Err(value.error);
    }

    method ParseEntries() returns (r: Result<seq<Entry>, G.Error>)
      requires pos <= |source|
      modifies `pos, `depth
      ensures Follows(r, G.ParseEntries(source, old(pos), old(depth), constants))
      ensures depth == old(depth)
      decreases |source| - pos, 5
    {
      hide G.ParseEntry;
      hide G.SkipTrivia;
      var entries := [];
      ghost var g := G.ParseEntries(source, pos, depth, constants);
      BeforeAll(g);
      while true
        invariant old(pos) <= pos <= |source| && depth == old(depth)
        invariant g == Before(entries, G.ParseEntries(source, pos, depth, constants))
        decreases |source| - pos
      {
        var e := ParseEntry();
        if e.Err? { return Err(e.error); }
        entries := entries + [e.value];
        SkipTrivia();
        var more := EatChar(',');
        if !more {
          var closed := EatChar(']');
          return if closed then Ok(entries) else Err(G.Expected("]"));
        }
        SkipTrivia();
        BeforeMore(entries, G.ParseEntries(source, pos, depth, constants));
      }
      r := Ok(entries);
    }
  }

  // What was read before, then what is read from here.
  function Before<T>(done: seq<T>, g: G.Parsed<seq<T>>): G.Parsed<seq<T>> {
    if g.Got? then G.Got(done + g.value, g.end) else g
  }

  lemma BeforeAll<T>(g: G.Parsed<seq<T>>)
    ensures Before([], g) == g
  {
    if g.Got? { assert [] + g.value == g.value; }
  }

  // The last of what was read before is the first of what is read from the place before it.
  lemma BeforeMore<T>(done: seq<T>, rest: G.Parsed<seq<T>>)
    requires done != []
    ensures var front, last := done[..|done| - 1], done[|done| - 1];
      Before(done, rest) == Before(front, if rest.Got? then G.Got([last] + rest.value, rest.end) else rest)
  {
    var front, last := done[..|done| - 1], done[|done| - 1];
    if rest.Got? { assert done + rest.value == front + ([last] + rest.value); }
  }

  function Append(done: string, rest: Option<string>): Option<string> {
    if rest.Some? then Some(done + rest.value) else None
  }

  // One step of unquoting moves a character from what is left to what is done.
  lemma UnquoteStep(t: string, p: nat, output: string)
    requires p < |t|
    ensures t[p] == '"' ==> Append(output, G.UnquoteFrom(t, p)) == if p + 1 < |t| then None else Some(output)
    ensures t[p] != '"' && t[p] != '\\' ==>
      Append(output, G.UnquoteFrom(t, p)) == Append(output + [t[p]], G.UnquoteFrom(t, p + 1))
    ensures t[p] == '\\' && (p + 1 == |t| || (t[p + 1] == '"' && p + 2 == |t|)) ==>
      Append(output, G.UnquoteFrom(t, p)) == if p + 1 == |t| then None else Some(output)
    ensures t[p] == '\\' && p + 1 < |t| && !(t[p + 1] == '"' && p + 2 == |t|) ==>
      var e := G.UnquoteEscape(t, p + 1);
      Append(output, G.UnquoteFrom(t, p))
      == if e.None? then None else Append(output + [e.value.0], G.UnquoteFrom(t, e.value.1))
  {
    hide G.UnquoteEscape;
    AppendPrepends(output);
    assert output + "" == output;
  }

  lemma AppendPrepends(output: string)
    ensures forall c, rest :: Append(output, G.Prepend(c, rest)) == Append(output + [c], rest)
  {
    forall c, rest: Option<string> ensures Append(output, G.Prepend(c, rest)) == Append(output + [c], rest) {
      if rest.Some? { assert output + ([c] + rest.value) == output + [c] + rest.value; }
    }
  }

  // The whole text as one literal.
  method ParseLiteralValue(source: string, constants: map<string, Value>) returns (r: Result<Value, G.Error>)
    ensures r == G.ParseLiteralValue(source, constants)
  {
    hide G.ParseLiteral;
    hide G.SkipTrivia;
    var parser := new Parser(source, constants);
    parser.SkipTrivia();
    r := parser.ParseLiteral();
    if r.Err? { return r; }
    parser.SkipTrivia();
    if parser.pos < |source| { return Err(G.TrailingInput); }
  }

}
