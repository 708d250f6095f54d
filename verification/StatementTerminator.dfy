/**
 How the MCP server tells an expression from statements: a scan for a semicolon outside string literals,
 and the escaping that keeps a value inside one literal.
 */
module StatementTerminator {

  import opened Prelude
  import opened MooText
  import opened Lexer
  import opened LexerShape
  import opened TextScanner
  import opened ScannerAgreement

  // ---------------------------------------------------------------- the scan

  // The scan knows strings only; comments are nothing to it.
  function QuoteNext(c: char, m: Mode): Mode {
    match m
    case StringMode(escaped) =>
      if escaped then StringMode(false) else if c == '\\' then StringMode(true) else if c == '"' then CodeMode else m
    case _ => if c == '"' then StringMode(false) else CodeMode
  }

  // The mode before the character at i.
  function QuoteMode(code: string, i: nat): (m: Mode)
    requires i <= |code|
    ensures m.CodeMode? || m.StringMode?
  {
    if i == 0 then CodeMode else QuoteNext(code[i - 1], QuoteMode(code, i - 1))
  }

  predicate TerminatorAt(code: string, i: nat)
    requires i < |code|
  {
    code[i] == ';' && QuoteMode(code, i) == CodeMode
  }

  ghost predicate HasTerminator(code: string) {
    exists i :: 0 <= i < |code| && TerminatorAt(code, i)
  }

  method HasStatementTerminator(code: string) returns (found: bool)
    ensures found <==> HasTerminator(code)
  {
    var inString := false;
    var i := 0;
    while i < |code|
      invariant i <= |code| ==> QuoteMode(code, i) == if inString then StringMode(false) else CodeMode
      invariant forall j :: 0 <= j < i && j < |code| ==> !TerminatorAt(code, j)
      decreases |code| - i
    {
      var c := code[i];
      if inString {
        if c == '\\' {
          i := i + 1;
          if i < |code| { assert QuoteMode(code, i) == StringMode(true); }
        } else if c == '"' {
          inString := false;
        }
      } else if c == '"' {
        inString := true;
      } else if c == ';' {
        assert TerminatorAt(code, i);
        return true;
      }
      i := i + 1;
    }
    found := false;
  }

  // ---------------------------------------------------------------- against the lexer

  predicate IsComment(s: string, t: Token) {
    t.kind == LineComment || IsBlockComment(s, t.start)
  }

  // A token starts with a semicolon exactly if it is one, and holds no other in code.
  lemma TokenSemicolons(s: string, t: Token)
    requires Shape(s, t)
    ensures t.kind == Semi <==> s[t.start] == ';'
    ensures t.kind == Semi ==> TokenRoles(s, t)[0] == CodeRole
    ensures forall i :: t.start < i < t.end && TokenRoles(s, t)[i - t.start] == CodeRole ==> s[i] != ';'
  {
    if CodeAt(s, t.start) && !IsBinary(s, t.start) { assert InertSpan(s, t.start + 1, t.end); }
  }

  predicate HasSemi(ts: seq<Token>) {
    exists t :: t in ts && t.kind == Semi
  }

  // A semicolon in a comment is a terminator to the scan alone.
  lemma CommentedSemicolon()
    ensures TerminatorAt("//;", 2) && !HasSemi(Lex("//;"))
  {
    var s := "//;";
    assert QuoteMode(s, 0) == QuoteMode(s, 1) == QuoteMode(s, 2) == CodeMode;
    LexFromShaped(s, 0, None);
    OneComment(s, Lex(s));
  }

  lemma OneComment(s: string, ts: seq<Token>)
    requires |s| == 3 && IsLineComment(s, 0) && InLine(s[2]) && Shaped(s, 0, ts)
    ensures !HasSemi(ts)
  {
    assert SkipWhile(s, 3, InLine) == 3 && SkipWhile(s, 2, InLine) == 3;
    assert Shape(s, ts[0]) && ts[0] == Token(LineComment, 0, 3);
    assert ts == [ts[0]] + ts[1..] && ts[1..] == [Token(Eof, 3, 3)];
  }

  // ---------------------------------------------------------------- escaping

  // Every occurrence of a character replaced by a text.
  function Replace(v: string, c: char, text: string): string {
    if v == "" then "" else (if v[0] == c then text else [v[0]]) + Replace(v[1..], c, text)
  }

  function EscapeMooString(v: string): string {
    Replace(Replace(v, '\\', "\\\\"), '"', "\\\"")
  }

  function EscapedChar(c: char): string {
    if c == '\\' then "\\\\" else if c == '"' then "\\\"" else [c]
  }

  function Escaped(v: string): string {
    if v == "" then "" else EscapedChar(v[0]) + Escaped(v[1..])
  }

  // The two passes never touch what the other one wrote: they escape each character once.
  lemma {:induction false} EscapesEachChar(v: string)
    ensures EscapeMooString(v) == Escaped(v)
  {
    if v != "" {
      EscapesEachChar(v[1..]);
      var rest := Replace(v[1..], '\\', "\\\\");
      if v[0] == '\\' {
        assert Replace(v, '\\', "\\\\") == ['\\'] + (['\\'] + rest);
        ReplaceCons('\\', ['\\'] + rest);
      }
      ReplaceCons(v[0], rest);
    }
  }

  lemma ReplaceCons(c: char, rest: string)
    ensures Replace([c] + rest, '"', "\\\"") == (if c == '"' then "\\\"" else [c]) + Replace(rest, '"', "\\\"")
  {
    assert ([c] + rest)[1..] == rest;
  }

  // The text stands in s at p.
  predicate StandsAt(s: string, p: nat, text: string) {
    p + |text| <= |s| && s[p..p + |text|] == text
  }

  // A quoted escaped value, wherever it stands, is the rest of one string literal.
  lemma {:induction false} EscapedStaysInside(s: string, p: nat, v: string)
    requires StandsAt(s, p, Escaped(v)) && At(s, p + |Escaped(v)|, '"')
    ensures StringScan(s, p, false) == (p + |Escaped(v)| + 1, true)
    decreases |v|
  {
    if v != "" {
      var head, tail := EscapedChar(v[0]), Escaped(v[1..]);
      SplitSlice(s, p, head, tail);
      EscapedStaysInside(s, p + |head|, v[1..]);
      EscapedCharSkips(s, p, v[0]);
    }
  }

  lemma EscapedCharSkips(s: string, p: nat, c: char)
    requires StandsAt(s, p, EscapedChar(c))
    ensures StringScan(s, p, false) == StringScan(s, p + |EscapedChar(c)|, false)
  {
    var part := s[p..p + |EscapedChar(c)|];
    assert part[0] == s[p];
    if c == '\\' || c == '"' { assert part[1] == s[p + 1] == c; }
  }

}
