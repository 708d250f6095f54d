/**
 The handwritten lexer for MOO source: the kind and end of the token at a position, and the
 tokens of a whole text. Positions count characters.
 */
module Lexer {

  import opened Prelude
  import opened MooText

  datatype Kind =
    | Error | Eof
    | Whitespace | Newline | LineComment | BlockComment
    | Ident | IntLit | FloatLit | StringLit | ObjectLit | ErrorLit | SymbolLit | BinaryLit | QualifiedName | TypeConstant
    | IfKw | ElseKw | ElseIfKw | EndIfKw | ForKw | EndForKw | WhileKw | EndWhileKw | ForkKw | EndForkKw | InKw
    | ReturnKw | BreakKw | ContinueKw | TryKw | ExceptKw | FinallyKw | EndTryKw | FnKw | EndFnKw | LetKw | ConstKw
    | GlobalKw | PassKw | AnyKw | TrueKw | FalseKw
    | Plus | Minus | Star | Slash | Percent | Caret | AmpDot | PipeDot | CaretDot | Tilde | Shl | Shr | LShr
    | AmpAmp | PipePipe | Bang | EqEq | BangEq | Lt | Gt | LtEq | GtEq | Eq | Arrow | FatArrow | DotDot
    | Semi | Comma | Dot | Colon | AtSign | Hash | Dollar | Backtick | Apostrophe | Question | Pipe
    | LParen | RParen | LBrace | RBrace | LBracket | RBracket

  datatype Token = Token(kind: Kind, start: nat, end: nat)

  predicate IsTrivia(k: Kind) {
    k.Whitespace? || k.Newline? || k.LineComment? || k.BlockComment?
  }

  predicate CanEndExpr(k: Kind) {
    || k.Ident? || k.IntLit? || k.FloatLit? || k.StringLit? || k.ObjectLit? || k.ErrorLit? || k.SymbolLit?
    || k.BinaryLit? || k.QualifiedName? || k.TypeConstant? || k.TrueKw? || k.FalseKw? || k.PassKw? || k.AnyKw?
    || k.RParen? || k.RBracket? || k.RBrace? || k.Dollar?
  }

  // ---------------------------------------------------------------- identifiers

  // A token that is neither trivia, a string, a binary literal, a semicolon nor an error.
  predicate IsWordKind(k: Kind) {
    IsPlainKind(k) && k != Semi && k != Error
  }

  // Kinds of the tokens that are neither comments, strings nor binary literals.
  predicate IsPlainKind(k: Kind) {
    !k.LineComment? && !k.BlockComment? && !k.StringLit? && !k.BinaryLit? && !k.Eof?
  }

  function KeywordKind(text: string): (k: Option<Kind>)
    ensures k.Some? ==> IsWordKind(k.value)
  {
    if SameWord(text, "if") then Some(IfKw)
    else if SameWord(text, "else") then Some(ElseKw)
    else if SameWord(text, "elseif") then Some(ElseIfKw)
    else if SameWord(text, "endif") then Some(EndIfKw)
    else if SameWord(text, "for") then Some(ForKw)
    else if SameWord(text, "endfor") then Some(EndForKw)
    else if SameWord(text, "while") then Some(WhileKw)
    else if SameWord(text, "endwhile") then Some(EndWhileKw)
    else if SameWord(text, "fork") then Some(ForkKw)
    else if SameWord(text, "endfork") then Some(EndForkKw)
    else if SameWord(text, "in") then Some(InKw)
    else JumpKeywordKind(text)
  }

  function JumpKeywordKind(text: string): (k: Option<Kind>)
    ensures k.Some? ==> IsWordKind(k.value)
  {
    if SameWord(text, "return") then Some(ReturnKw)
    else if SameWord(text, "break") then Some(BreakKw)
    else if SameWord(text, "continue") then Some(ContinueKw)
    else if SameWord(text, "try") then Some(TryKw)
    else if SameWord(text, "except") then Some(ExceptKw)
    else if SameWord(text, "finally") then Some(FinallyKw)
    else if SameWord(text, "endtry") then Some(EndTryKw)
    else if SameWord(text, "fn") then Some(FnKw)
    else if SameWord(text, "endfn") then Some(EndFnKw)
    else OtherKeywordKind(text)
  }

  function OtherKeywordKind(text: string): (k: Option<Kind>)
    ensures k.Some? ==> IsWordKind(k.value)
  {
    if SameWord(text, "let") then Some(LetKw)
    else if SameWord(text, "const") then Some(ConstKw)
    else if SameWord(text, "global") then Some(GlobalKw)
    else if SameWord(text, "pass") then Some(PassKw)
    else if SameWord(text, "any") then Some(AnyKw)
    else if SameWord(text, "true") then Some(TrueKw)
    else if SameWord(text, "false") then Some(FalseKw)
    else None
  }

  predicate IsTypeConstant(text: string) {
    || SameWord(text, "type_int")
    || SameWord(text, "type_num")
    || SameWord(text, "type_float")
    || SameWord(text, "type_str")
    || SameWord(text, "type_err")
    || SameWord(text, "type_obj")
    || SameWord(text, "type_list")
    || SameWord(text, "type_map")
    || SameWord(text, "type_bool")
    || SameWord(text, "type_flyweight")
    || SameWord(text, "type_binary")
    || SameWord(text, "type_lambda")
    || SameWord(text, "type_sym")
  }

  function WordKind(text: string): (k: Kind)
    ensures IsWordKind(k)
  {
    var keyword := KeywordKind(text);
    if keyword.Some? then keyword.value
    else if IsTypeConstant(text) then TypeConstant
    else if |text| > 2 && SameWord(text[..2], "e_") then ErrorLit
    else Ident
  }

  function IdentEnd(s: string, p: nat): (e: nat)
    requires p <= |s|
    ensures p <= e <= |s|
  {
    SkipWhile(s, p, IsIdentContinue)
  }

  predicate IsQualifier(s: string, p: nat) {
    At(s, p, ':') && At(s, p + 1, ':') && p + 2 < |s| && IsIdentStart(s[p + 2])
  }

  // A word of kind `kind` ending at p, or the package constant it begins.
  function Qualified(s: string, p: nat, kind: Kind): (r: (Kind, nat))
    requires p <= |s| && IsWordKind(kind)
    ensures p <= r.1 <= |s| && IsWordKind(r.0)
  {
    if kind == Ident && IsQualifier(s, p) then (QualifiedName, IdentEnd(s, p + 2)) else (kind, p)
  }

  function IdentLike(s: string, p: nat): (r: (Kind, nat))
    requires p < |s| && IsIdentStart(s[p])
    ensures p < r.1 <= |s| && IsWordKind(r.0)
  {
    var e := IdentEnd(s, p + 1);
    Qualified(s, e, WordKind(s[p..e]))
  }

  function SymbolOrApostrophe(s: string, p: nat): (r: (Kind, nat))
    requires At(s, p, '\'')
    ensures p < r.1 <= |s| && IsWordKind(r.0)
  {
    if p + 1 < |s| && IsIdentStart(s[p + 1]) then (SymbolLit, IdentEnd(s, p + 2))
    else (Apostrophe, p + 1)
  }

  // ---------------------------------------------------------------- numbers and objects

  // Digits, with single underscores before digits. Empty when it stops where it started.
  function DigitsEnd(s: string, p: nat): (e: nat)
    requires p <= |s|
    ensures p <= e <= |s|
    decreases |s| - p
  {
    if p < |s| && IsDigit(s[p]) then DigitsEnd(s, p + 1)
    else if At(s, p, '_') && p + 1 < |s| && IsDigit(s[p + 1]) then DigitsEnd(s, p + 1)
    else p
  }

  // Up to `count` hexadecimal digits, and whether there were that many.
  function HexEnd(s: string, p: nat, count: nat): (r: (nat, bool))
    requires p <= |s|
    ensures p <= r.0 <= |s|
    ensures forall i :: p <= i < r.0 ==> IsHex(s[i])
    decreases count
  {
    if count == 0 then (p, true)
    else if p < |s| && IsHex(s[p]) then HexEnd(s, p + 1, count - 1)
    else (p, false)
  }

  function UuidEnd(s: string, p: nat): (r: Option<nat>)
    requires p <= |s|
    ensures r.Some? ==> p < r.value <= |s|
  {
    var first := HexEnd(s, p, 6);
    if !first.1 || !At(s, first.0, '-') then None
    else
      var second := HexEnd(s, first.0 + 1, 10);
      if second.1 then Some(second.0) else None
  }

  predicate StartsAnonymous(s: string, p: nat) {
    At(s, p, 'a') && At(s, p + 1, 'n') && At(s, p + 2, 'o') && At(s, p + 3, 'n') && At(s, p + 4, '_')
  }

  function ObjectOrHash(s: string, p: nat): (r: (Kind, nat))
    requires At(s, p, '#')
    ensures p < r.1 <= |s| && IsWordKind(r.0)
  {
    var q := p + 1;
    if StartsAnonymous(s, q) then
      var u := UuidEnd(s, q + 5);
      if u.Some? then (ObjectLit, u.value) else (Hash, q)
    else
      var u := UuidEnd(s, q);
      if u.Some? then (ObjectLit, u.value) else ObjectNumber(s, p)
  }

  function ObjectNumber(s: string, p: nat): (r: (Kind, nat))
    requires At(s, p, '#')
    ensures p < r.1 <= |s| && IsWordKind(r.0)
  {
    var q := p + 1;
    var d := if At(s, q, '+') || At(s, q, '-') then q + 1 else q;
    var e := DigitsEnd(s, d);
    if e > d then (ObjectLit, e) else (Hash, q)
  }

  // The exponent, if the number has one.
  function ExponentEnd(s: string, p: nat): (e: nat)
    requires p <= |s|
    ensures p <= e <= |s|
  {
    if At(s, p, 'e') || At(s, p, 'E') then
      var d := if At(s, p + 1, '+') || At(s, p + 1, '-') then p + 2 else p + 1;
      var e := DigitsEnd(s, d);
      if e > d then e else p
    else p
  }

  function Number(s: string, p: nat): (r: (Kind, nat))
    requires p < |s| && (IsDigit(s[p]) || s[p] == '.' || s[p] == '+' || s[p] == '-')
    ensures p < r.1 <= |s|
    ensures IsPlainKind(r.0) && r.0 != Semi
  {
    var q := if s[p] == '+' || s[p] == '-' then p + 1 else p;
    if At(s, q, '.') then
      var e := DigitsEnd(s, q + 1);
      if e == q + 1 then (Dot, p + 1) else (FloatLit, ExponentEnd(s, e))
    else
      var e := DigitsEnd(s, q);
      if e == q then (Error, p + 1) else AfterDigits(s, e)
  }

  // A number whose leading digits end at p.
  function AfterDigits(s: string, p: nat): (r: (Kind, nat))
    requires p <= |s|
    ensures p <= r.1 <= |s| && IsWordKind(r.0)
  {
    if At(s, p, '.') && !At(s, p + 1, '.') then (FloatLit, ExponentEnd(s, DigitsEnd(s, p + 1)))
    else
      var e := ExponentEnd(s, p);
      (if e > p then FloatLit else IntLit, e)
  }

  // ---------------------------------------------------------------- strings and comments

  // Past the character after a backslash, and what belongs to its escape.
  function EscapeEnd(s: string, p: nat): (e: nat)
    requires p < |s|
    ensures p < e <= |s|
    ensures forall i :: p < i < e ==> InString(s[i])
  {
    match s[p]
    case 'x' => HexEscapeEnd(s, p + 1, 2)
    case 'u' => HexEscapeEnd(s, p + 1, 4)
    case 'U' => HexEscapeEnd(s, p + 1, 8)
    case '\r' => if At(s, p + 1, '\n') then p + 2 else p + 1
    case _ => p + 1
  }

  function HexEscapeEnd(s: string, p: nat, count: nat): (e: nat)
    requires p <= |s|
    ensures p <= e <= |s|
    ensures forall i :: p <= i < e ==> InString(s[i])
  {
    var h := HexEnd(s, p, count);
    if h.1 then h.0 else SkipWhile(s, h.0, InString)
  }

  // The rest of a string literal: its end, and whether it was closed.
  function StringRest(s: string, p: nat): (r: (nat, bool))
    requires p <= |s|
    ensures p <= r.0 <= |s| && (r.1 ==> p < r.0) && (!r.1 ==> r.0 == |s|)
    decreases |s| - p
  {
    if p == |s| then (p, false)
    else if s[p] == '"' then (p + 1, true)
    else if s[p] == '\\' then
      if p + 1 == |s| then (p + 1, false) else StringRest(s, EscapeEnd(s, p + 1))
    else StringRest(s, p + 1)
  }

  // The rest of a binary literal: its end, whether it is well formed, and whether a quote closed it.
  // A character that does not belong makes it an error, which goes on to the next quote or line end.
  function BinaryRest(s: string, p: nat): (r: (nat, Kind, bool))
    requires p <= |s|
    ensures p <= r.0 <= |s|
    ensures r.1 == BinaryLit || r.1 == Error
  {
    var e := SkipWhile(s, p, IsBase64);
    if e == |s| then (e, Error, false)
    else if s[e] == '"' then (e + 1, BinaryLit, true)
    else
      var q := BrokenEnd(s, e + 1);
      (q.0, Error, q.1)
  }

  // The rest of a broken binary literal, and whether a quote closed it.
  function BrokenEnd(s: string, p: nat): (r: (nat, bool))
    requires p <= |s|
    ensures p <= r.0 <= |s|
  {
    var q := SkipWhile(s, p, InBrokenBinary);
    if At(s, q, '"') then (q + 1, true) else (q, false)
  }

  function BlockRest(s: string, p: nat): (r: (nat, bool))
    requires p <= |s|
    ensures p <= r.0 <= |s| && (r.1 ==> p + 2 <= r.0) && (!r.1 ==> r.0 == |s|)
    decreases |s| - p
  {
    if p == |s| then (p, false)
    else if At(s, p, '*') && At(s, p + 1, '/') then (p + 2, true)
    else BlockRest(s, p + 1)
  }

  // ---------------------------------------------------------------- one token

  function OneCharacter(c: char): (k: Kind)
    ensures IsPlainKind(k)
    ensures k == Semi <==> c == ';'
  {
    match c
    case ';' => Semi
    case '(' => LParen
    case ')' => RParen
    case '{' => LBrace
    case '}' => RBrace
    case '[' => LBracket
    case ']' => RBracket
    case ',' => Comma
    case ':' => Colon
    case '@' => AtSign
    case '$' => Dollar
    case '`' => Backtick
    case '.' => Dot
    case _ => OneSign(c)
  }

  function OneSign(c: char): (k: Kind)
    ensures IsPlainKind(k) && k != Semi
  {
    match c
    case '?' => Question
    case '~' => Tilde
    case '^' => Caret
    case '|' => Pipe
    case '!' => Bang
    case '=' => Eq
    case '-' => Minus
    case '+' => Plus
    case '*' => Star
    case '/' => Slash
    case '%' => Percent
    case '<' => Lt
    case '>' => Gt
    case _ => Error
  }

  function TwoCharacters(c: char, d: char): (k: Option<Kind>)
    ensures k.Some? ==> IsWordKind(k.value)
  {
    match (c, d)
    case ('^', '.') => Some(CaretDot)
    case ('&', '&') => Some(AmpAmp)
    case ('&', '.') => Some(AmpDot)
    case ('|', '|') => Some(PipePipe)
    case ('|', '.') => Some(PipeDot)
    case ('!', '=') => Some(BangEq)
    case ('=', '=') => Some(EqEq)
    case ('=', '>') => Some(FatArrow)
    case ('-', '>') => Some(Arrow)
    case ('<', '<') => Some(Shl)
    case ('<', '=') => Some(LtEq)
    case ('>', '>') => Some(Shr)
    case ('>', '=') => Some(GtEq)
    case ('.', '.') => Some(DotDot)
    case _ => None
  }

  // Operators and punctuation: the longest of one to three characters.
  function Operator(s: string, p: nat): (r: (Kind, nat))
    requires p < |s|
    ensures p < r.1 <= |s| && IsPlainKind(r.0)
    ensures r.0 == Semi <==> s[p] == ';'
  {
    if At(s, p, '>') && At(s, p + 1, '>') && At(s, p + 2, '>') then (LShr, p + 3)
    else
      var pair := if p + 1 < |s| then TwoCharacters(s[p], s[p + 1]) else None;
      if pair.Some? then (pair.value, p + 2) else (OneCharacter(s[p]), p + 1)
  }

  predicate CanStartSignedNumber(prev: Option<Kind>) {
    prev.None? || !CanEndExpr(prev.value)
  }

  // A sign that starts a number, or a leading-dot float.
  predicate StartsNumber(s: string, p: nat, prev: Option<Kind>)
    requires p < |s|
  {
    var signed := p + 1 < |s| && (IsDigit(s[p + 1]) || (s[p + 1] == '.' && p + 2 < |s| && IsDigit(s[p + 2])));
    match s[p]
    case '+' => CanStartSignedNumber(prev) && signed
    case '-' => !At(s, p + 1, '>') && CanStartSignedNumber(prev) && signed
    case '.' => CanStartSignedNumber(prev) && p + 1 < |s| && IsDigit(s[p + 1])
    case c => IsDigit(c)
  }

  predicate IsLineComment(s: string, p: nat) { At(s, p, '/') && At(s, p + 1, '/') }

  predicate IsBlockComment(s: string, p: nat) { At(s, p, '/') && At(s, p + 1, '*') }

  predicate IsBinary(s: string, p: nat) { At(s, p, 'b') && At(s, p + 1, '"') }

  // Everything but strings, binary literals and comments.
  function PlainToken(s: string, p: nat, prev: Option<Kind>): (r: (Kind, nat))
    requires p < |s|
    ensures p < r.1 <= |s| && IsPlainKind(r.0)
    ensures r.0 == Semi <==> s[p] == ';'
  {
    var c := s[p];
    if IsBlank(c) then (Whitespace, SkipWhile(s, p, IsBlank))
    else if c == '\n' then (Newline, p + 1)
    else if c == '\r' then (Newline, if At(s, p + 1, '\n') then p + 2 else p + 1)
    else if c == '\'' then SymbolOrApostrophe(s, p)
    else if c == '#' then ObjectOrHash(s, p)
    else if StartsNumber(s, p, prev) then Number(s, p)
    else if IsIdentStart(c) then IdentLike(s, p)
    else Operator(s, p)
  }

  // The kind and end of the token at p.
  function TokenAt(s: string, p: nat, prev: Option<Kind>): (r: (Kind, nat))
    requires p < |s|
    ensures p < r.1 <= |s| && r.0 != Eof
  {
    if IsLineComment(s, p) then (LineComment, SkipWhile(s, p + 2, InLine))
    else if IsBlockComment(s, p) then
      var b := BlockRest(s, p + 2);
      (if b.1 then BlockComment else Error, b.0)
    else if s[p] == '"' then
      var r := StringRest(s, p + 1);
      (if r.1 then StringLit else Error, r.0)
    else if IsBinary(s, p) then
      var r := BinaryRest(s, p + 2);
      (r.1, r.0)
    else PlainToken(s, p, prev)
  }

  function Significant(prev: Option<Kind>, k: Kind): Option<Kind> {
    if !IsTrivia(k) && k != Error then Some(k) else prev
  }

  function LexFrom(s: string, p: nat, prev: Option<Kind>): (ts: seq<Token>)
    requires p <= |s|
    decreases |s| - p
  {
    if p == |s| then [Token(Eof, p, p)]
    else
      var (kind, end) := TokenAt(s, p, prev);
      [Token(kind, p, end)] + LexFrom(s, end, Significant(prev, kind))
  }

  function Lex(s: string): seq<Token> {
    LexFrom(s, 0, None)
  }

  // ---------------------------------------------------------------- tiling

  // Contiguous from p to the end, nonempty but for the single end-of-file token.
  ghost predicate Tiles(s: string, p: nat, ts: seq<Token>) {
    && ts != []
    && ts[0].start == p
    && ts[|ts| - 1] == Token(Eof, |s|, |s|)
    && (forall i :: 0 <= i < |ts| - 1 ==> ts[i].start < ts[i].end == ts[i + 1].start && ts[i].kind != Eof)
  }

  lemma {:induction false} LexTiles(s: string, p: nat, prev: Option<Kind>)
    requires p <= |s|
    ensures Tiles(s, p, LexFrom(s, p, prev))
    decreases |s| - p
  {
    if p < |s| {
      var (kind, end) := TokenAt(s, p, prev);
      LexTiles(s, end, Significant(prev, kind));
      var rest := LexFrom(s, end, Significant(prev, kind));
      var ts := LexFrom(s, p, prev);
      assert ts == [Token(kind, p, end)] + rest;
      forall i | 0 <= i < |ts| - 1
        ensures ts[i].start < ts[i].end == ts[i + 1].start && ts[i].kind != Eof
      {
        if i > 0 { assert ts[i] == rest[i - 1] && ts[i + 1] == rest[i]; }
      }
    }
  }

  function TextOf(s: string, t: Token): string
    requires t.start <= t.end <= |s|
  {
    s[t.start..t.end]
  }

  function Texts(s: string, ts: seq<Token>): string
    requires forall t :: t in ts ==> t.start <= t.end <= |s|
  {
    if ts == [] then "" else TextOf(s, ts[0]) + Texts(s, ts[1..])
  }

  lemma {:induction false} LexInBounds(s: string, p: nat, prev: Option<Kind>)
    requires p <= |s|
    ensures forall t :: t in LexFrom(s, p, prev) ==> p <= t.start <= t.end <= |s|
    decreases |s| - p
  {
    if p < |s| {
      var (kind, end) := TokenAt(s, p, prev);
      LexInBounds(s, end, Significant(prev, kind));
    }
  }

  // Putting the tokens' texts back together gives the source.
  lemma {:induction false} LexKeepsText(s: string, p: nat, prev: Option<Kind>)
    requires p <= |s|
    ensures (forall t :: t in LexFrom(s, p, prev) ==> t.start <= t.end <= |s|) && Texts(s, LexFrom(s, p, prev)) == s[p..]
    decreases |s| - p
  {
    LexInBounds(s, p, prev);
    if p < |s| {
      var (kind, end) := TokenAt(s, p, prev);
      LexKeepsText(s, end, Significant(prev, kind));
      TextsStep(s, Token(kind, p, end), LexFrom(s, end, Significant(prev, kind)));
    } else {
      TextsStep(s, Token(Eof, p, p), []);
    }
  }

  lemma TextsStep(s: string, t: Token, rest: seq<Token>)
    requires t.start <= t.end <= |s|
    requires forall u :: u in rest ==> u.start <= u.end <= |s|
    requires Texts(s, rest) == s[t.end..]
    ensures forall u :: u in [t] + rest ==> u.start <= u.end <= |s|
    ensures Texts(s, [t] + rest) == s[t.start..]
  {
    assert ([t] + rest)[1..] == rest;
    assert s[t.start..] == s[t.start..t.end] + s[t.end..];
  }

}
