/**
 The lexer as it runs: a position that moves through the source, and the tokens pushed so far. Every
 method is proved against the functions of module Lexer.
 */
module SourceLexer {

  import opened Prelude
  import opened MooText
  import L = Lexer
  import LexerForms

  // Moving the next token from what is left to lex to the tokens pushed changes nothing together.
  lemma PushKeeps(source: string, tokens: seq<L.Token>, start: nat, prev: Option<L.Kind>)
    requires start < |source|
    ensures var (kind, end) := L.TokenAt(source, start, prev);
      tokens + [L.Token(kind, start, end)] + L.LexFrom(source, end, L.Significant(prev, kind))
      == tokens + L.LexFrom(source, start, prev)
  {
    var (kind, end) := L.TokenAt(source, start, prev);
    var rest := L.LexFrom(source, end, L.Significant(prev, kind));
    assert tokens + [L.Token(kind, start, end)] + rest == tokens + ([L.Token(kind, start, end)] + rest);
  }

  class Lexer {
    const source: string
    var pos: nat
    var tokens: seq<L.Token>
    var prevSignificant: Option<L.Kind>

    constructor (source: string)
      ensures this.source == source && pos == 0 && tokens == [] && prevSignificant == None
    {
      this.source := source;
      pos := 0;
      tokens := [];
      prevSignificant := None;
    }

    // ---------------------------------------------------------------- scans

    method ConsumeWhile(test: char -> bool)
      requires pos <= |source|
      modifies `pos
      ensures pos == SkipWhile(source, old(pos), test)
    {
      while pos < |source| && test(source[pos])
        invariant old(pos) <= pos <= |source|
        invariant SkipWhile(source, pos, test) == SkipWhile(source, old(pos), test)
        decreases |source| - pos
      {
        pos := pos + 1;
      }
    }

    method ConsumeNumberDigits() returns (some: bool)
      requires pos <= |source|
      modifies `pos
      ensures pos == L.DigitsEnd(source, old(pos))
      ensures some == (pos > old(pos))
    {
      some := false;
      while pos < |source|
        invariant old(pos) <= pos <= |source|
        invariant L.DigitsEnd(source, pos) == L.DigitsEnd(source, old(pos))
        invariant some ==> pos > old(pos)
        invariant !some && pos > old(pos) ==> pos < |source| && IsDigit(source[pos])
        decreases |source| - pos
      {
        if IsDigit(source[pos]) {
          some := true;
        } else if !(source[pos] == '_' && pos + 1 < |source| && IsDigit(source[pos + 1])) {
          break;
        }
        pos := pos + 1;
      }
    }

    method ConsumeHexDigits(count: nat) returns (all: bool)
      requires pos <= |source|
      modifies `pos
      ensures (pos, all) == L.HexEnd(source, old(pos), count)
    {
      var left: nat := count;
      while left > 0
        invariant old(pos) <= pos <= |source| && left <= count
        invariant L.HexEnd(source, pos, left) == L.HexEnd(source, old(pos), count)
      {
        if pos == |source| || !IsHex(source[pos]) { return false; }
        pos := pos + 1;
        left := left - 1;
      }
      all := true;
    }

    // ---------------------------------------------------------------- strings and comments

    method ConsumeHexEscape(count: nat)
      requires pos <= |source|
      modifies `pos
      ensures pos == L.HexEscapeEnd(source, old(pos), count)
    {
      var all := ConsumeHexDigits(count);
      if !all { ConsumeWhile(InString); }
    }

    // The character after a backslash, and what belongs to it.
    method ConsumeEscape()
      requires pos < |source|
      modifies `pos
      ensures pos == L.EscapeEnd(source, old(pos))
    {
      var c := source[pos];
      pos := pos + 1;
      if c == 'x' {
        ConsumeHexEscape(2);
      } else if c == 'u' {
        ConsumeHexEscape(4);
      } else if c == 'U' {
        ConsumeHexEscape(8);
      } else if c == '\r' && At(source, pos, '\n') {
        pos := pos + 1;
      }
    }

    method LexString() returns (kind: L.Kind)
      requires At(source, pos, '"')
      modifies `pos
      ensures var r := L.StringRest(source, old(pos) + 1); pos == r.0 && kind == if r.1 then L.StringLit else L.Error
    {
      hide L.EscapeEnd;
      pos := pos + 1;
      while pos < |source|
        invariant old(pos) < pos <= |source|
        invariant L.StringRest(source, pos) == L.StringRest(source, old(pos) + 1)
        decreases |source| - pos
      {
        var c := source[pos];
        if c == '"' {
          pos := pos + 1;
          return L.StringLit;
        } else if c == '\\' {
          pos := pos + 1;
          if pos == |source| { return L.Error; }
          ConsumeEscape();
        } else {
          pos := pos + 1;
        }
      }
      kind := L.Error;
    }

    method LexBinaryLiteral() returns (kind: L.Kind)
      requires L.IsBinary(source, pos)
      modifies `pos
      ensures var r := L.BinaryRest(source, old(pos) + 2); pos == r.0 && kind == r.1
    {
      hide L.BrokenEnd, SkipWhile, IsBase64;
      pos := pos + 2;
      ConsumeWhile(IsBase64);
      if pos == |source| { return L.Error; }
      if source[pos] == '"' {
        pos := pos + 1;
        return L.BinaryLit;
      }
      pos := pos + 1;
      ConsumeBroken();
      kind := L.Error;
    }

    method ConsumeBroken()
      requires pos <= |source|
      modifies `pos
      ensures pos == L.BrokenEnd(source, old(pos)).0
    {
      ConsumeWhile(InBrokenBinary);
      if pos < |source| && source[pos] == '"' { pos := pos + 1; }
    }

    method LexBlockComment() returns (kind: L.Kind)
      requires L.IsBlockComment(source, pos)
      modifies `pos
      ensures var r := L.BlockRest(source, old(pos) + 2); pos == r.0 && kind == if r.1 then L.BlockComment else L.Error
    {
      pos := pos + 2;
      while pos < |source|
        invariant old(pos) + 2 <= pos <= |source|
        invariant L.BlockRest(source, pos) == L.BlockRest(source, old(pos) + 2)
        decreases |source| - pos
      {
        if source[pos] == '*' && At(source, pos + 1, '/') {
          pos := pos + 2;
          return L.BlockComment;
        }
        pos := pos + 1;
      }
      kind := L.Error;
    }

    // ---------------------------------------------------------------- words and numbers

    method LexIdentLike() returns (kind: L.Kind)
      requires pos < |source| && IsIdentStart(source[pos])
      modifies `pos
      ensures (kind, pos) == L.IdentLike(source, old(pos))
    {
      var start := pos;
      pos := pos + 1;
      ConsumeIdent();
      kind := L.WordKind(source[start..pos]);
      kind := LexQualifier(kind);
    }

    method ConsumeIdent()
      requires pos <= |source|
      modifies `pos
      ensures pos == L.IdentEnd(source, old(pos))
    {
      ConsumeWhile(IsIdentContinue);
    }

    method LexQualifier(word: L.Kind) returns (kind: L.Kind)
      requires pos <= |source| && L.IsWordKind(word)
      modifies `pos
      ensures (kind, pos) == L.Qualified(source, old(pos), word)
    {
      kind := word;
      if kind == L.Ident && L.IsQualifier(source, pos) {
        pos := pos + 2;
        ConsumeIdent();
        kind := L.QualifiedName;
      }
    }

    method LexSymbolOrApostrophe() returns (kind: L.Kind)
      requires At(source, pos, '\'')
      modifies `pos
      ensures (kind, pos) == L.SymbolOrApostrophe(source, old(pos))
    {
      pos := pos + 1;
      if pos < |source| && IsIdentStart(source[pos]) {
        pos := pos + 1;
        ConsumeIdent();
        return L.SymbolLit;
      }
      kind := L.Apostrophe;
    }

    method ConsumeUuidBody() returns (ok: bool)
      requires pos <= |source|
      modifies `pos
      ensures ok == L.UuidEnd(source, old(pos)).Some?
      ensures pos == if ok then L.UuidEnd(source, old(pos)).value else old(pos)
    {
      var start := pos;
      ok := ConsumeHexDigits(6);
      if !ok || !At(source, pos, '-') {
        pos := start;
        return false;
      }
      pos := pos + 1;
      ok := ConsumeHexDigits(10);
      if !ok { pos := start; }
    }

    method LexObjectOrHash() returns (kind: L.Kind)
      requires At(source, pos, '#')
      modifies `pos
      ensures (kind, pos) == L.ObjectOrHash(source, old(pos))
    {
      hide L.UuidEnd, L.DigitsEnd, L.IsWordKind;
      var start := pos;
      pos := pos + 1;
      if L.StartsAnonymous(source, pos) {
        pos := pos + 5;
        var ok := ConsumeUuidBody();
        if ok { return L.ObjectLit; }
        pos := start + 1;
        return L.Hash;
      }
      var ok := ConsumeUuidBody();
      if ok { return L.ObjectLit; }
      var signPos := pos;
      if At(source, pos, '+') || At(source, pos, '-') { pos := pos + 1; }
      var digits := ConsumeNumberDigits();
      if digits { return L.ObjectLit; }
      pos := signPos;
      kind := L.Hash;
    }

    // The exponent, if there is one: a number without one keeps its position.
    method ConsumeExponent() returns (some: bool)
      requires pos <= |source|
      modifies `pos
      ensures pos == L.ExponentEnd(source, old(pos)) && some == (pos > old(pos))
    {
      var save := pos;
      if At(source, pos, 'e') || At(source, pos, 'E') {
        pos := pos + 1;
        if At(source, pos, '+') || At(source, pos, '-') { pos := pos + 1; }
        some := ConsumeNumberDigits();
        if some { return true; }
        pos := save;
      }
      some := false;
    }

    method LexNumber() returns (kind: L.Kind)
      requires pos < |source|
      requires IsDigit(source[pos]) || source[pos] == '.' || source[pos] == '+' || source[pos] == '-'
      modifies `pos
      ensures (kind, pos) == L.Number(source, old(pos))
    {
      var start := pos;
      if source[pos] == '+' || source[pos] == '-' { pos := pos + 1; }
      if At(source, pos, '.') {
        pos := pos + 1;
        var fraction := ConsumeNumberDigits();
        if !fraction {
          pos := start + 1;
          return L.Dot;
        }
        var _ := ConsumeExponent();
        return L.FloatLit;
      }
      var digits := ConsumeNumberDigits();
      if !digits {
        pos := start + 1;
        return L.Error;
      }
      kind := LexAfterDigits();
    }

    method LexAfterDigits() returns (kind: L.Kind)
      requires pos <= |source|
      modifies `pos
      ensures (kind, pos) == L.AfterDigits(source, old(pos))
    {
      if At(source, pos, '.') && !At(source, pos + 1, '.') {
        pos := pos + 1;
        var _ := ConsumeNumberDigits();
        var _ := ConsumeExponent();
        return L.FloatLit;
      }
      var exponent := ConsumeExponent();
      kind := if exponent then L.FloatLit else L.IntLit;
    }

    // ---------------------------------------------------------------- the main loop

    method LexPlain() returns (kind: L.Kind)
      requires pos < |source|
      modifies `pos
      ensures (kind, pos) == L.PlainToken(source, old(pos), prevSignificant)
    {
      var c := source[pos];
      if IsBlank(c) {
        ConsumeWhile(IsBlank);
        kind := L.Whitespace;
      } else if c == '\n' {
        pos := pos + 1;
        kind := L.Newline;
      } else if c == '\r' {
        pos := pos + 1;
        if At(source, pos, '\n') { pos := pos + 1; }
        kind := L.Newline;
      } else if c == '\'' {
        kind := LexSymbolOrApostrophe();
      } else if c == '#' {
        kind := LexObjectOrHash();
      } else if L.StartsNumber(source, pos, prevSignificant) {
        kind := LexNumber();
      } else if IsIdentStart(c) {
        kind := LexIdentLike();
      } else {
        var op := L.Operator(source, pos);
        kind, pos := op.0, op.1;
      }
    }

    method LexToken() returns (kind: L.Kind)
      requires pos < |source|
      modifies `pos
      ensures (kind, pos) == L.TokenAt(source, old(pos), prevSignificant)
      ensures LexerForms.Spelled(source, old(pos), (kind, pos))
    {
      hide LexerForms.Spelled;
      LexerForms.TokenSpelled(source, pos, prevSignificant);
      if L.IsLineComment(source, pos) {
        pos := pos + 2;
        ConsumeWhile(InLine);
        kind := L.LineComment;
      } else if L.IsBlockComment(source, pos) {
        kind := LexBlockComment();
      } else if source[pos] == '"' {
        kind := LexString();
      } else if L.IsBinary(source, pos) {
        kind := LexBinaryLiteral();
      } else {
        kind := LexPlain();
      }
    }

    method PushToken(kind: L.Kind, start: nat, end: nat)
      modifies `tokens, `prevSignificant
      ensures tokens == old(tokens) + [L.Token(kind, start, end)]
      ensures prevSignificant == L.Significant(old(prevSignificant), kind)
    {
      tokens := tokens + [L.Token(kind, start, end)];
      if !L.IsTrivia(kind) && kind != L.Error { prevSignificant := Some(kind); }
    }

    // Started fresh, pushes the tokens of the whole source.
    method Lex()
      requires pos == 0 && tokens == [] && prevSignificant == None
      modifies this
      ensures tokens == L.Lex(source)
      ensures forall t :: t in tokens && t.kind != L.Eof ==> LexerForms.Spelled(source, t.start, (t.kind, t.end))
    {
      hide LexerForms.Spelled;
      LexerForms.LexSpelled(source, 0, None);
      while pos < |source|
        invariant pos <= |source|
        invariant tokens + L.LexFrom(source, pos, prevSignificant) == L.Lex(source)
        decreases |source| - pos
      {
        var start := pos;
        PushKeeps(source, tokens, start, prevSignificant);
        var kind := LexToken();
        PushToken(kind, start, pos);
      }
      tokens := tokens + [L.Token(L.Eof, pos, pos)];
    }
  }

}
