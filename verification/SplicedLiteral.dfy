/**
 Splicing an escaped value between quotes into source code. It becomes one string token, and changes no other, exactly
 when the code before it ends outside strings and comments and not in the letter that starts a binary literal.
 */
module SplicedLiteral {

  import opened Prelude
  import opened MooText
  import opened Lexer
  import opened TextScanner
  import opened ScannerAgreement
  import opened StatementTerminator
  import opened LexerWindow
  import opened LexerPrefix

  // The last token of t starts at p and is the single letter b.
  predicate LastIsB(t: string, p: nat) { p + 1 == |t| && At(t, p, 'b') }

  // The text ends outside strings and comments, and a quote after it starts a token.
  predicate EndsInCode(t: string, ts: seq<Token>) {
    LexEnd(t, ts) == CodeRole && !(|ts| > 1 && LastIsB(t, ts[|ts| - 2].start))
  }

  lemma EndsBeforeQuote(t: string, ts: seq<Token>)
    ensures EndsInCode(t, ts) <==> EndsBefore(t, ts, '"')
  {
  }

  // ---------------------------------------------------------------- splicing

  function Splice(before: string, quoted: string, after: string): string {
    before + "\"" + quoted + "\"" + after
  }

  // Where the code after the literal starts.
  function After(before: string, v: string): nat {
    |before| + |Escaped(v)| + 2
  }

  lemma SpliceParts(before: string, v: string, after: string)
    ensures var s := Splice(before, Escaped(v), after);
      && Window(s, 0, before) && |before| < |s|
      && At(s, |before|, '"') && StandsAt(s, |before| + 1, Escaped(v)) && At(s, After(before, v) - 1, '"')
      && Window(s, After(before, v), after) && Ends(s, After(before, v), after)
  {
  }

  lemma QuotedIsOneToken(s: string, p: nat, v: string, prev: Option<Kind>)
    requires At(s, p, '"') && StandsAt(s, p + 1, Escaped(v)) && At(s, p + 1 + |Escaped(v)|, '"')
    ensures TokenAt(s, p, prev) == (StringLit, p + |Escaped(v)| + 2)
  {
    hide PlainToken;
    hide StringScan;
    hide Escaped;
    EscapedStaysInside(s, p + 1, v);
    StringEndsAgree(s, p + 1);
  }

  // The literal's own token.
  function Spliced(before: string, v: string): Token {
    Token(StringLit, |before|, After(before, v))
  }

  lemma LiteralThenAfter(before: string, v: string, after: string, prev: Option<Kind>)
    ensures |before| <= |Splice(before, Escaped(v), after)|
    ensures LexFrom(Splice(before, Escaped(v), after), |before|, prev)
         == [Spliced(before, v)] + Shifted(LexFrom(after, 0, Some(StringLit)), After(before, v))
  {
    hide TokenAt, LexFrom, Front, Window, Escaped, Splice, Shifted;
    var s, q := Splice(before, Escaped(v), after), After(before, v);
    SpliceParts(before, v, after);
    QuotedIsOneToken(s, |before|, v, prev);
    FirstToken(s, |before|, prev);
    LexSuffix(s, q, after, 0, q, Some(StringLit));
  }

  // Spliced where a token may start, the value is one string token. The tokens before it are those of the code
  // before it, and the tokens after it those of the code after it, read after a string.
  lemma SplicedIsOneToken(before: string, v: string, after: string)
    requires EndsInCode(before, Lex(before))
    ensures Lex(Splice(before, EscapeMooString(v), after))
         == Front(Lex(before)) + [Spliced(before, v)] + Shifted(LexFrom(after, 0, Some(StringLit)), After(before, v))
  {
    hide LexFrom, Front, Window, Escaped, Splice, Shifted, EndsInCode, Carry, After, EscapeMooString;
    EscapesEachChar(v);
    var s, front := Splice(before, Escaped(v), after), Front(Lex(before));
    SpliceParts(before, v, after);
    EndsBeforeQuote(before, Lex(before));
    LexPrefix(s, before, 0, None, '"');
    LiteralThenAfter(before, v, after, Carry(None, front));
    JoinTokens(front, [Spliced(before, v)], Shifted(LexFrom(after, 0, Some(StringLit)), After(before, v)));
  }

  // ---------------------------------------------------------------- and only there

  // A run that reaches the quote, where the quote belongs to it.
  lemma {:induction false} RunGoesOn(s: string, t: string, p: nat, test: char -> bool)
    requires Window(s, 0, t) && At(s, |t|, '"') && p <= |t| && SkipWhile(t, p, test) == |t| && test('"')
    ensures SkipWhile(s, p, test) > |t|
    decreases |t| - p
  {
    if p < |t| { RunGoesOn(s, t, p + 1, test); }
  }

  lemma {:induction false} StringGoesOn(s: string, t: string, p: nat, escaped: bool)
    requires Window(s, 0, t) && At(s, |t|, '"') && p <= |t| && !StringScan(t, p, escaped).1
    ensures StringScan(s, p, escaped).0 > |t|
    decreases |t| - p
  {
    if p < |t| { StringGoesOn(s, t, p + 1, !escaped && t[p] == '\\'); }
  }

  lemma {:induction false} BlockGoesOn(s: string, t: string, p: nat)
    requires Window(s, 0, t) && At(s, |t|, '"') && p <= |t| && !BlockRest(t, p).1
    ensures BlockRest(s, p).0 > |t|
    decreases |t| - p
  {
    if p < |t| {
      AtWindow(s, 0, t, p, p, '*');
      AtWindow(s, 0, t, p + 1, p + 1, '/');
      BlockGoesOn(s, t, p + 1);
    }
  }

  lemma BrokenGoesOn(s: string, t: string, p: nat)
    requires Window(s, 0, t) && At(s, |t|, '"') && p <= |t| && BrokenEnd(t, p) == (|t|, false)
    ensures BrokenEnd(s, p).0 > |t|
  {
    hide SkipWhile;
    RunWindow(s, 0, t, p, p, InBrokenBinary);
  }

  lemma BinaryGoesOn(s: string, t: string, p: nat)
    requires Window(s, 0, t) && At(s, |t|, '"') && p <= |t|
    requires !BinaryRest(t, p).2 && BinaryRest(t, p).0 == |t|
    ensures BinaryRest(s, p).0 > |t|
  {
    hide Window, SkipWhile, BrokenEnd;
    var e := SkipWhile(t, p, IsBase64);
    RunWindow(s, 0, t, p, p, IsBase64);
    CharWindow(s, 0, t, e, e);
    if e < |t| { BrokenGoesOn(s, t, e + 1); }
  }

  // A last token that is open takes the quote in, and so does the letter b.
  lemma OpenGoesOn(s: string, t: string, p: nat, prev: Option<Kind>)
    requires Window(s, 0, t) && At(s, |t|, '"') && p < |t| && TokenAt(t, p, prev).1 == |t| && !LastIsB(t, p)
    requires IsLineComment(t, p) || (IsBlockComment(t, p) && !BlockRest(t, p + 2).1)
    ensures TokenAt(s, p, prev).1 > |t|
  {
    hide Window, PlainToken, BlockRest, StringRest, BinaryRest, SkipWhile;
    MarksWindow(s, 0, t, p, p);
    if IsLineComment(t, p) { RunGoesOn(s, t, p + 2, InLine); } else { BlockGoesOn(s, t, p + 2); }
  }

  lemma OpenStringGoesOn(s: string, t: string, p: nat, prev: Option<Kind>)
    requires Window(s, 0, t) && At(s, |t|, '"') && At(t, p, '"') && !StringRest(t, p + 1).1
    ensures TokenAt(s, p, prev).1 > |t|
  {
    hide Window, PlainToken, BlockRest, StringRest, BinaryRest, SkipWhile, StringScan;
    MarksWindow(s, 0, t, p, p);
    StringEndsAgree(t, p + 1);
    StringEndsAgree(s, p + 1);
    StringGoesOn(s, t, p + 1, false);
  }

  lemma OpenBinaryGoesOn(s: string, t: string, p: nat, prev: Option<Kind>)
    requires Window(s, 0, t) && At(s, |t|, '"') && IsBinary(t, p) && !BinaryRest(t, p + 2).2 && BinaryRest(t, p + 2).0 == |t|
    ensures TokenAt(s, p, prev).1 > |t|
  {
    hide Window, PlainToken, BlockRest, StringRest, BinaryRest, SkipWhile;
    MarksWindow(s, 0, t, p, p);
    BinaryGoesOn(s, t, p + 2);
  }

  lemma LetterGoesOn(s: string, t: string, p: nat, prev: Option<Kind>)
    requires Window(s, 0, t) && At(s, |t|, '"') && LastIsB(t, p)
    ensures TokenAt(s, p, prev).1 > |t|
  {
    hide PlainToken, BlockRest, StringRest, BinaryRest, SkipWhile;
    assert IsBinary(s, p);
  }

  // What a last token that is not closed can be.
  lemma OpenIs(t: string, p: nat, prev: Option<Kind>)
    requires p < |t| && !ClosedAt(t, p, prev, '"')
    ensures
      || IsLineComment(t, p)
      || (IsBlockComment(t, p) && !BlockRest(t, p + 2).1)
      || (At(t, p, '"') && !StringRest(t, p + 1).1)
      || (IsBinary(t, p) && !BinaryRest(t, p + 2).2 && BinaryRest(t, p + 2).0 == |t|)
  {
    hide PlainToken, BlockRest, StringRest, BinaryRest, SkipWhile;
    if IsBinary(t, p) { BinaryOpen(t, p); }
  }

  lemma LastGoesOn(s: string, t: string, p: nat, prev: Option<Kind>)
    requires Window(s, 0, t) && At(s, |t|, '"') && p < |t| && TokenAt(t, p, prev).1 == |t|
    requires !ClosedAt(t, p, prev, '"') || LastIsB(t, p)
    ensures TokenAt(s, p, prev).1 > |t|
  {
    hide Window, TokenAt, BlockRest, StringRest, BinaryRest, ClosedAt;
    if LastIsB(t, p) {
      LetterGoesOn(s, t, p, prev);
    } else {
      OpenIs(t, p, prev);
      if IsLineComment(t, p) || IsBlockComment(t, p) { OpenGoesOn(s, t, p, prev); }
      else if At(t, p, '"') { OpenStringGoesOn(s, t, p, prev); }
      else { OpenBinaryGoesOn(s, t, p, prev); }
    }
  }

  lemma LastIsOpen(t: string, p: nat, prev: Option<Kind>)
    requires p < |t| && TokenAt(t, p, prev).1 == |t| && !EndsBefore(t, LexFrom(t, p, prev), '"')
    ensures !ClosedAt(t, p, prev, '"') || LastIsB(t, p)
  {
    hide TokenAt, LexFrom, OpenRole;
    FirstToken(t, p, prev);
    var ts := LexFrom(t, p, prev);
    assert ts[|ts| - 2] == ts[0];
  }

  // Where the code before the quote ends otherwise, no token starts at the quote.
  lemma {:induction false} NoTokenThere(s: string, t: string, p: nat, prev: Option<Kind>)
    requires Window(s, 0, t) && At(s, |t|, '"') && p < |t| && !EndsBefore(t, LexFrom(t, p, prev), '"')
    ensures forall u :: u in LexFrom(s, p, prev) ==> u.start != |t|
    decreases |t| - p
  {
    hide TokenAt, Window, LexFrom, EndsBefore;
    var (kind, end) := TokenAt(t, p, prev);
    FirstToken(t, p, prev);
    FirstToken(s, p, prev);
    if end < |t| {
      PrefixToken(s, t, p, prev, '"');
      RestEndsBefore(t, p, prev, '"');
      NoTokenThere(s, t, end, Significant(prev, kind));
    } else {
      LastIsOpen(t, p, prev);
      LastGoesOn(s, t, p, prev);
      var r := TokenAt(s, p, prev);
      LexInBounds(s, r.1, Significant(prev, r.0));
    }
  }

  // The value becomes a token of its own exactly where a token may start.
  lemma SplicedExactly(before: string, v: string, after: string)
    ensures Spliced(before, v) in Lex(Splice(before, EscapeMooString(v), after)) <==> EndsInCode(before, Lex(before))
  {
    EscapesEachChar(v);
    SpliceParts(before, v, after);
    EndsBeforeQuote(before, Lex(before));
    if EndsInCode(before, Lex(before)) {
      SplicedIsOneToken(before, v, after);
    } else {
      NoTokenThere(Splice(before, Escaped(v), after), before, 0, None);
    }
  }

}
