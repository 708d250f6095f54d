/**
 The tokens of a verb body are the tokens of the source up to it, because it ends with a line. So if the lexer and the
 scanner agree on the source they agree on the body, and the body has no string or comment left open.
 */
module BodyTokens {

  import opened Prelude
  import opened MooText
  import opened Lexer
  import opened LexerShape
  import opened TextScanner
  import opened ScannerAgreement
  import opened VerbBody
  import opened LexerWindow
  import opened LexerPrefix

  // ---------------------------------------------------------------- binary literals in a prefix

  lemma {:induction false} SameBackslashes(s: string, t: string, p: nat, k: nat)
    requires |t| <= |s| && s[..|t|] == t && p <= k <= |t|
    ensures Backslashes(s, p, k) == Backslashes(t, p, k)
    decreases k
  {
    if p < k {
      assert t[k - 1] == s[..|t|][k - 1] == s[k - 1];
      if t[k - 1] == '\\' { SameBackslashes(s, t, p, k - 1); }
    }
  }

  // A literal that is the same token in both, and not open at the end of t, is read alike.
  lemma SameMisread(s: string, t: string, p: nat)
    requires |t| <= |s| && s[..|t|] == t && IsBinary(t, p) && IsBinary(s, p) && BinaryToken(s, p) == BinaryToken(t, p)
    requires BinaryRest(t, p + 2).2 || BinaryRest(t, p + 2).0 < |t|
    ensures Misread(s, p) <==> Misread(t, p)
  {
    hide BinaryRest, BinaryStop;
    BinaryStops(s, p + 2);
    BinaryStops(t, p + 2);
    BinaryClosed(s, p);
    BinaryClosed(t, p);
    var e := BinaryToken(t, p).end;
    if p + 2 < e { assert t[e - 1] == s[..|t|][e - 1] == s[e - 1]; }
    var k := BinaryStop(t, p + 2);
    assert k == BinaryStop(s, p + 2) && k < |t|;
    assert t[k] == s[..|t|][k] == s[k];
    SameBackslashes(s, t, p + 2, k);
  }

  // ---------------------------------------------------------------- up to a line end

  // The text s goes on after t with the line end d, which does not join t's last character.
  predicate LineEndsAt(s: string, t: string, d: char) {
    && |t| < |s| && s[..|t|] == t && s[|t|] == d && !InLine(d)
    && !(d == '\n' && |t| > 0 && t[|t| - 1] == '\r')
  }

  lemma LineEndWindows(s: string, t: string, d: char)
    requires LineEndsAt(s, t, d)
    ensures Window(s, 0, t) && At(s, |t|, d) && forall p :: !Joins(t, p, d)
  {
    forall i | 0 <= i < |t| ensures t[i] == s[0 + i] { assert s[..|t|][i] == s[i]; }
  }

  lemma SameClean(s: string, t: string, u: Token)
    requires |t| <= |s| && s[..|t|] == t && Shape(t, u) && Shape(s, u)
    requires u.end < |t| || (u.kind != LineComment && (IsBinary(t, u.start) ==> BinaryRest(t, u.start + 2).2))
    requires CleanToken(s, u)
    ensures CleanToken(t, u)
  {
    hide BinaryRest, Misread;
    assert t[u.start] == s[..|t|][u.start] == s[u.start];
    if IsBinary(t, u.start) {
      assert t[u.start + 1] == s[..|t|][u.start + 1] == s[u.start + 1];
      SameMisread(s, t, u.start);
    }
    if u.end < |t| { assert t[u.end] == s[..|t|][u.end] == s[u.end]; }
  }

  // The last token of t, which may go on in s.
  lemma LastIsClean(s: string, t: string, p: nat, prev: Option<Kind>, d: char)
    requires LineEndsAt(s, t, d) && p < |t| && TokenAt(t, p, prev).1 == |t|
    requires CleanToken(s, Token(TokenAt(s, p, prev).0, p, TokenAt(s, p, prev).1))
    ensures CleanToken(t, Token(TokenAt(t, p, prev).0, p, |t|))
  {
    hide TokenAt, BinaryRest, Misread, OpenRole, Window;
    var u := Token(TokenAt(t, p, prev).0, p, |t|);
    TokenAtShape(t, p, prev);
    if IsBinary(t, p) && Misread(t, p) {
      assert u == BinaryToken(t, p);
      MisreadIsClosed(t, p);
      BinaryOpen(t, p);
      LineEndWindows(s, t, d);
      TokenWindow(s, 0, t, p, p, prev);
      EndsAlike(s, 0, t, TokenAt(s, p, prev), TokenAt(t, p, prev));
      TokenAtShape(s, p, prev);
      SameClean(s, t, u);
    }
  }

  // A misread literal that ends with the text ends with a quote.
  lemma MisreadIsClosed(t: string, p: nat)
    requires IsBinary(t, p) && Misread(t, p) && BinaryToken(t, p).end == |t|
    ensures BinaryRest(t, p + 2).2
  {
    BinaryStops(t, p + 2);
  }

  lemma CleanHead(s: string, t: Token, rest: seq<Token>)
    ensures Clean(s, [t] + rest) <==> CleanToken(s, t) && Clean(s, rest)
  {
    var ts := [t] + rest;
    assert ts[0] == t && ts[1..] == rest;
    CleanUnfolds(s, ts);
  }

  // If the text is clean, so is the part up to a line end.
  lemma {:induction false} CleanFront(s: string, t: string, p: nat, prev: Option<Kind>, d: char)
    requires LineEndsAt(s, t, d) && p <= |t| && Clean(s, LexFrom(s, p, prev))
    ensures Clean(t, LexFrom(t, p, prev))
    decreases |t| - p
  {
    hide TokenAt, LexFrom, Clean, CleanToken, LineEndsAt;
    if p == |t| {
      LexEof(t, prev);
      EndAgrees(t, CodeMode);
    } else {
      LineEndBounds(s, t, d);
      var (kind, end) := TokenAt(t, p, prev);
      var r := TokenAt(s, p, prev);
      var next := Significant(prev, kind);
      FirstToken(t, p, prev);
      FirstToken(s, p, prev);
      CleanHead(t, Token(kind, p, end), LexFrom(t, end, next));
      CleanHead(s, Token(r.0, p, r.1), LexFrom(s, r.1, Significant(prev, r.0)));
      if end < |t| {
        FrontToken(s, t, p, prev, d);
        CleanFront(s, t, end, next, d);
      } else {
        LastIsClean(s, t, p, prev, d);
        LexEof(t, next);
        EndAgrees(t, CodeMode);
      }
    }
  }

  lemma LineEndBounds(s: string, t: string, d: char)
    requires LineEndsAt(s, t, d)
    ensures |t| < |s|
  {
  }

  lemma FrontToken(s: string, t: string, p: nat, prev: Option<Kind>, d: char)
    requires LineEndsAt(s, t, d) && p < |t| && TokenAt(t, p, prev).1 < |t|
    ensures TokenAt(s, p, prev) == TokenAt(t, p, prev)
    ensures var u := Token(TokenAt(t, p, prev).0, p, TokenAt(t, p, prev).1); CleanToken(s, u) ==> CleanToken(t, u)
  {
    hide TokenAt, Window, CleanToken;
    LineEndWindows(s, t, d);
    PrefixToken(s, t, p, prev, d);
    TokenAtShape(s, p, prev);
    TokenAtShape(t, p, prev);
    var u := Token(TokenAt(t, p, prev).0, p, TokenAt(t, p, prev).1);
    if CleanToken(s, u) { SameClean(s, t, u); }
  }

  // ---------------------------------------------------------------- the scanner before a line end

  predicate Outside(m: Mode) { m == CodeMode || m == LineMode }

  // If the scanner is outside strings and block comments after a line end, it stopped before it, outside too.
  lemma {:induction false} BeforeLineEnd(s: string, a: nat, m: Mode, p: nat, n: Mode) returns (before: Mode)
    requires a < p <= |s| && Reaches(s, a, m, p, n) && Outside(n) && !InLine(s[p - 1])
    ensures Reaches(s, a, m, p - 1, before) && Outside(before)
    decreases |s| - a
  {
    var w, next := Width(s, a, m), NextMode(s, a, m);
    if a + w < p {
      before := BeforeLineEnd(s, a + w, next, p, n);
    } else {
      before := m;
    }
  }

  // ---------------------------------------------------------------- the body

  // Where the last line end of a body starts.
  function LastLineEnd(body: string): (b: nat)
    requires body != ""
    ensures b < |body|
  {
    if |body| > 1 && body[|body| - 2] == '\r' then |body| - 2 else |body| - 1
  }

  // A text whose last character is a line feed, up to that line end.
  predicate EndsLine(body: string) {
    body != "" && body[|body| - 1] == '\n'
  }

  // That line end is the token after the text before it, in the body and in whatever it is the start of.
  lemma LineEndToken(text: string, body: string, b: nat, prev: Option<Kind>)
    requires EndsLine(body) && b == LastLineEnd(body) && |body| <= |text| && text[..|body|] == body
    ensures TokenAt(text, b, prev) == (Newline, |body|)
  {
    hide StringRest, BlockRest, BinaryRest, StartsNumber, Number, IdentLike, Operator, ObjectOrHash, SymbolOrApostrophe;
    assert text[b] == text[..|body|][b] == body[b];
    if b + 1 < |body| { assert text[b + 1] == text[..|body|][b + 1] == body[b + 1]; }
  }

  lemma LineEndSplits(text: string, body: string, b: nat)
    requires EndsLine(body) && b == LastLineEnd(body) && |body| <= |text| && text[..|body|] == body
    ensures LineEndsAt(text, body[..b], body[b])
  {
    var front := body[..b];
    assert text[..b] == text[..|body|][..b] == front;
    assert text[b] == text[..|body|][b] == body[b];
    if b > 0 { assert front[b - 1] == body[b - 1]; }
  }

  // The scanner's stop at the end of the line, in the body alone.
  lemma FrontEnds(s: string, start: nat, p: nat, b: nat)
    requires start < p <= |s| && Reaches(s, start, CodeMode, p, CodeMode)
    requires EndsLine(s[start..p]) && b == LastLineEnd(s[start..p])
    ensures Outside(FinalMode(s[start..p][..b], 0, CodeMode))
  {
    var body := s[start..p];
    assert body[|body| - 1] == s[p - 1];
    var m := BeforeLineEnd(s, start, CodeMode, p, CodeMode);
    if b == |body| - 2 {
      assert body[|body| - 2] == s[p - 2];
      m := BeforeLineEnd(s, start, CodeMode, p - 1, m);
    }
    PrefixScans(s, start, start, CodeMode, start + b, m);
    assert s[start..start + b] == body[..b];
  }

  // The part of a clean body before its last line end ends outside strings and block comments.
  lemma FrontCloses(text: string, front: string, d: char)
    requires LineEndsAt(text, front, d) && Clean(text, Lex(text)) && Outside(FinalMode(front, 0, CodeMode))
    ensures EndsBefore(front, Lex(front), d)
  {
    hide LexFrom, LexRoles;
    CleanFront(text, front, 0, None, d);
    ScannerMatchesLexerExactly(front);
    LineEndWindows(text, front, d);
  }

  // The tokens of such a text up to and after the line end.
  lemma LexAtLineEnd(text: string, body: string, b: nat)
    requires EndsLine(body) && b == LastLineEnd(body) && |body| <= |text| && text[..|body|] == body
    requires EndsBefore(body[..b], Lex(body[..b]), body[b])
    ensures var front := Front(Lex(body[..b])); var prev := Carry(None, front);
      Lex(text) == front + [Token(Newline, b, |body|)] + LexFrom(text, |body|, prev)
  {
    hide TokenAt, LexFrom, Front, EndsBefore, Carry;
    var front := Front(Lex(body[..b]));
    var prev := Carry(None, front);
    LineEndSplits(text, body, b);
    LineEndWindows(text, body[..b], body[b]);
    LexPrefix(text, body[..b], 0, None, body[b]);
    LineEndToken(text, body, b, prev);
    FirstToken(text, b, prev);
    JoinTokens(front, [Token(Newline, b, |body|)], LexFrom(text, |body|, prev));
  }

  // The tokens of the body are those of the text up to it, and the last one is the line end.
  lemma TokensOfBody(text: string, body: string, b: nat)
    requires EndsLine(body) && b == LastLineEnd(body) && |body| <= |text| && text[..|body|] == body
    requires EndsBefore(body[..b], Lex(body[..b]), body[b])
    ensures Front(Lex(body)) <= Lex(text)
    ensures Lex(body) == Front(Lex(body)) + [Token(Eof, |body|, |body|)]
    ensures forall u :: u in Front(Lex(body)) && u.end == |body| ==> u.kind == Newline
  {
    hide TokenAt, LexFrom, EndsBefore, Carry;
    var front := Front(Lex(body[..b]));
    LexAtLineEnd(text, body, b);
    assert body[..|body|] == body;
    LexAtLineEnd(body, body, b);
    LexEof(body, Carry(None, front));
    var line := front + [Token(Newline, b, |body|)];
    assert Lex(body) == line + [Token(Eof, |body|, |body|)];
    assert Front(Lex(body)) == line;
    LexInBounds(body[..b], 0, None);
  }

  lemma CleanPart(text: string, body: string, u: Token)
    requires |body| <= |text| && text[..|body|] == body && Shape(body, u) && Shape(text, u) && CleanToken(text, u)
    requires u.end == |body| ==> u.kind == Newline
    ensures CleanToken(body, u)
  {
    hide CleanToken, Misread;
    assert IsBinary(body, u.start) ==> BinaryRest(body, u.start + 2).1 != Newline;
    hide BinaryRest;
    SameClean(text, body, u);
  }

  // A body of a clean text is clean.
  lemma CleanTokens(text: string, body: string)
    requires |body| <= |text| && text[..|body|] == body && Clean(text, Lex(text))
    requires Front(Lex(body)) <= Lex(text) && Lex(body) == Front(Lex(body)) + [Token(Eof, |body|, |body|)]
    requires forall u :: u in Front(Lex(body)) && u.end == |body| ==> u.kind == Newline
    ensures Clean(body, Lex(body))
  {
    hide LexFrom, Front, Shape, CleanToken;
    LexFromShaped(body, 0, None);
    LexFromShaped(text, 0, None);
    forall u | u in Lex(body) ensures CleanToken(body, u) {
      ShapedTokens(body, 0, Lex(body), u);
      if u.start < |body| {
        assert u in Front(Lex(body)) && u in Lex(text);
        ShapedTokens(text, 0, Lex(text), u);
        CleanPart(text, body, u);
      } else {
        EndAgrees(body, CodeMode);
        assert u in [Token(Eof, |body|, |body|)];
      }
    }
  }

  lemma BodyIsClean(s: string, start: nat, p: nat)
    requires start <= p <= |s| && LineStart(s, p) && Reaches(s, start, CodeMode, p, CodeMode)
    requires Clean(s[start..], Lex(s[start..]))
    ensures Clean(s[start..p], Lex(s[start..p]))
  {
    hide LexFrom, Clean, EndsBefore, Reaches, Front;
    var text, body := s[start..], s[start..p];
    if p == start {
      LexEof("", None);
      EndAgrees("", CodeMode);
      assert body == "";
    } else {
      assert body[|body| - 1] == s[p - 1];
      var b := LastLineEnd(body);
      assert text[..|body|] == body;
      FrontEnds(s, start, p, b);
      LineEndSplits(text, body, b);
      FrontCloses(text, body[..b], body[b]);
      TokensOfBody(text, body, b);
      CleanTokens(text, body);
    }
  }

  // In a clean source the body has the lexer's roles when it is read alone, and it ends in code.
  lemma BodyLexes(s: string, start: nat, p: nat)
    requires start <= p <= |s| && LineStart(s, p) && Reaches(s, start, CodeMode, p, CodeMode)
    requires Clean(s[start..], Lex(s[start..]))
    ensures var body := s[start..p];
      && LexRoles(body, Lex(body)) == RolesFrom(s, start, CodeMode)[..p - start]
      && LexEnd(body, Lex(body)) == CodeRole
  {
    BodyIsClean(s, start, p);
    PrefixScans(s, start, start, CodeMode, p, CodeMode);
    ScannerMatchesLexerExactly(s[start..p]);
  }

  predicate Unterminated(s: string, t: Token) {
    t.kind == Error && (IsString(s, t) || IsBlockComment(s, t.start))
  }

  lemma {:induction false} UnterminatedIsLast(s: string, p: nat, ts: seq<Token>, t: Token)
    requires p <= |s| && Shaped(s, p, ts) && t in ts && Unterminated(s, t)
    ensures LexEnd(s, ts) != CodeRole
    decreases |s| - p
  {
    if p < |s| {
      Unfold(s, p, ts);
      if t == ts[0] {
        assert t.end == |s|;
      } else {
        UnterminatedIsLast(s, ts[0].end, ts[1..], t);
      }
    }
  }

  // And it holds no unterminated string or comment.
  lemma BodyIsTerminated(s: string, start: nat, p: nat)
    requires start <= p <= |s| && LineStart(s, p) && Reaches(s, start, CodeMode, p, CodeMode)
    requires Clean(s[start..], Lex(s[start..]))
    ensures forall t :: t in Lex(s[start..p]) ==> !Unterminated(s[start..p], t)
  {
    BodyLexes(s, start, p);
    var body := s[start..p];
    LexFromShaped(body, 0, None);
    forall t | t in Lex(body) ensures !Unterminated(body, t) {
      if Unterminated(body, t) { UnterminatedIsLast(body, 0, Lex(body), t); }
    }
  }

  // So for every source without carriage returns and malformed binary literals.
  lemma OrdinaryBodyIsTerminated(s: string, start: nat, p: nat)
    requires start <= p <= |s| && LineStart(s, p) && Reaches(s, start, CodeMode, p, CodeMode)
    requires '\r' !in s[start..] && NoBrokenBinary(s[start..], Lex(s[start..]))
    ensures forall t :: t in Lex(s[start..p]) ==> !Unterminated(s[start..p], t)
    ensures LexEnd(s[start..p], Lex(s[start..p])) == CodeRole
  {
    LexFromShaped(s[start..], 0, None);
    OrdinaryIsClean(s[start..], 0, Lex(s[start..]));
    BodyLexes(s, start, p);
    BodyIsTerminated(s, start, p);
  }

}
