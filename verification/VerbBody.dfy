/**
 Finding a verb's body in an object definition: the text up to the first line that starts, in code,
 with the end keyword.
 */
module VerbBody {

  import opened Prelude
  import opened MooText
  import opened Lexer
  import opened TextScanner
  import opened ScannerAgreement

  predicate IsIndent(c: char) { c == ' ' || c == '\t' }

  predicate LineStart(s: string, p: nat)
    requires p <= |s|
  {
    p == 0 || s[p - 1] == '\n'
  }

  // The keyword's own position on a line that starts at p.
  function KeywordStart(s: string, p: nat): (k: nat)
    requires p <= |s|
    ensures p <= k <= |s|
  {
    SkipWhile(s, p, IsIndent)
  }

  // Indentation, then the keyword in any case, as a whole word.
  predicate KeywordAt(s: string, p: nat, keyword: string)
    requires p <= |s|
  {
    var k := KeywordStart(s, p);
    var end := k + |keyword|;
    && end <= |s|
    && SameWord(s[k..end], keyword)
    && (end < |s| ==> !IsIdentContinue(s[end]))
  }

  predicate IsKeyword(keyword: string) {
    keyword != "" && IsAlpha(keyword[0])
  }

  // The keyword, in any case, is written at k as a whole word, after nothing but indentation from p on.
  predicate KeywordWritten(s: string, p: nat, k: nat, keyword: string) {
    && p <= k && k + |keyword| <= |s|
    && (forall i :: p <= i < k ==> IsIndent(s[i]))
    && SameWord(s[k..k + |keyword|], keyword)
    && (k + |keyword| < |s| ==> !IsIdentContinue(s[k + |keyword|]))
  }

  // A line carries the keyword exactly when it is written there somewhere.
  lemma KeywordAtExactly(s: string, p: nat, keyword: string)
    requires p <= |s| && IsKeyword(keyword)
    ensures KeywordAt(s, p, keyword) <==> exists k: nat :: KeywordWritten(s, p, k, keyword)
  {
    if KeywordAt(s, p, keyword) { assert KeywordWritten(s, p, KeywordStart(s, p), keyword); }
    forall k: nat | KeywordWritten(s, p, k, keyword) ensures k == KeywordStart(s, p) {
      var word := s[k..k + |keyword|];
      assert word[0] == s[k] && Lower(word[0]) == Lower(keyword[0]);
      assert !IsIndent(s[k]);
    }
  }

  // Position p starts a line with the keyword, and is code in the text scanned from `start`.
  ghost predicate EndsBody(s: string, start: nat, p: nat, keyword: string)
    requires start <= p < |s|
  {
    RolesFrom(s, start, CodeMode)[p - start] == CodeRole && LineStart(s, p) && KeywordAt(s, p, keyword)
  }

  // From p in mode m the scanner stops at q in mode n.
  ghost predicate Reaches(s: string, p: nat, m: Mode, q: nat, n: Mode)
    requires p <= |s|
    decreases |s| - p
  {
    if p == q then m == n
    else p < |s| && p + Width(s, p, m) <= q && Reaches(s, p + Width(s, p, m), NextMode(s, p, m), q, n)
  }

  lemma {:induction false} ReachesStep(s: string, p: nat, m: Mode, q: nat, n: Mode)
    requires p <= q < |s| && Reaches(s, p, m, q, n)
    ensures Reaches(s, p, m, q + Width(s, q, n), NextMode(s, q, n))
    decreases |s| - p
  {
    if p < q { ReachesStep(s, p + Width(s, p, m), NextMode(s, p, m), q, n); }
  }

  // A step that stays within a part of the text is the same step there.
  lemma StepWithin(s: string, start: nat, p: nat, m: Mode, q: nat)
    requires start <= p < |s| && p + Width(s, p, m) <= q <= |s|
    ensures var b, i := s[start..q], p - start;
      && Width(b, i, m) == Width(s, p, m)
      && NextMode(b, i, m) == NextMode(s, p, m)
      && StepRole(b, i, m) == StepRole(s, p, m)
  {
    var b, i := s[start..q], p - start;
    assert b[i] == s[p];
    assert p + 1 < q ==> b[i + 1] == s[p + 1];
  }

  // Up to where the scanner stops, it gives the same roles without the rest of the text.
  lemma {:induction false} PrefixScans(s: string, start: nat, p: nat, m: Mode, q: nat, n: Mode)
    requires start <= p <= q <= |s| && Reaches(s, p, m, q, n)
    ensures RolesFrom(s, p, m) == RolesFrom(s[start..q], p - start, m) + RolesFrom(s, q, n)
    ensures FinalMode(s[start..q], p - start, m) == n
    decreases |s| - p
  {
    if p == q {
      EndRoles(s[start..q], m);
    } else {
      var w, next := Width(s, p, m), NextMode(s, p, m);
      StepWithin(s, start, p, m, q);
      PrefixScans(s, start, p + w, next, q, n);
      PrefixStep(s, p, s[start..q], p - start, m, RolesFrom(s, q, n));
    }
  }

  lemma PrefixStep(s: string, p: nat, b: string, i: nat, m: Mode, rest: seq<Role>)
    requires p < |s| && i < |b|
    requires Width(b, i, m) == Width(s, p, m) && NextMode(b, i, m) == NextMode(s, p, m)
    requires StepRole(b, i, m) == StepRole(s, p, m)
    requires var w, n := Width(s, p, m), NextMode(s, p, m); RolesFrom(s, p + w, n) == RolesFrom(b, i + w, n) + rest
    ensures RolesFrom(s, p, m) == RolesFrom(b, i, m) + rest
    ensures FinalMode(b, i, m) == FinalMode(b, i + Width(s, p, m), NextMode(s, p, m))
  {
    var w, n := Width(s, p, m), NextMode(s, p, m);
    JoinPrefix(Repeat(StepRole(s, p, m), w), RolesFrom(b, i + w, n), rest);
  }

  lemma JoinPrefix(a: seq<Role>, x: seq<Role>, y: seq<Role>)
    ensures a + (x + y) == (a + x) + y
  {
  }

  // The role of the characters the scanner takes where it stops.
  lemma RoleAtStop(s: string, start: nat, m: Mode, q: nat, n: Mode, i: nat)
    requires start <= q <= i < |s| && Reaches(s, start, m, q, n) && i < q + Width(s, q, n)
    ensures RolesFrom(s, start, m)[i - start] == StepRole(s, q, n)
  {
    PrefixScans(s, start, start, m, q, n);
    StepRuns(s, q, n);
    var a, x := RolesFrom(s[start..q], 0, m), RolesFrom(s, q, n);
    assert (a + x)[i - start] == x[i - q];
  }

  // No position the scanner takes in one step, from a stop it does not accept, ends the body.
  lemma StepEndsNothing(s: string, start: nat, q: nat, n: Mode, keyword: string)
    requires start <= q < |s| && Reaches(s, start, CodeMode, q, n) && IsKeyword(keyword)
    requires n == CodeMode && LineStart(s, q) ==> !KeywordAt(s, q, keyword)
    ensures forall i :: q <= i < q + Width(s, q, n) ==> !EndsBody(s, start, i, keyword)
  {
    if n == LineMode && s[q] == '\n' { LineFeedIsNoKeyword(s, q, keyword); }
    forall i | q <= i < q + Width(s, q, n) ensures !EndsBody(s, start, i, keyword) {
      RoleAtStop(s, start, CodeMode, q, n, i);
    }
  }

  lemma LineFeedIsNoKeyword(s: string, p: nat, keyword: string)
    requires At(s, p, '\n') && IsKeyword(keyword)
    ensures !KeywordAt(s, p, keyword)
  {
    var end := p + |keyword|;
    assert end <= |s| ==> s[p..end][0] == '\n';
  }

  // ---------------------------------------------------------------- the search

  // The position after the keyword, if the line at p starts with it.
  method MatchKeyword(s: string, p: nat, keyword: string) returns (r: Option<nat>)
    requires p <= |s|
    ensures r == if KeywordAt(s, p, keyword) then Some(KeywordStart(s, p) + |keyword|) else None
  {
    var probe := p;
    while probe < |s| && IsIndent(s[probe])
      invariant p <= probe <= |s|
      invariant KeywordStart(s, probe) == KeywordStart(s, p)
    {
      probe := probe + 1;
    }
    var end := probe + |keyword|;
    if end <= |s| && SameWord(s[probe..end], keyword) {
      if end == |s| || !IsIdentContinue(s[end]) { return Some(end); }
    }
    r := None;
  }

  // The end of the body and the position after the keyword.
  method FindVerbBody(s: string, start: nat, keyword: string) returns (r: Option<(nat, nat)>)
    requires start <= |s| && IsKeyword(keyword)
    ensures r.None? ==> forall p :: start <= p < |s| ==> !EndsBody(s, start, p, keyword)
    ensures r.Some? ==>
      && start <= r.value.0 < |s| && r.value.1 == KeywordStart(s, r.value.0) + |keyword| <= |s|
      && EndsBody(s, start, r.value.0, keyword)
      && Reaches(s, start, CodeMode, r.value.0, CodeMode)
      && forall p :: start <= p < r.value.0 ==> !EndsBody(s, start, p, keyword)
  {
    var pos := start;
    var inString, escaped, inLineComment, inBlockComment := false, false, false, false;
    var lineStart := start == 0 || s[start - 1] == '\n';
    ghost var m := CodeMode;
    while pos < |s|
      invariant start <= pos <= |s|
      invariant m == FlagsMode(inString, escaped, inLineComment, inBlockComment)
      invariant !(inString && inLineComment) && !(inString && inBlockComment) && !(inLineComment && inBlockComment)
      invariant lineStart == LineStart(s, pos)
      invariant Reaches(s, start, CodeMode, pos, m)
      invariant forall p :: start <= p < pos ==> !EndsBody(s, start, p, keyword)
      decreases |s| - pos
    {
      if !inString && !inLineComment && !inBlockComment && lineStart {
        var after := MatchKeyword(s, pos, keyword);
        if after.Some? {
          KeywordEnds(s, start, pos, keyword);
          return Some((pos, after.value));
        }
      }
      StepEndsNothing(s, start, pos, m, keyword);
      ReachesStep(s, start, CodeMode, pos, m);
      m := NextMode(s, pos, m);
      var ch := s[pos];
      if inString {
        pos := pos + 1;
        if escaped {
          escaped := false;
        } else if ch == '\\' {
          escaped := true;
        } else if ch == '"' {
          inString := false;
        }
        lineStart := ch == '\n';
      } else if inLineComment {
        pos := pos + 1;
        inLineComment := ch != '\n';
        lineStart := ch == '\n';
      } else if inBlockComment {
        if IsBlockEnd(s, pos) {
          pos := pos + 2;
          inBlockComment := false;
          lineStart := false;
        } else {
          pos := pos + 1;
          lineStart := ch == '\n';
        }
      } else if IsLineComment(s, pos) {
        pos := pos + 2;
        inLineComment := true;
        lineStart := false;
      } else if IsBlockComment(s, pos) {
        pos := pos + 2;
        inBlockComment := true;
        lineStart := false;
      } else if ch == '"' {
        inString, escaped := true, false;
        pos := pos + 1;
        lineStart := false;
      } else {
        pos := pos + 1;
        lineStart := ch == '\n';
      }
    }
    r := None;
  }

  function FlagsMode(inString: bool, escaped: bool, inLineComment: bool, inBlockComment: bool): Mode {
    if inString then StringMode(escaped)
    else if inLineComment then LineMode
    else if inBlockComment then BlockMode
    else CodeMode
  }

  // A line that starts with the keyword starts with code.
  lemma KeywordIsCode(s: string, p: nat, keyword: string)
    requires p < |s| && KeywordAt(s, p, keyword) && IsKeyword(keyword)
    ensures StepRole(s, p, CodeMode) == CodeRole
  {
    var k := KeywordStart(s, p);
    if k == p {
      assert s[p..p + |keyword|][0] == s[p];
    } else {
      assert IsIndent(s[p]);
    }
  }

  lemma KeywordEnds(s: string, start: nat, p: nat, keyword: string)
    requires start <= p <= |s| && Reaches(s, start, CodeMode, p, CodeMode)
    requires IsKeyword(keyword) && LineStart(s, p) && KeywordAt(s, p, keyword)
    ensures p < |s| && EndsBody(s, start, p, keyword)
  {
    KeywordIsCode(s, p, keyword);
    RoleAtStop(s, start, CodeMode, p, CodeMode, p);
  }

  // ---------------------------------------------------------------- the body

  // Position p starts a line with the keyword, and is code to the lexer in the text from `start` on.
  ghost predicate LexedEnd(s: string, start: nat, p: nat, keyword: string)
    requires start <= p < |s|
  {
    var roles := LexRoles(s[start..], Lex(s[start..]));
    p - start < |roles| && roles[p - start] == CodeRole && LineStart(s, p) && KeywordAt(s, p, keyword)
  }

  lemma {:induction false} ReachesEnd(s: string, p: nat, m: Mode)
    requires p <= |s|
    ensures Reaches(s, p, m, |s|, FinalMode(s, p, m))
    decreases |s| - p
  {
    if p < |s| { ReachesEnd(s, p + Width(s, p, m), NextMode(s, p, m)); }
  }

  // In clean text the lines that end a body are the ones the lexer reads as code: what the search finds first is
  // the first of them.
  lemma EndIsLexed(s: string, start: nat, p: nat, keyword: string)
    requires start <= p < |s| && Clean(s[start..], Lex(s[start..]))
    ensures EndsBody(s, start, p, keyword) <==> LexedEnd(s, start, p, keyword)
  {
    var text := s[start..];
    assert s[start..|s|] == text;
    ReachesEnd(s, start, CodeMode);
    PrefixScans(s, start, start, CodeMode, |s|, FinalMode(s, start, CodeMode));
    EndRoles(s, FinalMode(s, start, CodeMode));
    ScannerMatchesLexerExactly(text);
  }

}
