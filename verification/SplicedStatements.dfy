/**
 Whether code with a spliced value is taken for statements. The scan finds a terminator in a text by parts, so the
 value matters exactly when the scan of the code before it ends in an open string and nothing else decides.
 */
module SplicedStatements {

  import opened Prelude
  import opened Lexer
  import opened LexerShape
  import opened TextScanner
  import opened StatementTerminator
  import opened SplicedLiteral

  // ---------------------------------------------------------------- the scan by parts

  // The mode after the text, from mode m.
  function EndMode(s: string, m: Mode): Mode {
    if s == "" then m else EndMode(s[1..], QuoteNext(s[0], m))
  }

  // A semicolon of the text is outside strings, from mode m.
  predicate FoundFrom(s: string, m: Mode) {
    s != "" && ((s[0] == ';' && m == CodeMode) || FoundFrom(s[1..], QuoteNext(s[0], m)))
  }

  lemma {:induction false} EndModeJoins(a: string, b: string, m: Mode)
    ensures EndMode(a + b, m) == EndMode(b, EndMode(a, m))
    ensures FoundFrom(a + b, m) <==> FoundFrom(a, m) || FoundFrom(b, EndMode(a, m))
    decreases |a|
  {
    if a == "" {
      assert a + b == b;
    } else {
      assert (a + b)[1..] == a[1..] + b;
      EndModeJoins(a[1..], b, QuoteNext(a[0], m));
    }
  }

  lemma OneMode(c: char, m: Mode)
    ensures EndMode([c], m) == QuoteNext(c, m)
    ensures FoundFrom([c], m) <==> c == ';' && m == CodeMode
  {
    assert [c][1..] == "";
  }

  lemma {:induction false} EndModeIs(s: string)
    ensures EndMode(s, CodeMode) == QuoteMode(s, |s|)
    decreases |s|
  {
    if s != "" {
      var front, last := s[..|s| - 1], s[|s| - 1];
      assert s == front + [last];
      EndModeJoins(front, [last], CodeMode);
      OneMode(last, QuoteMode(front, |front|));
      EndModeIs(front);
      ModeOfFront(s, |s| - 1, |s| - 1);
    }
  }

  lemma {:induction false} ModeOfFront(s: string, n: nat, i: nat)
    requires i <= n <= |s|
    ensures QuoteMode(s[..n], i) == QuoteMode(s, i)
  {
    if i > 0 { ModeOfFront(s, n, i - 1); }
  }

  lemma TerminatorIsFound(s: string, i: nat)
    requires i < |s| && TerminatorAt(s, i)
    ensures FoundFrom(s, CodeMode)
  {
    assert s == s[..i] + ([s[i]] + s[i + 1..]);
    EndModeJoins(s[..i], [s[i]] + s[i + 1..], CodeMode);
    EndModeJoins([s[i]], s[i + 1..], EndMode(s[..i], CodeMode));
    EndModeIs(s[..i]);
    ModeOfFront(s, i, i);
    OneMode(s[i], CodeMode);
  }

  // The first semicolon found is a terminator.
  lemma {:induction false} FoundAt(s: string, m: Mode) returns (i: nat)
    requires FoundFrom(s, m)
    ensures i < |s| && s[i] == ';' && EndMode(s[..i], m) == CodeMode
    decreases |s|
  {
    if s[0] == ';' && m == CodeMode {
      i := 0;
    } else {
      i := FoundAt(s[1..], QuoteNext(s[0], m));
      i := i + 1;
      assert s[..i][1..] == s[1..][..i - 1];
    }
  }

  // The scan of a whole text.
  lemma HasTerminatorIs(s: string)
    ensures HasTerminator(s) <==> FoundFrom(s, CodeMode)
  {
    if HasTerminator(s) {
      var i :| 0 <= i < |s| && TerminatorAt(s, i);
      TerminatorIsFound(s, i);
    }
    if FoundFrom(s, CodeMode) {
      var i := FoundAt(s, CodeMode);
      EndModeIs(s[..i]);
      ModeOfFront(s, i, i);
      assert TerminatorAt(s, i);
    }
  }

  // ---------------------------------------------------------------- the value

  // Inside a string an escaped value stays there; in code it may open one.
  lemma {:induction false} EscapedModes(v: string)
    ensures EndMode(Escaped(v), StringMode(false)) == StringMode(false) && !FoundFrom(Escaped(v), StringMode(false))
    ensures EndMode(Escaped(v), CodeMode) in {CodeMode, StringMode(false)}
    decreases |v|
  {
    if v != "" {
      var head, tail := EscapedChar(v[0]), Escaped(v[1..]);
      EscapedModes(v[1..]);
      EscapedCharModes(v[0]);
      EndModeJoins(head, tail, StringMode(false));
      EndModeJoins(head, tail, CodeMode);
    }
  }

  lemma EscapedCharModes(c: char)
    ensures EndMode(EscapedChar(c), StringMode(false)) == StringMode(false)
    ensures !FoundFrom(EscapedChar(c), StringMode(false))
    ensures EndMode(EscapedChar(c), CodeMode) == if c == '"' then StringMode(false) else CodeMode
  {
    OneMode(c, StringMode(false));
    OneMode(c, CodeMode);
    if c == '\\' || c == '"' {
      assert EscapedChar(c) == "\\" + [c];
      EndModeJoins("\\", [c], StringMode(false));
      EndModeJoins("\\", [c], CodeMode);
      OneMode('\\', StringMode(false));
      OneMode('\\', CodeMode);
      OneMode(c, StringMode(true));
    }
  }

  // What the scan finds in the spliced text, from what it finds in its parts.
  lemma SplicedFound(before: string, v: string, after: string)
    ensures var m := QuoteNext('"', QuoteMode(before, |before|));
      HasTerminator(Splice(before, EscapeMooString(v), after)) <==>
        || HasTerminator(before)
        || FoundFrom(Escaped(v), m)
        || FoundFrom(after, QuoteNext('"', EndMode(Escaped(v), m)))
  {
    hide EndMode, FoundFrom, HasTerminator, Escaped, EscapeMooString;
    EscapesEachChar(v);
    var esc, s := Escaped(v), Splice(before, Escaped(v), after);
    var m := QuoteNext('"', QuoteMode(before, |before|));
    assert s == before + ("\"" + (esc + ("\"" + after)));
    EndModeIs(before);
    EndModeJoins(before, "\"" + (esc + ("\"" + after)), CodeMode);
    EndModeJoins("\"", esc + ("\"" + after), QuoteMode(before, |before|));
    EndModeJoins(esc, "\"" + after, m);
    EndModeJoins("\"", after, EndMode(esc, m));
    OneMode('"', QuoteMode(before, |before|));
    OneMode('"', EndMode(esc, m));
    HasTerminatorIs(s);
    HasTerminatorIs(before);
  }

  // Unless the code before it ends inside a string, as the scan sees it, the scan finds what it finds before and
  // after the literal, whatever the value.
  lemma SplicedTerminator(before: string, v: string, after: string)
    requires QuoteMode(before, |before|) != StringMode(false)
    ensures HasTerminator(Splice(before, EscapeMooString(v), after)) <==> HasTerminator(before) || HasTerminator(after)
  {
    SplicedFound(before, v, after);
    EscapedModes(v);
    HasTerminatorIs(after);
  }

  // ---------------------------------------------------------------- exactly when it matters

  // All values give the same answer.
  ghost predicate ValuesAgree(before: string, after: string) {
    forall v, w ::
      HasTerminator(Splice(before, EscapeMooString(v), after)) <==> HasTerminator(Splice(before, EscapeMooString(w), after))
  }

  // Three values of a splice inside a string: found in the value, then in what follows as in a string and as code.
  lemma ThreeValues(before: string, after: string)
    requires QuoteMode(before, |before|) == StringMode(false)
    ensures HasTerminator(Splice(before, EscapeMooString(";"), after))
    ensures HasTerminator(Splice(before, EscapeMooString(""), after))
       <==> HasTerminator(before) || FoundFrom(after, StringMode(false))
    ensures HasTerminator(Splice(before, EscapeMooString("\""), after)) <==> HasTerminator(before) || HasTerminator(after)
  {
    hide HasTerminator;
    SplicedFound(before, ";", after);
    SplicedFound(before, "", after);
    SplicedFound(before, "\"", after);
    HasTerminatorIs(after);
    assert Escaped(";") == ";" && Escaped("\"") == "\\\"";
    OneMode(';', CodeMode);
    EscapedCharModes('"');
    EndModeJoins("\\", "\"", CodeMode);
    OneMode('\\', CodeMode);
    OneMode('"', CodeMode);
  }

  lemma InsideFound(before: string, v: string, after: string)
    requires QuoteMode(before, |before|) == StringMode(false)
    requires HasTerminator(before) || (HasTerminator(after) && FoundFrom(after, StringMode(false)))
    ensures HasTerminator(Splice(before, EscapeMooString(v), after))
  {
    SplicedFound(before, v, after);
    EscapedModes(v);
    HasTerminatorIs(after);
  }

  // The value does not decide exactly when the scan of the code before does not end inside a string, or finds a
  // terminator there, or finds one in the code after, read as code and read as in a string.
  lemma ValuesAgreeExactly(before: string, after: string)
    ensures ValuesAgree(before, after) <==>
      || QuoteMode(before, |before|) != StringMode(false)
      || HasTerminator(before)
      || (HasTerminator(after) && FoundFrom(after, StringMode(false)))
  {
    hide HasTerminator, FoundFrom, EscapeMooString, Splice;
    if QuoteMode(before, |before|) != StringMode(false) {
      forall v { SplicedTerminator(before, v, after); }
    } else {
      ThreeValues(before, after);
      if HasTerminator(before) || (HasTerminator(after) && FoundFrom(after, StringMode(false))) {
        forall v { InsideFound(before, v, after); }
      }
    }
  }

  // Inside an open string it does.
  lemma OpenStringLeaks()
    ensures HasTerminator(Splice("\"", EscapeMooString(";"), "")) && !HasTerminator(Splice("\"", EscapeMooString(""), ""))
  {
    assert QuoteMode("\"", 1) == StringMode(false);
    NothingAround("\"");
  }

  lemma NothingAround(before: string)
    requires QuoteMode(before, |before|) == StringMode(false) && ';' !in before
    ensures HasTerminator(Splice(before, EscapeMooString(";"), ""))
    ensures !HasTerminator(Splice(before, EscapeMooString(""), ""))
  {
    ThreeValues(before, "");
  }

  // A quote in a comment is an open string to the scan, where the lexer is in code.
  lemma CommentedQuoteLeaks()
    ensures var before := "/*\"*/";
      && EndsInCode(before, Lex(before))
      && HasTerminator(Splice(before, EscapeMooString(";"), "")) && !HasTerminator(Splice(before, EscapeMooString(""), ""))
  {
    QuotedCommentLeaks("/*\"*/");
  }

  lemma QuotedCommentLeaks(before: string)
    requires |before| == 5 && before[0] == '/' && before[1] == '*' && before[2] == '"' && before[3] == '*' && before[4] == '/'
    ensures EndsInCode(before, Lex(before))
    ensures HasTerminator(Splice(before, EscapeMooString(";"), "")) && !HasTerminator(Splice(before, EscapeMooString(""), ""))
  {
    assert QuoteMode(before, 2) == CodeMode by { assert QuoteMode(before, 0) == QuoteMode(before, 1) == CodeMode; }
    assert QuoteMode(before, 3) == QuoteMode(before, 4) == QuoteMode(before, 5) == StringMode(false);
    NothingAround(before);
    hide LexFrom;
    var ts := Lex(before);
    LexFromShaped(before, 0, None);
    assert BlockRest(before, 2) == BlockRest(before, 3) == (5, true);
    assert Shape(before, ts[0]) && ts[0] == Token(BlockComment, 0, 5) && ts[1..] == [Token(Eof, 5, 5)];
  }

}
