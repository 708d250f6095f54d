/** Character classes and small scans shared by the lexer and the scanners of MOO source. */
module MooText {

  predicate IsDigit(c: char) { '0' <= c <= '9' }

  predicate IsLower(c: char) { 'a' <= c <= 'z' }

  predicate IsUpper(c: char) { 'A' <= c <= 'Z' }

  predicate IsAlpha(c: char) { IsLower(c) || IsUpper(c) }

  predicate IsHex(c: char) { IsDigit(c) || 'a' <= c <= 'f' || 'A' <= c <= 'F' }

  predicate IsIdentStart(c: char) { c == '_' || IsAlpha(c) }

  predicate IsIdentContinue(c: char) { c == '_' || IsAlpha(c) || IsDigit(c) }

  predicate IsBlank(c: char) { c == ' ' || c == '\t' || c == '\U{00A0}' }

  predicate InLine(c: char) { c != '\n' && c != '\r' }

  // The characters a binary literal may hold.
  predicate IsBase64(c: char) { IsAlpha(c) || IsDigit(c) || c == '+' || c == '/' || c == '=' || c == '_' || c == '-' }

  // Skipped after the first character of a binary literal that does not belong.
  predicate InBrokenBinary(c: char) { c != '"' && InLine(c) }

  // Neither ends a string nor escapes inside one.
  predicate InString(c: char) { c != '"' && c != '\\' }

  // Starts no string, no comment and no statement end.
  predicate Inert(c: char) { c != '"' && c != '/' && c != ';' }

  function Lower(c: char): char {
    if IsUpper(c) then c - 'A' + 'a' else c
  }

  // Equal but for the case of ASCII letters, from index i on.
  predicate SameFrom(a: string, b: string, i: nat)
    requires i <= |a| == |b|
    decreases |a| - i
  {
    i == |a| || (Lower(a[i]) == Lower(b[i]) && SameFrom(a, b, i + 1))
  }

  predicate SameWord(a: string, b: string) {
    |a| == |b| && SameFrom(a, b, 0)
  }

  predicate At(s: string, p: nat, c: char) {
    p < |s| && s[p] == c
  }

  // The first position from p on whose character fails the test.
  function SkipWhile(s: string, p: nat, test: char -> bool): (e: nat)
    requires p <= |s|
    ensures p <= e <= |s|
    ensures forall i :: p <= i < e ==> test(s[i])
    ensures e < |s| ==> !test(s[e])
    decreases |s| - p
  {
    if p < |s| && test(s[p]) then SkipWhile(s, p + 1, test) else p
  }

  lemma SplitSlice(s: string, p: nat, a: string, b: string)
    requires p + |a| + |b| <= |s| && s[p..p + |a| + |b|] == a + b
    ensures s[p..p + |a|] == a && s[p + |a|..p + |a| + |b|] == b
  {
    var whole := s[p..p + |a| + |b|];
    assert s[p..p + |a|] == whole[..|a|] == a;
    assert s[p + |a|..p + |a| + |b|] == whole[|a|..] == b;
  }

}
