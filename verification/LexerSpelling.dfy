/**
 How each kind of token is spelled, given apart from the lexing functions: a token of a fixed text has that text, and
 that text is a token of its kind wherever no longer one stands. Words, numbers, objects and symbols by their form.
 */
module LexerSpelling {

  import opened Prelude
  import opened MooText
  import opened Lexer

  // ---------------------------------------------------------------- the tables

  predicate IsPair(k: Kind) {
    k.AmpDot? || k.PipeDot? || k.CaretDot? || k.Shl? || k.Shr? || k.AmpAmp? || k.PipePipe? || k.EqEq? ||
    k.BangEq? || k.LtEq? || k.GtEq? || k.Arrow? || k.FatArrow? || k.DotDot?
  }

  function PairSpelling(k: Kind): Option<(char, char)> {
    if k.AmpDot? then Some(('&', '.'))
    else if k.PipeDot? then Some(('|', '.'))
    else if k.CaretDot? then Some(('^', '.'))
    else if k.Shl? then Some(('<', '<'))
    else if k.Shr? then Some(('>', '>'))
    else if k.AmpAmp? then Some(('&', '&'))
    else if k.PipePipe? then Some(('|', '|'))
    else if k.EqEq? then Some(('=', '='))
    else if k.BangEq? then Some(('!', '='))
    else if k.LtEq? then Some(('<', '='))
    else if k.GtEq? then Some(('>', '='))
    else if k.Arrow? then Some(('-', '>'))
    else if k.FatArrow? then Some(('=', '>'))
    else if k.DotDot? then Some(('.', '.'))
    else None
  }

  predicate IsSign(k: Kind) {
    k.Plus? || k.Minus? || k.Star? || k.Slash? || k.Percent? || k.Caret? || k.Tilde? || k.Bang? || k.Lt? ||
    k.Gt? || k.Eq? || k.Pipe? || k.Question?
  }

  function SignSpelling(k: Kind): Option<char> {
    if k.Plus? then Some('+')
    else if k.Minus? then Some('-')
    else if k.Star? then Some('*')
    else if k.Slash? then Some('/')
    else if k.Percent? then Some('%')
    else if k.Caret? then Some('^')
    else if k.Tilde? then Some('~')
    else if k.Bang? then Some('!')
    else if k.Lt? then Some('<')
    else if k.Gt? then Some('>')
    else if k.Eq? then Some('=')
    else if k.Pipe? then Some('|')
    else if k.Question? then Some('?')
    else None
  }

  predicate IsMark(k: Kind) {
    k.Semi? || k.Comma? || k.Dot? || k.Colon? || k.AtSign? || k.Dollar? || k.Backtick? || k.LParen? ||
    k.RParen? || k.LBrace? || k.RBrace? || k.LBracket? || k.RBracket?
  }

  function MarkSpelling(k: Kind): Option<char> {
    if k.Semi? then Some(';')
    else if k.Comma? then Some(',')
    else if k.Dot? then Some('.')
    else if k.Colon? then Some(':')
    else if k.AtSign? then Some('@')
    else if k.Dollar? then Some('$')
    else if k.Backtick? then Some('`')
    else if k.LParen? then Some('(')
    else if k.RParen? then Some(')')
    else if k.LBrace? then Some('{')
    else if k.RBrace? then Some('}')
    else if k.LBracket? then Some('[')
    else if k.RBracket? then Some(']')
    else None
  }

  predicate IsBlock(k: Kind) {
    k.IfKw? || k.ElseKw? || k.ElseIfKw? || k.EndIfKw? || k.ForKw? || k.EndForKw? || k.WhileKw? ||
    k.EndWhileKw? || k.ForkKw? || k.EndForkKw? || k.InKw?
  }

  function BlockSpelling(k: Kind): Option<string> {
    if k.IfKw? then Some("if")
    else if k.ElseKw? then Some("else")
    else if k.ElseIfKw? then Some("elseif")
    else if k.EndIfKw? then Some("endif")
    else if k.ForKw? then Some("for")
    else if k.EndForKw? then Some("endfor")
    else if k.WhileKw? then Some("while")
    else if k.EndWhileKw? then Some("endwhile")
    else if k.ForkKw? then Some("fork")
    else if k.EndForkKw? then Some("endfork")
    else if k.InKw? then Some("in")
    else None
  }

  predicate IsJump(k: Kind) {
    k.ReturnKw? || k.BreakKw? || k.ContinueKw? || k.TryKw? || k.ExceptKw? || k.FinallyKw? || k.EndTryKw? ||
    k.FnKw? || k.EndFnKw?
  }

  function JumpSpelling(k: Kind): Option<string> {
    if k.ReturnKw? then Some("return")
    else if k.BreakKw? then Some("break")
    else if k.ContinueKw? then Some("continue")
    else if k.TryKw? then Some("try")
    else if k.ExceptKw? then Some("except")
    else if k.FinallyKw? then Some("finally")
    else if k.EndTryKw? then Some("endtry")
    else if k.FnKw? then Some("fn")
    else if k.EndFnKw? then Some("endfn")
    else None
  }

  predicate IsOther(k: Kind) {
    k.LetKw? || k.ConstKw? || k.GlobalKw? || k.PassKw? || k.AnyKw? || k.TrueKw? || k.FalseKw?
  }

  function OtherSpelling(k: Kind): Option<string> {
    if k.LetKw? then Some("let")
    else if k.ConstKw? then Some("const")
    else if k.GlobalKw? then Some("global")
    else if k.PassKw? then Some("pass")
    else if k.AnyKw? then Some("any")
    else if k.TrueKw? then Some("true")
    else if k.FalseKw? then Some("false")
    else None
  }

  // What operators and punctuation look like.
  function OperatorSpelling(k: Kind): Option<string> {
    if IsPair(k) then PairKinds(k); Some([PairSpelling(k).value.0, PairSpelling(k).value.1])
    else if IsSign(k) then SignKinds(k); Some([SignSpelling(k).value])
    else if IsMark(k) then MarkKinds(k); Some([MarkSpelling(k).value])
    else if k.LShr? then Some(">>>")
    else if k.Hash? then Some("#")
    else if k.Apostrophe? then Some("'")
    else None
  }

  // What keywords look like, in lower case.
  function KeywordSpelling(k: Kind): Option<string> {
    if IsBlock(k) then BlockSpelling(k) else if IsJump(k) then JumpSpelling(k) else OtherSpelling(k)
  }

  lemma PairFacts()
    ensures PairSpelling(AmpDot) == Some(('&', '.')) && PairSpelling(PipeDot) == Some(('|', '.')) &&
      PairSpelling(CaretDot) == Some(('^', '.')) && PairSpelling(Shl) == Some(('<', '<')) &&
      PairSpelling(Shr) == Some(('>', '>')) && PairSpelling(AmpAmp) == Some(('&', '&')) &&
      PairSpelling(PipePipe) == Some(('|', '|')) && PairSpelling(EqEq) == Some(('=', '=')) &&
      PairSpelling(BangEq) == Some(('!', '=')) && PairSpelling(LtEq) == Some(('<', '=')) &&
      PairSpelling(GtEq) == Some(('>', '=')) && PairSpelling(Arrow) == Some(('-', '>')) &&
      PairSpelling(FatArrow) == Some(('=', '>')) && PairSpelling(DotDot) == Some(('.', '.'))
  {
  }

  lemma PairKinds(k: Kind)
    ensures PairSpelling(k).Some? <==> IsPair(k)
  {
  }

  lemma SignFacts()
    ensures SignSpelling(Plus) == Some('+') && SignSpelling(Minus) == Some('-') && SignSpelling(Star) == Some('*') &&
      SignSpelling(Slash) == Some('/') && SignSpelling(Percent) == Some('%') &&
      SignSpelling(Caret) == Some('^') && SignSpelling(Tilde) == Some('~') && SignSpelling(Bang) == Some('!') &&
      SignSpelling(Lt) == Some('<') && SignSpelling(Gt) == Some('>') && SignSpelling(Eq) == Some('=') &&
      SignSpelling(Pipe) == Some('|') && SignSpelling(Question) == Some('?')
  {
  }

  lemma SignKinds(k: Kind)
    ensures SignSpelling(k).Some? <==> IsSign(k)
  {
  }

  lemma MarkFacts()
    ensures MarkSpelling(Semi) == Some(';') && MarkSpelling(Comma) == Some(',') && MarkSpelling(Dot) == Some('.') &&
      MarkSpelling(Colon) == Some(':') && MarkSpelling(AtSign) == Some('@') &&
      MarkSpelling(Dollar) == Some('$') && MarkSpelling(Backtick) == Some('`') &&
      MarkSpelling(LParen) == Some('(') && MarkSpelling(RParen) == Some(')') &&
      MarkSpelling(LBrace) == Some('{') && MarkSpelling(RBrace) == Some('}') &&
      MarkSpelling(LBracket) == Some('[') && MarkSpelling(RBracket) == Some(']')
  {
  }

  lemma MarkKinds(k: Kind)
    ensures MarkSpelling(k).Some? <==> IsMark(k)
  {
  }

  lemma BlockFacts()
    ensures BlockSpelling(IfKw) == Some("if") && BlockSpelling(ElseKw) == Some("else") &&
      BlockSpelling(ElseIfKw) == Some("elseif") && BlockSpelling(EndIfKw) == Some("endif") &&
      BlockSpelling(ForKw) == Some("for") && BlockSpelling(EndForKw) == Some("endfor") &&
      BlockSpelling(WhileKw) == Some("while") && BlockSpelling(EndWhileKw) == Some("endwhile") &&
      BlockSpelling(ForkKw) == Some("fork") && BlockSpelling(EndForkKw) == Some("endfork") &&
      BlockSpelling(InKw) == Some("in")
  {
  }

  lemma BlockKinds(k: Kind)
    ensures BlockSpelling(k).Some? <==> IsBlock(k)
  {
  }

  lemma JumpFacts()
    ensures JumpSpelling(ReturnKw) == Some("return") && JumpSpelling(BreakKw) == Some("break") &&
      JumpSpelling(ContinueKw) == Some("continue") && JumpSpelling(TryKw) == Some("try") &&
      JumpSpelling(ExceptKw) == Some("except") && JumpSpelling(FinallyKw) == Some("finally") &&
      JumpSpelling(EndTryKw) == Some("endtry") && JumpSpelling(FnKw) == Some("fn") &&
      JumpSpelling(EndFnKw) == Some("endfn")
  {
  }

  lemma JumpKinds(k: Kind)
    ensures JumpSpelling(k).Some? <==> IsJump(k)
  {
  }

  lemma OtherFacts()
    ensures OtherSpelling(LetKw) == Some("let") && OtherSpelling(ConstKw) == Some("const") &&
      OtherSpelling(GlobalKw) == Some("global") && OtherSpelling(PassKw) == Some("pass") &&
      OtherSpelling(AnyKw) == Some("any") && OtherSpelling(TrueKw) == Some("true") &&
      OtherSpelling(FalseKw) == Some("false")
  {
  }

  lemma OtherKinds(k: Kind)
    ensures OtherSpelling(k).Some? <==> IsOther(k)
  {
  }

  predicate IsKeyword(k: Kind) {
    IsBlock(k) || IsJump(k) || IsOther(k)
  }

  predicate IsOperator(k: Kind) {
    IsPair(k) || IsSign(k) || IsMark(k) || k.LShr? || k.Hash? || k.Apostrophe?
  }

  lemma PairIsNoSign(k: Kind)
    ensures IsPair(k) ==> !IsSign(k)
  {
  }

  lemma PairIsNoMark(k: Kind)
    ensures IsPair(k) ==> !IsMark(k)
  {
  }

  lemma SignIsNoMark(k: Kind)
    ensures IsSign(k) ==> !IsMark(k)
  {
  }

  lemma KeywordTablesDisjoint(k: Kind)
    ensures IsBlock(k) ==> !IsJump(k) && !IsOther(k)
    ensures IsJump(k) ==> !IsOther(k)
  {
  }

  lemma BlockIsNoOperator(k: Kind)
    ensures IsBlock(k) ==> !IsOperator(k)
  {
  }

  lemma JumpIsNoOperator(k: Kind)
    ensures IsJump(k) ==> !IsOperator(k)
  {
  }

  lemma OtherIsNoOperator(k: Kind)
    ensures IsOther(k) ==> !IsOperator(k)
  {
  }

  // ---------------------------------------------------------------- case

  predicate SameLetter(c: char, d: char) {
    || c == d
    || (IsUpper(c) && IsLower(d) && d as int - c as int == 32)
    || (IsLower(c) && IsUpper(d) && c as int - d as int == 32)
  }

  lemma {:induction false} SameFromIs(a: string, b: string, i: nat)
    requires i <= |a| == |b|
    ensures SameFrom(a, b, i) <==> forall j :: i <= j < |a| ==> SameLetter(a[j], b[j])
    decreases |a| - i
  {
    if i < |a| { SameFromIs(a, b, i + 1); }
  }

  // The same word: character for character, but for the case of ASCII letters.
  lemma SameWordIs(a: string, b: string)
    ensures SameWord(a, b) <==> |a| == |b| && forall j :: 0 <= j < |a| ==> SameLetter(a[j], b[j])
  {
    if |a| == |b| { SameFromIs(a, b, 0); }
  }

  predicate AllLower(w: string) {
    forall i :: 0 <= i < |w| ==> IsLower(w[i])
  }

  lemma LowerWordsDiffer(text: string, v: string, w: string)
    requires AllLower(v) && AllLower(w) && SameWord(text, v) && SameWord(text, w)
    ensures v == w
  {
    SameWordIs(text, v);
    SameWordIs(text, w);
  }

  // ---------------------------------------------------------------- keywords

  lemma BlockLiteralsLower()
    ensures AllLower("if") && AllLower("else") && AllLower("elseif") && AllLower("endif") && AllLower("for") &&
      AllLower("endfor") && AllLower("while") && AllLower("endwhile") && AllLower("fork") &&
      AllLower("endfork") && AllLower("in")
  {
  }

  lemma BlockLower(k: Kind)
    requires IsBlock(k)
    ensures BlockSpelling(k).Some? && AllLower(BlockSpelling(k).value) && |BlockSpelling(k).value| >= 2
  {
    hide BlockSpelling, AllLower;
    BlockFacts();
    BlockLiteralsLower();
  }

  lemma JumpLiteralsLower()
    ensures AllLower("return") && AllLower("break") && AllLower("continue") && AllLower("try") &&
      AllLower("except") && AllLower("finally") && AllLower("endtry") && AllLower("fn") && AllLower("endfn")
  {
  }

  lemma JumpLower(k: Kind)
    requires IsJump(k)
    ensures JumpSpelling(k).Some? && AllLower(JumpSpelling(k).value) && |JumpSpelling(k).value| >= 2
  {
    hide JumpSpelling, AllLower;
    JumpFacts();
    JumpLiteralsLower();
  }

  lemma OtherLiteralsLower()
    ensures AllLower("let") && AllLower("const") && AllLower("global") && AllLower("pass") && AllLower("any") &&
      AllLower("true") && AllLower("false")
  {
  }

  lemma OtherLower(k: Kind)
    requires IsOther(k)
    ensures OtherSpelling(k).Some? && AllLower(OtherSpelling(k).value) && |OtherSpelling(k).value| >= 2
  {
    hide OtherSpelling, AllLower;
    OtherFacts();
    OtherLiteralsLower();
  }

  // Length, first and last letter tell the keywords apart.
  function Marked(length: nat, first: char, last: char): Kind {
    match (length, first, last)
    case (2, 'i', 'f') => IfKw
    case (2, 'i', 'n') => InKw
    case (2, 'f', 'n') => FnKw
    case (3, 'f', 'r') => ForKw
    case (3, 't', 'y') => TryKw
    case (3, 'l', 't') => LetKw
    case (3, 'a', 'y') => AnyKw
    case (4, 'e', 'e') => ElseKw
    case (4, 'f', 'k') => ForkKw
    case (4, 'p', 's') => PassKw
    case (4, 't', 'e') => TrueKw
    case (5, 'e', 'f') => EndIfKw
    case (5, 'w', 'e') => WhileKw
    case (5, 'b', 'k') => BreakKw
    case (5, 'e', 'n') => EndFnKw
    case (5, 'c', 't') => ConstKw
    case (5, 'f', 'e') => FalseKw
    case (6, 'e', 'f') => ElseIfKw
    case (6, 'e', 'r') => EndForKw
    case (6, 'r', 'n') => ReturnKw
    case (6, 'e', 't') => ExceptKw
    case (6, 'e', 'y') => EndTryKw
    case (6, 'g', 'l') => GlobalKw
    case (7, 'e', 'k') => EndForkKw
    case (7, 'f', 'y') => FinallyKw
    case (8, 'e', 'e') => EndWhileKw
    case (8, 'c', 'e') => ContinueKw
    case _ => Error
  }

  lemma BlockMarked(k: Kind)
    requires IsBlock(k)
    ensures BlockSpelling(k).Some? && |BlockSpelling(k).value| >= 2
    ensures var w := BlockSpelling(k).value; Marked(|w|, w[0], w[|w| - 1]) == k
  {
    hide BlockSpelling;
    BlockFacts();
  }

  lemma JumpMarked(k: Kind)
    requires IsJump(k)
    ensures JumpSpelling(k).Some? && |JumpSpelling(k).value| >= 2
    ensures var w := JumpSpelling(k).value; Marked(|w|, w[0], w[|w| - 1]) == k
  {
    hide JumpSpelling;
    JumpFacts();
  }

  lemma OtherMarked(k: Kind)
    requires IsOther(k)
    ensures OtherSpelling(k).Some? && |OtherSpelling(k).value| >= 2
    ensures var w := OtherSpelling(k).value; Marked(|w|, w[0], w[|w| - 1]) == k
  {
    hide OtherSpelling;
    OtherFacts();
  }

  lemma KeywordLower(k: Kind)
    requires IsKeyword(k)
    ensures KeywordSpelling(k).Some? && AllLower(KeywordSpelling(k).value) && |KeywordSpelling(k).value| >= 2
    ensures var w := KeywordSpelling(k).value; Marked(|w|, w[0], w[|w| - 1]) == k
  {
    hide IsBlock, IsJump, IsOther, BlockSpelling, JumpSpelling, OtherSpelling, AllLower, Marked;
    if IsBlock(k) {
      BlockLower(k);
      BlockMarked(k);
    } else if IsJump(k) {
      JumpLower(k);
      JumpMarked(k);
    } else {
      OtherLower(k);
      OtherMarked(k);
    }
  }

  lemma KeywordKinds(k: Kind)
    ensures KeywordSpelling(k).Some? <==> IsKeyword(k)
  {
    hide IsBlock, IsJump, IsOther, BlockSpelling, JumpSpelling, OtherSpelling;
    BlockKinds(k);
    JumpKinds(k);
    OtherKinds(k);
  }

  // A keyword found is spelled as its kind is.
  lemma OtherSpelled(text: string)
    requires OtherKeywordKind(text).Some?
    ensures var k := OtherKeywordKind(text).value; OtherSpelling(k).Some? && SameWord(text, OtherSpelling(k).value)
  {
    hide SameWord, OtherSpelling, IsWordKind;
    OtherFacts();
  }

  lemma JumpSpelled(text: string)
    requires JumpKeywordKind(text).Some?
    ensures var k := JumpKeywordKind(text).value;
      || (JumpSpelling(k).Some? && SameWord(text, JumpSpelling(k).value))
      || (OtherSpelling(k).Some? && SameWord(text, OtherSpelling(k).value))
  {
    hide SameWord, JumpSpelling, OtherSpelling, OtherKeywordKind, IsWordKind;
    JumpFacts();
    if OtherKeywordKind(text).Some? { OtherSpelled(text); }
  }

  lemma BlockSpelled(text: string)
    requires KeywordKind(text).Some?
    ensures var k := KeywordKind(text).value;
      || (BlockSpelling(k).Some? && SameWord(text, BlockSpelling(k).value))
      || (JumpSpelling(k).Some? && SameWord(text, JumpSpelling(k).value))
      || (OtherSpelling(k).Some? && SameWord(text, OtherSpelling(k).value))
  {
    hide SameWord, BlockSpelling, JumpSpelling, OtherSpelling, JumpKeywordKind, IsWordKind;
    BlockFacts();
    if JumpKeywordKind(text).Some? { JumpSpelled(text); }
  }

  lemma KeywordSpelled(text: string)
    requires KeywordKind(text).Some?
    ensures var k := KeywordKind(text).value;
      IsKeyword(k) && KeywordSpelling(k).Some? && SameWord(text, KeywordSpelling(k).value)
  {
    hide SameWord, KeywordKind, IsBlock, IsJump, IsOther, BlockSpelling, JumpSpelling, OtherSpelling;
    var k := KeywordKind(text).value;
    BlockSpelled(text);
    BlockKinds(k);
    JumpKinds(k);
    OtherKinds(k);
    KeywordTablesDisjoint(k);
  }

  // A text spelled as some keyword is found.
  lemma OtherIsFound(text: string, k: Kind)
    requires OtherSpelling(k).Some? && SameWord(text, OtherSpelling(k).value)
    ensures OtherKeywordKind(text).Some?
  {
    hide SameWord;
  }

  lemma JumpIsFound(text: string, k: Kind)
    requires JumpSpelling(k).Some? && SameWord(text, JumpSpelling(k).value)
    ensures JumpKeywordKind(text).Some?
  {
    hide SameWord, OtherKeywordKind;
  }

  lemma BlockIsFound(text: string, k: Kind)
    requires BlockSpelling(k).Some? && SameWord(text, BlockSpelling(k).value)
    ensures KeywordKind(text).Some?
  {
    hide SameWord, JumpKeywordKind;
  }

  lemma LaterFound(text: string)
    ensures OtherKeywordKind(text).Some? ==> JumpKeywordKind(text).Some?
    ensures JumpKeywordKind(text).Some? ==> KeywordKind(text).Some?
  {
    hide SameWord, OtherKeywordKind, IsWordKind;
  }

  lemma KeywordIsFound(text: string, k: Kind)
    requires KeywordSpelling(k).Some? && SameWord(text, KeywordSpelling(k).value)
    ensures KeywordKind(text).Some?
  {
    hide SameWord, KeywordKind, JumpKeywordKind, OtherKeywordKind, BlockSpelling, JumpSpelling, OtherSpelling, IsBlock, IsJump;
    LaterFound(text);
    if IsBlock(k) {
      BlockIsFound(text, k);
    } else if IsJump(k) {
      JumpIsFound(text, k);
    } else {
      OtherIsFound(text, k);
    }
  }

  // A word is a keyword of a kind exactly when it is that kind's spelling, in any case.
  lemma KeywordExactly(text: string, k: Kind)
    requires KeywordSpelling(k).Some?
    ensures KeywordKind(text) == Some(k) <==> SameWord(text, KeywordSpelling(k).value)
  {
    hide SameWord, KeywordKind, KeywordSpelling, AllLower, Marked, IsKeyword;
    KeywordKinds(k);
    if KeywordKind(text).Some? { KeywordSpelled(text); }
    if SameWord(text, KeywordSpelling(k).value) {
      KeywordIsFound(text, k);
      var j := KeywordKind(text).value;
      KeywordLower(j);
      KeywordLower(k);
      LowerWordsDiffer(text, KeywordSpelling(j).value, KeywordSpelling(k).value);
    }
  }

  lemma KeywordForm(text: string)
    requires KeywordKind(text).Some?
    ensures |text| >= 2 && forall i :: 0 <= i < |text| ==> IsAlpha(text[i])
  {
    hide KeywordKind, KeywordSpelling, IsKeyword, Marked;
    KeywordSpelled(text);
    var k := KeywordKind(text).value;
    KeywordLower(k);
    SameWordIs(text, KeywordSpelling(k).value);
  }

  // ---------------------------------------------------------------- other words

  const TYPE_NAMES: seq<string> :=
    ["type_int", "type_num", "type_float", "type_str", "type_err", "type_obj", "type_list", "type_map", "type_bool",
     "type_flyweight", "type_binary", "type_lambda", "type_sym"]

  predicate IsTypeName(text: string) {
    exists i :: 0 <= i < |TYPE_NAMES| && SameWord(text, TYPE_NAMES[i])
  }

  predicate IsErrorName(text: string) {
    |text| > 2 && (text[0] == 'e' || text[0] == 'E') && text[1] == '_'
  }

  lemma TypeNamesListed(text: string)
    ensures IsTypeConstant(text) <==> IsTypeName(text)
  {
    hide SameWord;
    assert TYPE_NAMES[0] == "type_int" && TYPE_NAMES[1] == "type_num" && TYPE_NAMES[2] == "type_float" && TYPE_NAMES[3] == "type_str";
    assert TYPE_NAMES[4] == "type_err" && TYPE_NAMES[5] == "type_obj" && TYPE_NAMES[6] == "type_list" && TYPE_NAMES[7] == "type_map";
    assert TYPE_NAMES[8] == "type_bool" && TYPE_NAMES[9] == "type_flyweight" && TYPE_NAMES[10] == "type_binary";
    assert TYPE_NAMES[11] == "type_lambda" && TYPE_NAMES[12] == "type_sym";
  }

  lemma TypeNamesMarked(i: nat)
    requires i < |TYPE_NAMES|
    ensures |TYPE_NAMES[i]| > 4 && TYPE_NAMES[i][0] == 't' && TYPE_NAMES[i][4] == '_'
  {
  }

  lemma TypeIndex(text: string) returns (i: nat)
    requires IsTypeName(text)
    ensures i < |TYPE_NAMES| && SameWord(text, TYPE_NAMES[i])
  {
    i :| 0 <= i < |TYPE_NAMES| && SameWord(text, TYPE_NAMES[i]);
  }

  lemma TypeNameForm(text: string)
    requires IsTypeName(text)
    ensures |text| > 4 && (text[0] == 't' || text[0] == 'T') && text[4] == '_'
  {
    hide IsTypeName;
    var i := TypeIndex(text);
    TypeNamesMarked(i);
    SameWordIs(text, TYPE_NAMES[i]);
  }

  lemma ErrorPrefix(text: string)
    requires |text| > 2
    ensures SameWord(text[..2], "e_") <==> (text[0] == 'e' || text[0] == 'E') && text[1] == '_'
  {
    SameWordIs(text[..2], "e_");
    assert SameLetter(text[0], "e_"[0]) <==> text[0] == 'e' || text[0] == 'E';
    assert SameLetter(text[1], "e_"[1]) <==> text[1] == '_';
  }

  // A word that is no keyword.
  lemma NameExactly(text: string)
    ensures KeywordKind(text).Some? ==> !IsTypeName(text) && !IsErrorName(text)
    ensures KeywordKind(text).None? ==>
      WordKind(text) == (if IsTypeName(text) then TypeConstant else if IsErrorName(text) then ErrorLit else Ident)
    ensures IsTypeName(text) ==> !IsErrorName(text)
  {
    hide KeywordKind, IsTypeConstant, IsTypeName, SameWord;
    TypeNamesListed(text);
    if |text| > 2 { ErrorPrefix(text); }
    if KeywordKind(text).Some? { KeywordForm(text); }
    if IsTypeName(text) { TypeNameForm(text); }
  }

  // Which kind a word is: a keyword, a type name, an error name, or else an identifier.
  lemma WordExactly(text: string, k: Kind)
    ensures KeywordSpelling(k).Some? ==> (WordKind(text) == k <==> SameWord(text, KeywordSpelling(k).value))
    ensures WordKind(text) == TypeConstant <==> IsTypeName(text)
    ensures WordKind(text) == ErrorLit <==> IsErrorName(text)
    ensures IsKeyword(WordKind(text)) || WordKind(text) in {TypeConstant, ErrorLit, Ident}
  {
    hide KeywordKind, IsTypeConstant, IsTypeName, IsErrorName, SameWord, KeywordSpelling;
    NameExactly(text);
    KeywordKinds(k);
    if KeywordSpelling(k).Some? { KeywordExactly(text, k); }
    if KeywordKind(text).Some? { KeywordSpelled(text); }
  }

  // ---------------------------------------------------------------- operators

  lemma SignSpelled(c: char)
    ensures OneSign(c) != Error ==> SignSpelling(OneSign(c)) == Some(c)
  {
    hide SignSpelling, IsPlainKind;
    SignFacts();
  }

  lemma OneSpelled(c: char)
    ensures OneCharacter(c) != Error ==> SignSpelling(OneCharacter(c)) == Some(c) || MarkSpelling(OneCharacter(c)) == Some(c)
  {
    hide SignSpelling, MarkSpelling, OneSign, IsPlainKind;
    MarkFacts();
    SignSpelled(c);
  }

  lemma PairSpelled(c: char, d: char)
    ensures TwoCharacters(c, d).Some? ==> PairSpelling(TwoCharacters(c, d).value) == Some((c, d))
  {
    hide PairSpelling, IsWordKind;
    PairFacts();
  }

  lemma SignTable(c: char)
    ensures (c == '+' ==> OneSign(c) == Plus) && (c == '-' ==> OneSign(c) == Minus) &&
      (c == '*' ==> OneSign(c) == Star) && (c == '/' ==> OneSign(c) == Slash) &&
      (c == '%' ==> OneSign(c) == Percent) && (c == '^' ==> OneSign(c) == Caret) &&
      (c == '~' ==> OneSign(c) == Tilde) && (c == '!' ==> OneSign(c) == Bang) &&
      (c == '<' ==> OneSign(c) == Lt) && (c == '>' ==> OneSign(c) == Gt) && (c == '=' ==> OneSign(c) == Eq) &&
      (c == '|' ==> OneSign(c) == Pipe) && (c == '?' ==> OneSign(c) == Question)
  {
    hide IsPlainKind, IsWordKind;
  }

  lemma MarkTable(c: char)
    ensures (c == ';' ==> OneCharacter(c) == Semi) && (c == ',' ==> OneCharacter(c) == Comma) &&
      (c == '.' ==> OneCharacter(c) == Dot) && (c == ':' ==> OneCharacter(c) == Colon) &&
      (c == '@' ==> OneCharacter(c) == AtSign) && (c == '$' ==> OneCharacter(c) == Dollar) &&
      (c == '`' ==> OneCharacter(c) == Backtick) && (c == '(' ==> OneCharacter(c) == LParen) &&
      (c == ')' ==> OneCharacter(c) == RParen) && (c == '{' ==> OneCharacter(c) == LBrace) &&
      (c == '}' ==> OneCharacter(c) == RBrace) && (c == '[' ==> OneCharacter(c) == LBracket) &&
      (c == ']' ==> OneCharacter(c) == RBracket)
  {
    hide IsPlainKind, IsWordKind, OneSign;
  }

  lemma PairTable(c: char, d: char)
    ensures (c == '&' && d == '.' ==> TwoCharacters(c, d) == Some(AmpDot)) &&
      (c == '|' && d == '.' ==> TwoCharacters(c, d) == Some(PipeDot)) &&
      (c == '^' && d == '.' ==> TwoCharacters(c, d) == Some(CaretDot)) &&
      (c == '<' && d == '<' ==> TwoCharacters(c, d) == Some(Shl)) &&
      (c == '>' && d == '>' ==> TwoCharacters(c, d) == Some(Shr)) &&
      (c == '&' && d == '&' ==> TwoCharacters(c, d) == Some(AmpAmp)) &&
      (c == '|' && d == '|' ==> TwoCharacters(c, d) == Some(PipePipe)) &&
      (c == '=' && d == '=' ==> TwoCharacters(c, d) == Some(EqEq)) &&
      (c == '!' && d == '=' ==> TwoCharacters(c, d) == Some(BangEq)) &&
      (c == '<' && d == '=' ==> TwoCharacters(c, d) == Some(LtEq)) &&
      (c == '>' && d == '=' ==> TwoCharacters(c, d) == Some(GtEq)) &&
      (c == '-' && d == '>' ==> TwoCharacters(c, d) == Some(Arrow)) &&
      (c == '=' && d == '>' ==> TwoCharacters(c, d) == Some(FatArrow)) &&
      (c == '.' && d == '.' ==> TwoCharacters(c, d) == Some(DotDot))
  {
    hide IsPlainKind, IsWordKind;
  }

  lemma SignIs(k: Kind, c: char)
    requires SignSpelling(k) == Some(c)
    ensures OneSign(c) == k
  {
    hide IsPlainKind, OneSign;
    SignTable(c);
  }

  lemma MarkIs(k: Kind, c: char)
    requires MarkSpelling(k) == Some(c)
    ensures OneCharacter(c) == k
  {
    hide IsPlainKind, OneCharacter;
    MarkTable(c);
  }

  lemma PairIs(k: Kind, c: char, d: char)
    requires PairSpelling(k) == Some((c, d))
    ensures TwoCharacters(c, d) == Some(k)
  {
    hide IsWordKind, TwoCharacters;
    PairTable(c, d);
  }

  predicate IsMarkChar(c: char) {
    c == ';' || c == ',' || c == '.' || c == ':' || c == '@' || c == '$' || c == '`' || c == '(' || c == ')' ||
    c == '{' || c == '}' || c == '[' || c == ']'
  }

  lemma SignChars(k: Kind, c: char)
    requires SignSpelling(k) == Some(c)
    ensures !IsMarkChar(c)
  {
  }

  lemma SignIsOne(c: char)
    requires !IsMarkChar(c)
    ensures OneCharacter(c) == OneSign(c)
  {
    hide IsPlainKind, OneSign;
  }

}
