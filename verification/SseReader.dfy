/**
 The incremental reader of a server-sent event stream (sections 9.2.5 and 9.2.6 of the WHATWG
 HTML Living Standard, with LF and CRLF line ends). Chunks of decoded text are appended to a
 buffer and complete blocks are taken off its front, under a limit on how much may wait.

 The main result says exactly when the way the text is cut into chunks does not matter.
 */
module SseReader {

  import opened Prelude

  const MAX_SSE_FRAME_CHARS: nat := 24 * 1024 * 1024

  // ---------------------------------------------------------------- blank lines

  // The length of a blank-line separator starting at i, 0 if there is none.
  function SeparatorAt(s: string, i: nat): nat {
    var a := if i < |s| && s[i] == '\r' then i + 1 else i;
    if a >= |s| || s[a] != '\n' then 0
    else
      var b := if a + 1 < |s| && s[a + 1] == '\r' then a + 2 else a + 1;
      if b >= |s| || s[b] != '\n' then 0 else b + 1 - i
  }

  // The leftmost separator at or after `from`.
  function FirstSeparator(s: string, from: nat): Option<nat>
    decreases |s| - from
  {
    if from >= |s| then None
    else if SeparatorAt(s, from) > 0 then Some(from)
    else FirstSeparator(s, from + 1)
  }

  lemma {:induction false} FirstSeparatorFinds(s: string, from: nat)
    ensures match FirstSeparator(s, from)
      case None => forall j :: from <= j ==> SeparatorAt(s, j) == 0
      case Some(i) => from <= i && SeparatorAt(s, i) > 0 && forall j :: from <= j < i ==> SeparatorAt(s, j) == 0
    decreases |s| - from
  {
    if from < |s| && SeparatorAt(s, from) == 0 { FirstSeparatorFinds(s, from + 1); }
  }

  // Separators are not changed by what follows them, and an earlier one does not end later.
  lemma SeparatorLocal(x: string, y: string, i: nat)
    ensures SeparatorAt(x, i) > 0 ==> SeparatorAt(x + y, i) == SeparatorAt(x, i)
    ensures SeparatorAt(x + y, i) > 0 && i + SeparatorAt(x + y, i) <= |x| ==> SeparatorAt(x, i) == SeparatorAt(x + y, i)
  {
  }

  lemma SeparatorEnds(s: string, j: nat, i: nat)
    requires j < i && SeparatorAt(s, j) > 0 && SeparatorAt(s, i) > 0
    ensures j + SeparatorAt(s, j) <= i + SeparatorAt(s, i)
  {
  }

  lemma FirstSeparatorIs(s: string, i: nat)
    requires SeparatorAt(s, i) > 0 && forall j :: 0 <= j < i ==> SeparatorAt(s, j) == 0
    ensures FirstSeparator(s, 0) == Some(i)
  {
    FirstSeparatorFinds(s, 0);
  }

  // ---------------------------------------------------------------- taking blocks

  datatype Cut = Cut(block: string, separator: nat, rest: string)

  // The first complete block of a text, its separator's length, and what follows.
  function FirstBlock(s: string): (r: Option<Cut>)
    ensures r.Some? ==> |r.value.block| + r.value.separator + |r.value.rest| == |s| && r.value.separator >= 2
  {
    FirstSeparatorFinds(s, 0);
    match FirstSeparator(s, 0)
    case None => None
    case Some(i) => Some(Cut(s[..i], SeparatorAt(s, i), s[i + SeparatorAt(s, i)..]))
  }

  // Text that follows joins the rest; a block that text completes ends in that text.
  lemma FirstBlockExtends(x: string, y: string)
    ensures FirstBlock(x).Some? ==> FirstBlock(x + y) == Some(FirstBlock(x).value.(rest := FirstBlock(x).value.rest + y))
    ensures FirstBlock(x).None? && FirstBlock(x + y).Some? ==>
      |FirstBlock(x + y).value.block| + FirstBlock(x + y).value.separator > |x|
  {
    hide FirstSeparator;
    FirstSeparatorFinds(x, 0);
    FirstSeparatorFinds(x + y, 0);
    if FirstSeparator(x, 0).Some? {
      FoundBlockExtends(x, y, FirstSeparator(x, 0).value);
    } else if FirstSeparator(x + y, 0).Some? {
      SeparatorLocal(x, y, FirstSeparator(x + y, 0).value);
    }
  }

  lemma FoundBlockExtends(x: string, y: string, i: nat)
    requires FirstSeparator(x, 0) == Some(i)
    ensures FirstSeparator(x + y, 0) == Some(i) && SeparatorAt(x + y, i) == SeparatorAt(x, i)
    ensures var n := SeparatorAt(x, i); i + n <= |x| && (x + y)[i + n..] == x[i + n..] + y && (x + y)[..i] == x[..i]
  {
    FirstSeparatorFinds(x, 0);
    SeparatorLocal(x, y, i);
    forall j | 0 <= j < i
      ensures SeparatorAt(x + y, j) == 0
    {
      SeparatorLocal(x, y, j);
      if SeparatorAt(x + y, j) > 0 { SeparatorEnds(x + y, j, i); }
    }
    FirstSeparatorIs(x + y, i);
  }

  // A text is its first block, the separator, and the rest; the cut may be found in any prefix
  // that holds the whole separator, and in none shorter.
  lemma FirstBlockInPrefix(text: string, n: nat)
    requires FirstBlock(text).Some? && n <= |text|
    ensures var c := FirstBlock(text).value;
      var end := |c.block| + c.separator;
      && (n < end ==> FirstBlock(text[..n]).None?)
      && (n >= end ==> FirstBlock(text[..n]) == Some(c.(rest := c.rest[..n - end])))
  {
    var c := FirstBlock(text).value;
    assert text == text[..n] + text[n..];
    FirstBlockExtends(text[..n], text[n..]);
    if FirstBlock(text[..n]).Some? {
      var r := FirstBlock(text[..n]).value.rest;
      assert c.rest == r + text[n..];
      assert c.rest[..|r|] == r;
    }
  }

  datatype Drained = Drained(blocks: seq<string>, rest: string, threw: bool)

  // Takes every complete block off the buffer, failing at one over the limit.
  function Drain(buffer: string): Drained
    decreases |buffer|
  {
    match FirstBlock(buffer)
    case None => Drained([], buffer, false)
    case Some(c) =>
      if |c.block| > MAX_SSE_FRAME_CHARS then Drained([], c.rest, true)
      else
        var d := Drain(c.rest);
        Drained([c.block] + d.blocks, d.rest, d.threw)
  }

  // What a reader has delivered when the stream ends or fails.
  datatype Outcome = Outcome(blocks: seq<string>, threw: bool)

  function Read(buffer: string, chunks: seq<string>): Outcome
    decreases |chunks|
  {
    if chunks == [] then Outcome([], false)
    else
      var d := Drain(buffer + chunks[0]);
      if d.threw || |d.rest| > MAX_SSE_FRAME_CHARS then Outcome(d.blocks, true)
      else
        var o := Read(d.rest, chunks[1..]);
        Outcome(d.blocks + o.blocks, o.threw)
  }

  function Concat(chunks: seq<string>): string {
    if chunks == [] then "" else chunks[0] + Concat(chunks[1..])
  }

  // Up to the first block over the limit, every block fits with all but the last character of
  // its separator.
  predicate Clean(text: string)
    decreases |text|
  {
    match FirstBlock(text)
    case None => true
    case Some(c) =>
      || |c.block| > MAX_SSE_FRAME_CHARS
      || (|c.block| + c.separator - 1 <= MAX_SSE_FRAME_CHARS && Clean(c.rest))
  }

  // Reading all at once what is left in the buffer and what is to come.
  function ReadAtOnce(text: string): Outcome {
    var d := Drain(text);
    Outcome(d.blocks, d.threw || |d.rest| > MAX_SSE_FRAME_CHARS)
  }

  lemma {:induction false} DrainRestHasNone(buffer: string)
    requires !Drain(buffer).threw
    ensures FirstBlock(Drain(buffer).rest).None?
    decreases |buffer|
  {
    if FirstBlock(buffer).Some? { DrainRestHasNone(FirstBlock(buffer).value.rest); }
  }

  // More text does not change the blocks already complete.
  lemma {:induction false} DrainThrowExtends(x: string, y: string)
    requires Drain(x).threw
    ensures Drain(x + y).blocks == Drain(x).blocks && Drain(x + y).threw
    decreases |x|
  {
    FirstBlockExtends(x, y);
    var c := FirstBlock(x).value;
    if |c.block| <= MAX_SSE_FRAME_CHARS { DrainThrowExtends(c.rest, y); }
  }

  lemma DrainOne(x: string, y: string, c: Cut)
    requires FirstBlock(x) == Some(c) && |c.block| <= MAX_SSE_FRAME_CHARS
    ensures Drain(x + y) == PutFirst(c.block, Drain(c.rest + y))
    ensures Drain(x) == PutFirst(c.block, Drain(c.rest))
  {
    FirstBlockExtends(x, y);
  }

  function PutFirst(block: string, d: Drained): Drained {
    d.(blocks := [block] + d.blocks)
  }

  function PutAll(blocks: seq<string>, d: Drained): Drained {
    d.(blocks := blocks + d.blocks)
  }

  lemma PutAllFirst(block: string, blocks: seq<string>, d: Drained)
    ensures PutFirst(block, PutAll(blocks, d)) == PutAll([block] + blocks, d)
  {
    assert [block] + (blocks + d.blocks) == [block] + blocks + d.blocks;
  }

  lemma {:induction false} DrainExtends(x: string, y: string)
    requires !Drain(x).threw
    ensures Drain(x + y) == PutAll(Drain(x).blocks, Drain(Drain(x).rest + y))
    decreases |x|
  {
    match FirstBlock(x)
    case None =>
      assert [] + Drain(x + y).blocks == Drain(x + y).blocks;
    case Some(c) =>
      DrainOne(x, y, c);
      DrainExtends(c.rest, y);
      PutAllFirst(c.block, Drain(c.rest).blocks, Drain(Drain(x).rest + y));
  }

  lemma {:induction false} CleanRest(x: string, y: string)
    requires Clean(x + y) && !Drain(x).threw
    ensures Clean(Drain(x).rest + y)
    decreases |x|
  {
    FirstBlockExtends(x, y);
    if FirstBlock(x).Some? { CleanRest(FirstBlock(x).value.rest, y); }
  }

  // A buffer that has outgrown the limit fails now exactly as it would later.
  lemma OverfullFails(rest: string, y: string)
    requires FirstBlock(rest).None? && |rest| > MAX_SSE_FRAME_CHARS && Clean(rest + y)
    ensures ReadAtOnce(rest + y) == Outcome([], true)
  {
    FirstBlockExtends(rest, y);
  }

  lemma {:induction false} CleanReadsAtOnce(buffer: string, chunks: seq<string>)
    requires Clean(buffer + Concat(chunks)) && FirstBlock(buffer).None? && |buffer| <= MAX_SSE_FRAME_CHARS
    ensures Read(buffer, chunks) == ReadAtOnce(buffer + Concat(chunks))
    decreases |chunks|
  {
    if chunks == [] {
      assert buffer + Concat(chunks) == buffer;
    } else {
      var x, y := buffer + chunks[0], Concat(chunks[1..]);
      assert buffer + Concat(chunks) == x + y;
      var d := Drain(x);
      if d.threw {
        DrainThrowExtends(x, y);
      } else {
        DrainExtends(x, y);
        DrainRestHasNone(x);
        CleanRest(x, y);
        if |d.rest| > MAX_SSE_FRAME_CHARS {
          OverfullFails(d.rest, y);
          assert d.blocks + [] == d.blocks;
        } else {
          CleanReadsAtOnce(d.rest, chunks[1..]);
        }
      }
    }
  }

  // Where a text is not clean, one cut makes the reader give up on a block it would have read.
  lemma {:induction false} UncleanCut(text: string) returns (n: nat)
    requires !Clean(text)
    ensures n <= |text| && !Drain(text[..n]).threw && |Drain(text[..n]).rest| > MAX_SSE_FRAME_CHARS
    ensures |Drain(text[..n]).blocks| < |Drain(text).blocks|
    decreases |text|
  {
    hide FirstBlock;
    var c := FirstBlock(text).value;
    var end := |c.block| + c.separator;
    if end - 1 > MAX_SSE_FRAME_CHARS {
      n := end - 1;
      FirstBlockInPrefix(text, n);
    } else {
      var m := UncleanCut(c.rest);
      n := end + m;
      FirstBlockInPrefix(text, n);
    }
  }

  lemma UncleanDiffers(text: string) returns (chunks: seq<string>)
    requires !Clean(text)
    ensures Concat(chunks) == text && Read("", chunks) != Read("", [text])
  {
    var n := UncleanCut(text);
    chunks := [text[..n], text[n..]];
    ConcatTwo(text[..n], text[n..]);
    assert chunks == [text[..n]] + [text[n..]];
    assert text == text[..n] + text[n..];
    ReadWhole(text);
    ReadGivesUp(text[..n], [text[n..]]);
  }

  lemma ReadGivesUp(first: string, more: seq<string>)
    requires !Drain(first).threw && |Drain(first).rest| > MAX_SSE_FRAME_CHARS
    ensures Read("", [first] + more) == Outcome(Drain(first).blocks, true)
  {
    assert ([first] + more)[0] == first && "" + first == first;
  }

  // Chunking never matters for a text exactly when the text is clean.
  lemma ChunkingIndependentExactly(text: string)
    ensures Clean(text) <==> forall chunks :: Concat(chunks) == text ==> Read("", chunks) == Read("", [text])
  {
    if Clean(text) {
      forall chunks | Concat(chunks) == text
        ensures Read("", chunks) == Read("", [text])
      {
        assert "" + Concat(chunks) == text;
        CleanReadsAtOnce("", chunks);
        ReadWhole(text);
      }
    } else {
      var chunks := UncleanDiffers(text);
    }
  }

  // A block of exactly the limit and its separator: read as one block in one piece, and given up on when the last
  // line feed comes in a chunk of its own.
  lemma LimitBlockExample(block: string)
    requires |block| == MAX_SSE_FRAME_CHARS && '\n' !in block && '\r' !in block
    ensures !Clean(block + "\n\n")
    ensures Read("", [block + "\n\n"]) == Outcome([block], false)
    ensures Read("", [block + "\n", "\n"]) == Outcome([], true)
  {
    WholeBlockReads(block);
    CutBlockFails(block);
  }

  lemma LinesHaveNoSeparator(block: string, tail: string, j: nat)
    requires '\n' !in block && '\r' !in block && j < |block|
    ensures SeparatorAt(block + tail, j) == 0
  {
    var text := block + tail;
    assert text[j] == block[j];
    if j + 1 < |block| { assert text[j + 1] == block[j + 1]; }
  }

  lemma WholeBlockReads(block: string)
    requires |block| == MAX_SSE_FRAME_CHARS && '\n' !in block && '\r' !in block
    ensures !Clean(block + "\n\n") && Read("", [block + "\n\n"]) == Outcome([block], false)
  {
    hide SeparatorAt, FirstSeparator;
    var text := block + "\n\n";
    forall j | 0 <= j < |block| ensures SeparatorAt(text, j) == 0 { LinesHaveNoSeparator(block, "\n\n", j); }
    BlankLineSeparates(text, |block|);
    FirstSeparatorIs(text, |block|);
    assert text[..|block|] == block && text[|block| + 2..] == "";
    assert FirstBlock(text) == Some(Cut(block, 2, ""));
    NothingToDrain();
    ReadWhole(text);
  }

  lemma BlankLineSeparates(text: string, i: nat)
    requires i + 2 == |text| && text[i] == text[i + 1] == '\n'
    ensures SeparatorAt(text, i) == 2
  {
  }

  lemma NothingToDrain()
    ensures Drain("") == Drained([], "", false)
  {
  }

  lemma CutBlockFails(block: string)
    requires |block| == MAX_SSE_FRAME_CHARS && '\n' !in block && '\r' !in block
    ensures Read("", [block + "\n", "\n"]) == Outcome([], true)
  {
    hide FirstSeparator;
    var first := block + "\n";
    forall j | 0 <= j < |block| ensures SeparatorAt(first, j) == 0 { LinesHaveNoSeparator(block, "\n", j); }
    assert SeparatorAt(first, |block|) == 0;
    FirstSeparatorFinds(first, 0);
    assert FirstBlock(first).None?;
    ReadGivesUp(first, ["\n"]);
    assert [first] + ["\n"] == [first, "\n"];
  }

  // There is such a block, so not every text is clean.
  lemma UncleanExample() returns (block: string)
    ensures !Clean(block + "\n\n") && Read("", [block + "\n\n"]) != Read("", [block + "\n", "\n"])
  {
    block := seq(MAX_SSE_FRAME_CHARS, _ => 'a');
    LimitBlockExample(block);
  }

  lemma ConcatTwo(a: string, b: string)
    ensures Concat([a, b]) == a + b
  {
    assert [a, b][1..] == [b] && [b][1..] == [];
    assert Concat([b]) == b + "" == b;
  }

  lemma ReadWhole(text: string)
    ensures Read("", [text]) == ReadAtOnce(text)
  {
    assert "" + text == text;
    assert [text][1..] == [];
    assert Drain(text).blocks + [] == Drain(text).blocks;
  }

}
