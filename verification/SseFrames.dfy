/**
 From blocks to frames: the fields of one block, the reader that yields frames, and a writer
 of the same wire format. Whatever the writer produces, cut anywhere, reads back as written.
 */
module SseFrames {

  import opened Prelude
  import opened SseReader

  datatype SseFrame = SseFrame(event: string, data: string, id: Option<string>)

  // ---------------------------------------------------------------- lines and fields

  function IndexOf(s: string, c: char): (r: Option<nat>)
    ensures r.Some? ==> r.value < |s|
  {
    if s == "" then None
    else if s[0] == c then Some(0)
    else
      var r := IndexOf(s[1..], c);
      if r.None? then None else Some(r.value + 1)
  }

  lemma {:induction false} IndexOfFinds(s: string, c: char)
    ensures match IndexOf(s, c)
      case None => c !in s
      case Some(k) => s == s[..k] + [c] + s[k + 1..] && c !in s[..k]
  {
    if s != "" && s[0] != c {
      IndexOfFinds(s[1..], c);
      if IndexOf(s, c).Some? {
        var k := IndexOf(s[1..], c).value;
        assert s[..k + 1] == [s[0]] + s[1..][..k];
        assert s[k + 2..] == s[1..][k + 1..];
        assert s == [s[0]] + s[1..];
      }
    }
  }

  function DropCr(line: string): string {
    if line != "" && line[|line| - 1] == '\r' then line[..|line| - 1] else line
  }

  // Lines end at LF or CRLF.
  function SplitLines(s: string): (lines: seq<string>)
    ensures lines != []
    decreases |s|
  {
    match IndexOf(s, '\n')
    case None => [s]
    case Some(k) => [DropCr(s[..k])] + SplitLines(s[k + 1..])
  }

  datatype Fields = Fields(event: string, id: Option<string>, data: seq<string>)

  function DropSpace(value: string): string {
    if value != "" && value[0] == ' ' then value[1..] else value
  }

  // One line of a block: a comment, a field, or something to ignore.
  function TakeLine(f: Fields, line: string): Fields {
    if line != "" && line[0] == ':' then f
    else
      var colon := IndexOf(line, ':');
      var name := if colon.None? then line else line[..colon.value];
      var value := if colon.None? then "" else DropSpace(line[colon.value + 1..]);
      if name == "event" then f.(event := value)
      else if name == "data" then f.(data := f.data + [value])
      else if name == "id" then f.(id := Some(value))
      else f
  }

  function TakeLines(f: Fields, lines: seq<string>): Fields
    decreases |lines|
  {
    if lines == [] then f else TakeLines(TakeLine(f, lines[0]), lines[1..])
  }

  function JoinLf(lines: seq<string>): string
    requires lines != []
  {
    if |lines| == 1 then lines[0] else lines[0] + "\n" + JoinLf(lines[1..])
  }

  const NoFields: Fields := Fields("message", None, [])

  // A block without data yields nothing.
  function ParseBlock(block: string): Option<SseFrame> {
    var f := TakeLines(NoFields, SplitLines(block));
    if f.data == [] then None else Some(SseFrame(f.event, JoinLf(f.data), f.id))
  }

  function FramesOf(blocks: seq<string>): seq<SseFrame> {
    if blocks == [] then []
    else
      var rest := FramesOf(blocks[..|blocks| - 1]);
      match ParseBlock(blocks[|blocks| - 1])
      case None => rest
      case Some(frame) => rest + [frame]
  }

  // ---------------------------------------------------------------- the reader

  method ReadBlock(block: string) returns (frame: Option<SseFrame>)
    ensures frame == ParseBlock(block)
  {
    var lines := SplitLines(block);
    var fields := NoFields;
    for i := 0 to |lines|
      invariant TakeLines(fields, lines[i..]) == TakeLines(NoFields, lines)
    {
      assert lines[i..][0] == lines[i] && lines[i..][1..] == lines[i + 1..];
      fields := TakeLine(fields, lines[i]);
    }
    if fields.data == [] {
      return None;
    }
    return Some(SseFrame(fields.event, JoinLf(fields.data), fields.id));
  }

  lemma FramesAppend(taken: seq<string>, block: string)
    ensures FramesOf(taken + [block])
         == match ParseBlock(block) case None => FramesOf(taken) case Some(frame) => FramesOf(taken) + [frame]
  {
    assert (taken + [block])[..|taken|] == taken;
  }

  lemma PutAllAppend(taken: seq<string>, block: string, d: Drained)
    ensures PutAll(taken, PutFirst(block, d)) == PutAll(taken + [block], d)
  {
    assert taken + ([block] + d.blocks) == taken + [block] + d.blocks;
  }

  lemma PutNone(taken: seq<string>, rest: string, threw: bool)
    ensures PutAll(taken, Drained([], rest, threw)) == Drained(taken, rest, threw)
    ensures PutAll([], Drain(rest)) == Drain(rest)
  {
    assert taken + [] == taken && [] + Drain(rest).blocks == Drain(rest).blocks;
  }

  // Takes the complete blocks off the buffer; what is left waits for more text.
  method TakeBlocks(buffer: string) returns (frames: seq<SseFrame>, rest: string, threw: bool)
    ensures frames == FramesOf(Drain(buffer).blocks) && rest == Drain(buffer).rest && threw == Drain(buffer).threw
  {
    frames, rest, threw := [], buffer, false;
    ghost var taken: seq<string> := [];
    PutNone([], buffer, false);
    var next := FirstBlock(rest);
    while next.Some?
      invariant !threw && next == FirstBlock(rest) && frames == FramesOf(taken)
      invariant Drain(buffer) == PutAll(taken, Drain(rest))
      decreases |rest|
    {
      var cut := next.value;
      PutNone(taken, cut.rest, true);
      if |cut.block| > MAX_SSE_FRAME_CHARS {
        return frames, cut.rest, true;
      }
      PutAllAppend(taken, cut.block, Drain(cut.rest));
      FramesAppend(taken, cut.block);
      var frame := ReadBlock(cut.block);
      if frame.Some? {
        frames := frames + [frame.value];
      }
      rest, taken := cut.rest, taken + [cut.block];
      next := FirstBlock(rest);
    }
    PutNone(taken, rest, false);
  }

  lemma {:induction false} FramesConcat(a: seq<string>, b: seq<string>)
    ensures FramesOf(a + b) == FramesOf(a) + FramesOf(b)
    decreases |b|
  {
    if b == [] {
      assert a + b == a;
    } else {
      assert (a + b)[..|a + b| - 1] == a + b[..|b| - 1];
      FramesConcat(a, b[..|b| - 1]);
    }
  }

  function After(taken: seq<string>, o: Outcome): Outcome {
    o.(blocks := taken + o.blocks)
  }

  lemma ReadStep(taken: seq<string>, buffer: string, chunks: seq<string>)
    requires chunks != []
    ensures var d := Drain(buffer + chunks[0]);
      After(taken, Read(buffer, chunks))
      == if d.threw || |d.rest| > MAX_SSE_FRAME_CHARS then Outcome(taken + d.blocks, true)
         else After(taken + d.blocks, Read(d.rest, chunks[1..]))
  {
    var d := Drain(buffer + chunks[0]);
    if !(d.threw || |d.rest| > MAX_SSE_FRAME_CHARS) {
      var o := Read(d.rest, chunks[1..]);
      assert taken + (d.blocks + o.blocks) == taken + d.blocks + o.blocks;
    }
  }

  // The reader: the frames of the blocks `Read` delivers, and whether it failed.
  method ReadSse(chunks: seq<string>) returns (frames: seq<SseFrame>, threw: bool)
    ensures frames == FramesOf(Read("", chunks).blocks) && threw == Read("", chunks).threw
  {
    var buffer := "";
    frames, threw := [], false;
    ghost var taken: seq<string> := [];
    assert chunks[0..] == chunks && [] + Read("", chunks).blocks == Read("", chunks).blocks;
    for i := 0 to |chunks|
      invariant !threw && frames == FramesOf(taken)
      invariant Read("", chunks) == After(taken, Read(buffer, chunks[i..]))
    {
      ReadStep(taken, buffer, chunks[i..]);
      assert chunks[i..][0] == chunks[i] && chunks[i..][1..] == chunks[i + 1..];
      ghost var d := Drain(buffer + chunks[i]);
      var more, rest, failed := TakeBlocks(buffer + chunks[i]);
      FramesConcat(taken, d.blocks);
      frames := frames + more;
      if failed || |rest| > MAX_SSE_FRAME_CHARS {
        return frames, true;
      }
      buffer, taken := rest, taken + d.blocks;
    }
    assert taken + [] == taken;
  }

  // ---------------------------------------------------------------- the writer

  predicate OneLine(s: string) {
    '\r' !in s && '\n' !in s
  }

  predicate Writable(f: SseFrame) {
    OneLine(f.event) && '\r' !in f.data && (f.id.Some? ==> OneLine(f.id.value))
  }

  function Field(name: string, value: string): string {
    name + ": " + value
  }

  function DataLines(lines: seq<string>): (r: seq<string>)
    ensures |r| == |lines|
  {
    if lines == [] then [] else [Field("data", lines[0])] + DataLines(lines[1..])
  }

  function FrameLines(f: SseFrame): seq<string> {
    (if f.id.Some? then [Field("id", f.id.value)] else []) + [Field("event", f.event)] + DataLines(SplitLines(f.data))
  }

  function FrameBlock(f: SseFrame): string {
    JoinLf(FrameLines(f))
  }

  function Write(fs: seq<SseFrame>): string {
    if fs == [] then "" else FrameBlock(fs[0]) + "\n\n" + Write(fs[1..])
  }

  // ---------------------------------------------------------------- splitting undoes joining

  lemma {:induction false} IndexOfIn(a: string, c: char, b: string)
    requires c !in a
    ensures IndexOf(a + [c] + b, c) == Some(|a|)
  {
    var s := a + [c] + b;
    if a == "" {
      assert s[0] == c;
    } else {
      assert s[0] == a[0] && a[0] in a;
      assert s[1..] == a[1..] + [c] + b;
      IndexOfIn(a[1..], c, b);
    }
  }

  lemma SplitFirst(line: string, rest: string)
    requires OneLine(line)
    ensures SplitLines(line + "\n" + rest) == [line] + SplitLines(rest)
  {
    var s := line + "\n" + rest;
    assert s == line + ['\n'] + rest;
    IndexOfIn(line, '\n', rest);
    assert s[..|line|] == line && s[|line| + 1..] == rest;
    assert line != "" ==> line[|line| - 1] in line;
  }

  lemma {:induction false} SplitJoined(lines: seq<string>)
    requires lines != [] && forall l :: l in lines ==> OneLine(l)
    ensures SplitLines(JoinLf(lines)) == lines
  {
    assert lines[0] in lines;
    if |lines| == 1 {
      IndexOfFinds(lines[0], '\n');
    } else {
      SplitFirst(lines[0], JoinLf(lines[1..]));
      SplitJoined(lines[1..]);
    }
  }

  lemma SplitCut(s: string, k: nat)
    requires '\r' !in s && IndexOf(s, '\n') == Some(k)
    ensures SplitLines(s) == [s[..k]] + SplitLines(s[k + 1..]) && OneLine(s[..k])
  {
    IndexOfFinds(s, '\n');
    assert s[..k] != "" ==> s[..k][k - 1] in s;
  }

  lemma {:induction false} JoinSplit(s: string)
    requires '\r' !in s
    ensures JoinLf(SplitLines(s)) == s && forall l :: l in SplitLines(s) ==> OneLine(l)
    decreases |s|
  {
    IndexOfFinds(s, '\n');
    if IndexOf(s, '\n').Some? {
      var k := IndexOf(s, '\n').value;
      SplitCut(s, k);
      JoinSplit(s[k + 1..]);
      JoinCons(s[..k], SplitLines(s[k + 1..]));
    }
  }

  lemma JoinCons(line: string, rest: seq<string>)
    requires rest != []
    ensures JoinLf([line] + rest) == line + "\n" + JoinLf(rest)
  {
    assert ([line] + rest)[1..] == rest;
  }

  // ---------------------------------------------------------------- fields read back

  lemma FieldParts(name: string, value: string)
    requires name != "" && ':' !in name
    ensures var line := Field(name, value);
      && line[0] != ':'
      && IndexOf(line, ':') == Some(|name|)
      && line[..|name|] == name
      && DropSpace(line[|name| + 1..]) == value
  {
    var line := Field(name, value);
    IndexOfIn(name, ':', " " + value);
    assert line == name + [':'] + (" " + value);
    assert name[0] in name && line[0] == name[0];
    assert line[|name| + 1..] == " " + value;
  }

  lemma TakeField(f: Fields, name: string, value: string)
    requires name in ["event", "data", "id"]
    ensures TakeLine(f, Field(name, value))
         == if name == "event" then f.(event := value) else if name == "data" then f.(data := f.data + [value]) else f.(id := Some(value))
  {
    assert ':' !in "event" && ':' !in "data" && ':' !in "id";
    FieldParts(name, value);
  }

  lemma TakeLinesCons(f: Fields, line: string, rest: seq<string>)
    ensures TakeLines(f, [line] + rest) == TakeLines(TakeLine(f, line), rest)
  {
    assert ([line] + rest)[1..] == rest;
  }

  lemma {:induction false} TakeDataLines(f: Fields, lines: seq<string>)
    ensures TakeLines(f, DataLines(lines)) == f.(data := f.data + lines)
    decreases |lines|
  {
    if lines == [] {
      assert f.data + [] == f.data;
    } else {
      TakeLinesCons(f, Field("data", lines[0]), DataLines(lines[1..]));
      TakeField(f, "data", lines[0]);
      TakeDataLines(f.(data := f.data + [lines[0]]), lines[1..]);
      assert f.data + [lines[0]] + lines[1..] == f.data + lines;
    }
  }

  lemma TakeFrameLines(f: SseFrame)
    ensures TakeLines(NoFields, FrameLines(f)) == Fields(f.event, f.id, SplitLines(f.data))
  {
    var data := DataLines(SplitLines(f.data));
    var tail := [Field("event", f.event)] + data;
    var start := NoFields.(id := f.id);
    if f.id.Some? {
      TakeField(NoFields, "id", f.id.value);
      assert FrameLines(f) == [Field("id", f.id.value)] + tail;
      assert FrameLines(f)[1..] == tail;
    } else {
      assert FrameLines(f) == tail;
    }
    TakeField(start, "event", f.event);
    assert tail[1..] == data;
    TakeDataLines(start.(event := f.event), SplitLines(f.data));
    assert [] + SplitLines(f.data) == SplitLines(f.data);
  }

  lemma {:induction false} DataLinesOneLine(lines: seq<string>)
    requires forall l :: l in lines ==> OneLine(l)
    ensures forall l :: l in DataLines(lines) ==> OneLine(l) && l != ""
  {
    if lines != [] {
      assert lines[0] in lines;
      DataLinesOneLine(lines[1..]);
      FieldOneLine("data", lines[0]);
    }
  }

  lemma FieldOneLine(name: string, value: string)
    requires OneLine(name) && OneLine(value)
    ensures OneLine(Field(name, value)) && Field(name, value) != ""
  {
  }

  lemma FrameLinesOneLine(f: SseFrame)
    requires Writable(f)
    ensures FrameLines(f) != [] && forall l :: l in FrameLines(f) ==> OneLine(l) && l != ""
  {
    JoinSplit(f.data);
    DataLinesOneLine(SplitLines(f.data));
  }

  lemma ParseWritten(f: SseFrame)
    requires Writable(f)
    ensures ParseBlock(FrameBlock(f)) == Some(f)
  {
    FrameLinesOneLine(f);
    SplitJoined(FrameLines(f));
    TakeFrameLines(f);
    JoinSplit(f.data);
  }

  // ---------------------------------------------------------------- blocks read back

  // No line of the text is blank, and its last line is not ended.
  ghost predicate NoBlankLine(s: string) {
    && s != "" && s[0] != '\n' && '\r' !in s
    && forall j :: 0 <= j < |s| && s[j] == '\n' ==> j + 1 < |s| && s[j + 1] != '\n'
  }

  lemma {:induction false} JoinNoBlank(lines: seq<string>)
    requires lines != [] && forall l :: l in lines ==> OneLine(l) && l != ""
    ensures NoBlankLine(JoinLf(lines))
  {
    assert lines[0] in lines;
    var first := lines[0];
    assert first[0] in first;
    if |lines| > 1 {
      JoinNoBlank(lines[1..]);
      var rest := JoinLf(lines[1..]);
      var s := first + "\n" + rest;
      assert forall k :: 0 <= k < |first| ==> s[k] == first[k] && first[k] in first;
      forall j | 0 <= j < |s| && s[j] == '\n'
        ensures j + 1 < |s| && s[j + 1] != '\n'
      {
        assert j >= |first|;
        if j > |first| { assert s[j] == rest[j - |first| - 1]; }
      }
    } else {
      forall j | 0 <= j < |first|
        ensures first[j] != '\n'
      {
        assert first[j] in first;
      }
    }
  }

  lemma BlockReadsBack(block: string, rest: string)
    requires NoBlankLine(block)
    ensures FirstBlock(block + "\n\n" + rest) == Some(Cut(block, 2, rest))
  {
    var s := block + "\n\n" + rest;
    forall j | 0 <= j < |block|
      ensures SeparatorAt(s, j) == 0
    {
      assert s[j] == block[j] && block[j] in block;
      assert s[j + 1] == if j + 1 < |block| then block[j + 1] else '\n';
    }
    assert s[|block|] == '\n' && s[|block| + 1] == '\n';
    FirstSeparatorIs(s, |block|);
    assert s[..|block|] == block && s[|block| + 2..] == rest;
  }

  function BlocksOf(fs: seq<SseFrame>): seq<string> {
    if fs == [] then [] else [FrameBlock(fs[0])] + BlocksOf(fs[1..])
  }

  lemma {:induction false} WrittenDrains(fs: seq<SseFrame>)
    requires forall f :: f in fs ==> Writable(f) && |FrameBlock(f)| < MAX_SSE_FRAME_CHARS
    ensures Drain(Write(fs)) == Drained(BlocksOf(fs), "", false) && Clean(Write(fs))
  {
    if fs == [] {
      FirstSeparatorFinds("", 0);
    } else {
      assert fs[0] in fs;
      FrameLinesOneLine(fs[0]);
      JoinNoBlank(FrameLines(fs[0]));
      BlockReadsBack(FrameBlock(fs[0]), Write(fs[1..]));
      WrittenDrains(fs[1..]);
    }
  }

  lemma {:induction false} WrittenParse(fs: seq<SseFrame>)
    requires forall f :: f in fs ==> Writable(f)
    ensures FramesOf(BlocksOf(fs)) == fs
  {
    if fs != [] {
      assert fs[0] in fs;
      ParseWritten(fs[0]);
      WrittenParse(fs[1..]);
      FramesConcat([FrameBlock(fs[0])], BlocksOf(fs[1..]));
      assert [FrameBlock(fs[0])][..0] == [];
      assert FramesOf([FrameBlock(fs[0])]) == [fs[0]];
    }
  }

  // Frames written to the wire and cut into any chunks read back as they were.
  lemma WrittenFramesReadBack(fs: seq<SseFrame>, chunks: seq<string>)
    requires forall f :: f in fs ==> Writable(f) && |FrameBlock(f)| < MAX_SSE_FRAME_CHARS
    requires Concat(chunks) == Write(fs)
    ensures !Read("", chunks).threw && FramesOf(Read("", chunks).blocks) == fs
  {
    WrittenDrains(fs);
    WrittenParse(fs);
    ChunkingIndependentExactly(Write(fs));
    ReadWhole(Write(fs));
  }

}
