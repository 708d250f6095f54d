/**
 Every way of writing a stream of frames that the format allows: lines ended by LF or CRLF, comments, fields this
 reader does not know, fields with and without a space or a value. However it is written, and however it is cut into
 chunks, it is read as what its lines mean.
 */
module SseDialects {

  import opened Prelude
  import opened SseReader
  import opened SseFrames

  // ---------------------------------------------------------------- lines

  datatype Line = Comment(text: string) | Named(name: string, value: string, spaced: bool) | Bare(name: string)

  function LineText(line: Line): string {
    match line
    case Comment(text) => ":" + text
    case Named(name, value, spaced) => name + (if spaced then ": " else ":") + value
    case Bare(name) => name
  }

  predicate ValidLine(line: Line) {
    && OneLine(LineText(line))
    && match line
       case Comment(_) => true
       case Named(name, value, spaced) => name != "" && ':' !in name && (!spaced ==> value == "" || value[0] != ' ')
       case Bare(name) => name != "" && ':' !in name
  }

  // What a field does: the last event and the last id count, and all the data.
  function Take(f: Fields, name: string, value: string): Fields {
    match name
    case "event" => f.(event := value)
    case "data" => f.(data := f.data + [value])
    case "id" => f.(id := Some(value))
    case _ => f
  }

  function TakeMeaning(f: Fields, line: Line): Fields {
    match line
    case Comment(_) => f
    case Named(name, value, _) => Take(f, name, value)
    case Bare(name) => Take(f, name, "")
  }

  lemma NamedParts(line: Line)
    requires line.Named? && ValidLine(line)
    ensures var text := LineText(line);
      && text != "" && text[0] != ':' && IndexOf(text, ':') == Some(|line.name|)
      && text[..|line.name|] == line.name && DropSpace(text[|line.name| + 1..]) == line.value
  {
    var text := LineText(line);
    var after := (if line.spaced then " " else "") + line.value;
    assert text == line.name + [':'] + after;
    IndexOfIn(line.name, ':', after);
    assert line.name[0] in line.name && text[0] == line.name[0];
    assert text[|line.name| + 1..] == after;
    assert line.spaced ==> after[1..] == line.value;
  }

  lemma LineTaken(f: Fields, line: Line)
    requires ValidLine(line)
    ensures TakeLine(f, LineText(line)) == TakeMeaning(f, line)
  {
    match line
    case Comment(text) => assert (":" + text)[0] == ':';
    case Named(_, _, _) => NamedParts(line);
    case Bare(name) =>
      IndexOfFinds(name, ':');
      assert name[0] in name;
  }

  // ---------------------------------------------------------------- blocks

  // A line, and whether a carriage return stands before the line feed after it.
  datatype Ended = Ended(line: Line, cr: bool)

  function End(cr: bool): string {
    if cr then "\r\n" else "\n"
  }

  // The lines of a block; the end of the last one belongs to the blank line after it.
  function BlockText(lines: seq<Ended>): string {
    if lines == [] then ""
    else if |lines| == 1 then LineText(lines[0].line)
    else LineText(lines[0].line) + End(lines[0].cr) + BlockText(lines[1..])
  }

  function TakeAll(f: Fields, lines: seq<Ended>): Fields
    decreases |lines|
  {
    if lines == [] then f else TakeAll(TakeMeaning(f, lines[0].line), lines[1..])
  }

  // The frame the lines mean, if they have data.
  function FrameMeant(lines: seq<Ended>): Option<SseFrame> {
    var f := TakeAll(NoFields, lines);
    if f.data == [] then None else Some(SseFrame(f.event, JoinLf(f.data), f.id))
  }

  predicate ValidLines(lines: seq<Ended>) {
    lines != [] && forall i :: 0 <= i < |lines| ==> ValidLine(lines[i].line)
  }

  lemma SplitEnded(line: string, cr: bool, rest: string)
    requires OneLine(line)
    ensures SplitLines(line + End(cr) + rest) == [line] + SplitLines(rest)
  {
    var s := line + End(cr) + rest;
    var whole := line + (if cr then "\r" else "");
    assert s == whole + ['\n'] + rest;
    IndexOfIn(whole, '\n', rest);
    assert s[..|whole|] == whole && s[|whole| + 1..] == rest;
    assert DropCr(whole) == line by {
      assert cr ==> whole[..|line|] == line && whole[|line|] == '\r';
      assert line != "" ==> line[|line| - 1] in line;
    }
  }

  lemma {:induction false} BlockTaken(f: Fields, lines: seq<Ended>)
    requires ValidLines(lines)
    ensures TakeLines(f, SplitLines(BlockText(lines))) == TakeAll(f, lines)
    decreases |lines|
  {
    hide ValidLine, TakeLine, TakeMeaning, LineText;
    var line := lines[0].line;
    var text := LineText(line);
    LineIsOne(line);
    LineTaken(f, line);
    if |lines| == 1 {
      IndexOfFinds(text, '\n');
      assert SplitLines(text) == [text] && [text][1..] == [] && lines[1..] == [];
    } else {
      var rest := BlockText(lines[1..]);
      SplitEnded(text, lines[0].cr, rest);
      assert ([text] + SplitLines(rest))[1..] == SplitLines(rest);
      BlockTaken(TakeMeaning(f, line), lines[1..]);
    }
  }

  lemma LineIsOne(line: Line)
    requires ValidLine(line)
    ensures OneLine(LineText(line)) && LineText(line) != ""
  {
  }

  // A block reads as its lines mean.
  lemma BlockMeans(lines: seq<Ended>)
    requires ValidLines(lines)
    ensures ParseBlock(BlockText(lines)) == FrameMeant(lines)
  {
    BlockTaken(NoFields, lines);
  }

  // No line of the text is blank, none ends unfinished, and a carriage return only ends a line.
  ghost predicate Tidy(s: string) {
    && s != "" && s[0] != '\n' && s[0] != '\r'
    && (forall j :: 0 <= j < |s| && s[j] == '\n' ==> j + 1 < |s| && s[j + 1] != '\n' && s[j + 1] != '\r')
    && (forall j :: 0 <= j < |s| && s[j] == '\r' ==> j + 1 < |s| && s[j + 1] == '\n')
  }

  lemma TidyJoins(line: string, cr: bool, rest: string)
    requires OneLine(line) && line != "" && Tidy(rest)
    ensures Tidy(line + End(cr) + rest)
  {
    var head := line + End(cr);
    var s := head + rest;
    assert forall k :: 0 <= k < |line| ==> s[k] == line[k] && line[k] in line;
    assert forall k :: |head| <= k < |s| ==> s[k] == rest[k - |head|];
    assert s[|head| - 1] == '\n' && (cr ==> s[|line|] == '\r');
  }

  lemma TidyLine(line: string)
    requires OneLine(line) && line != ""
    ensures Tidy(line)
  {
    assert forall k :: 0 <= k < |line| ==> line[k] in line;
  }

  lemma {:induction false} BlockTidy(lines: seq<Ended>)
    requires ValidLines(lines)
    ensures Tidy(BlockText(lines))
    decreases |lines|
  {
    hide ValidLine, LineText, Tidy;
    LineIsOne(lines[0].line);
    if |lines| == 1 {
      TidyLine(LineText(lines[0].line));
    } else {
      BlockTidy(lines[1..]);
      TidyJoins(LineText(lines[0].line), lines[0].cr, BlockText(lines[1..]));
    }
  }

  // The end of the last line, and a blank line.
  function Gap(cr: bool, blank: bool): string {
    End(cr) + End(blank)
  }

  lemma TidyBlockEnds(block: string, cr: bool, blank: bool, rest: string)
    requires Tidy(block)
    ensures FirstBlock(block + Gap(cr, blank) + rest) == Some(Cut(block, |Gap(cr, blank)|, rest))
  {
    var gap := Gap(cr, blank);
    var s := block + gap + rest;
    forall j | 0 <= j < |block| ensures SeparatorAt(s, j) == 0 { NoSeparatorInside(block, gap + rest, j); }
    assert s == block + (gap + rest);
    GapSeparates(block, cr, blank, rest);
    FirstSeparatorIs(s, |block|);
    assert s[..|block|] == block && s[|block| + |gap|..] == rest;
  }

  lemma NoSeparatorInside(block: string, tail: string, j: nat)
    requires Tidy(block) && j < |block|
    ensures SeparatorAt(block + tail, j) == 0
  {
    var s := block + tail;
    assert forall k :: 0 <= k < |block| ==> s[k] == block[k];
  }

  lemma GapSeparates(block: string, cr: bool, blank: bool, rest: string)
    ensures SeparatorAt(block + Gap(cr, blank) + rest, |block|) == |Gap(cr, blank)|
  {
    var gap := Gap(cr, blank);
    var s := block + gap + rest;
    assert forall k :: 0 <= k < |gap| ==> s[|block| + k] == gap[k];
  }

  // ---------------------------------------------------------------- streams

  datatype Written = Written(lines: seq<Ended>, cr: bool, blank: bool)

  predicate ValidWritten(w: Written) {
    ValidLines(w.lines) && |BlockText(w.lines)| + 3 <= MAX_SSE_FRAME_CHARS
  }

  function StreamText(ws: seq<Written>): string {
    if ws == [] then "" else BlockText(ws[0].lines) + Gap(ws[0].cr, ws[0].blank) + StreamText(ws[1..])
  }

  function StreamMeant(ws: seq<Written>): seq<SseFrame> {
    if ws == [] then []
    else (match FrameMeant(ws[0].lines) case None => [] case Some(frame) => [frame]) + StreamMeant(ws[1..])
  }

  function BlocksWritten(ws: seq<Written>): seq<string> {
    if ws == [] then [] else [BlockText(ws[0].lines)] + BlocksWritten(ws[1..])
  }

  lemma {:induction false} StreamDrains(ws: seq<Written>)
    requires forall i :: 0 <= i < |ws| ==> ValidWritten(ws[i])
    ensures Drain(StreamText(ws)) == Drained(BlocksWritten(ws), "", false) && Clean(StreamText(ws))
  {
    if ws == [] {
      FirstSeparatorFinds("", 0);
    } else {
      hide ValidLines, BlockText;
      BlockTidy(ws[0].lines);
      hide Tidy;
      TidyBlockEnds(BlockText(ws[0].lines), ws[0].cr, ws[0].blank, StreamText(ws[1..]));
      StreamDrains(ws[1..]);
    }
  }

  lemma OneFrame(block: string)
    ensures FramesOf([block]) == match ParseBlock(block) case None => [] case Some(frame) => [frame]
  {
    hide ParseBlock;
    FramesAppend([], block);
    assert [] + [block] == [block];
  }

  lemma {:induction false} BlocksMean(ws: seq<Written>)
    requires forall i :: 0 <= i < |ws| ==> ValidLines(ws[i].lines)
    ensures FramesOf(BlocksWritten(ws)) == StreamMeant(ws)
  {
    hide ValidLines, BlockText, FrameMeant, ParseBlock, FramesOf;
    if ws == [] {
      NoFrames();
    } else {
      var block := BlockText(ws[0].lines);
      BlockMeans(ws[0].lines);
      BlocksMean(ws[1..]);
      FramesConcat([block], BlocksWritten(ws[1..]));
      OneFrame(block);
    }
  }

  lemma NoFrames()
    ensures FramesOf([]) == []
  {
  }

  // However the stream is written and however it is cut, it reads as what its lines mean.
  lemma AnyStreamReads(ws: seq<Written>, chunks: seq<string>)
    requires forall i :: 0 <= i < |ws| ==> ValidWritten(ws[i])
    requires Concat(chunks) == StreamText(ws)
    ensures !Read("", chunks).threw && FramesOf(Read("", chunks).blocks) == StreamMeant(ws)
  {
    hide ValidLines, Drain, Clean, StreamText, BlocksWritten, StreamMeant, FramesOf;
    StreamDrains(ws);
    BlocksMean(ws);
    ChunkingIndependentExactly(StreamText(ws));
    ReadWhole(StreamText(ws));
  }

}
