/**
 The text of the setup stream: how the server prints it, how the browser reads it chunk by chunk, and what
 the WHATWG HTML Standard says it means (sections 9.2.5 and 9.2.6).
 */
module EventStream {
  import opened Options
  import opened SetupEvents
  import opened SetupStream
  import opened BlockCuts
  import Strings

  /** The JSON texts of payloads, on both sides. */
  datatype Json = Json(write: Payload -> string, read: string -> Option<Payload>)

  predicate IsLineEnd(c: char) { c == '\n' || c == '\r' || c == '\U{2028}' || c == '\U{2029}' }

  /** A text on one line, with something other than white space at both ends. */
  ghost predicate OneLine(s: string)
  {
    s != [] && !Strings.IsSpace(s[0]) && !Strings.IsSpace(s[|s| - 1]) && forall c | c in s :: !IsLineEnd(c)
  }

  /** Payloads are written on one line and read back as they were. */
  ghost predicate Faithful(json: Json)
  {
    forall p: Payload :: OneLine(json.write(p)) && json.read(json.write(p)) == Some(p)
  }

  // ----- The server's side -----

  function Block(name: string, text: string): string { "event: " + name + "\ndata: " + text }

  const HEARTBEAT := ": heartbeat"

  function Print(f: Frame, json: Json): string
  {
    match f
    case Heartbeat => HEARTBEAT + "\n\n"
    case EventFrame(e) => Block(e.name, json.write(e.data)) + "\n\n"
  }

  function Wire(frames: seq<Frame>, json: Json): string
  {
    if frames == [] then "" else Print(frames[0], json) + Wire(frames[1..], json)
  }

  // ----- The browser's side -----

  function SpaceEnd(s: string, from: nat): (n: nat)
    requires from <= |s|
    ensures from <= n <= |s|
    decreases |s| - from
  {
    if from == |s| || !Strings.IsSpace(s[from]) then from else SpaceEnd(s, from + 1)
  }

  function LineEnd(s: string, from: nat): (n: nat)
    requires from <= |s|
    ensures from <= n <= |s|
    decreases |s| - from
  {
    if from == |s| || IsLineEnd(s[from]) then from else LineEnd(s, from + 1)
  }

  /** What `\s*(.+)$` captures from a position, trimmed. */
  function Capture(s: string, from: nat): Option<string>
    requires from <= |s|
  {
    var start := SpaceEnd(s, from);
    if start < |s| then Some(Strings.Trim(s[start..LineEnd(s, start)], Strings.IsSpace))
    else if exists c | c in s[from..] :: !IsLineEnd(c) then Some("")
    else None
  }

  predicate LineStartsWith(s: string, at: nat, prefix: string)
    requires at <= |s|
  {
    (at == 0 || IsLineEnd(s[at - 1])) && prefix <= s[at..]
  }

  /** The first match of `^prefix\s*(.+)$`, over lines, from a position on. */
  function FieldFrom(s: string, prefix: string, at: nat): Option<string>
    requires at <= |s|
    decreases |s| - at
  {
    if LineStartsWith(s, at, prefix) && Capture(s, at + |prefix|).Some? then Capture(s, at + |prefix|)
    else if at == |s| then None
    else FieldFrom(s, prefix, at + 1)
  }

  /** `parseSSEEvent`. */
  function ParseEvent(block: string, json: Json): Option<Event>
  {
    var name := FieldFrom(block, "event:", 0);
    var text := FieldFrom(block, "data:", 0);
    if name.None? || text.None? then None
    else
      var data := json.read(text.value);
      if data.None? then None else Some(Event(name.value, data.value))
  }

  function ParseBlocks(blocks: seq<string>, json: Json): seq<Event>
  {
    if blocks == [] then []
    else
      var e := ParseEvent(blocks[0], json);
      (if e.Some? then [e.value] else []) + ParseBlocks(blocks[1..], json)
  }

  /** `parseSSEBuffer`: the events of the complete blocks, and the rest. */
  function ParseBuffer(buffer: string, json: Json): (seq<Event>, string)
  {
    var (blocks, rest) := Cut(buffer);
    (ParseBlocks(blocks, json), rest)
  }

  /** The buffer and the events after reading chunk upon chunk. */
  function Feed(chunks: seq<string>, json: Json): (seq<Event>, string)
  {
    if chunks == [] then ([], "")
    else
      var (before, buffer) := Feed(chunks[..|chunks| - 1], json);
      var (events, rest) := ParseBuffer(buffer + chunks[|chunks| - 1], json);
      (before + events, rest)
  }

  // ----- Cutting the text into chunks changes nothing -----

  lemma {:induction false} ParseBlocksAppend(a: seq<string>, b: seq<string>, json: Json)
    ensures ParseBlocks(a + b, json) == ParseBlocks(a, json) + ParseBlocks(b, json)
  {
    if a == [] {
      assert a + b == b;
    } else {
      assert (a + b)[1..] == a[1..] + b;
      ParseBlocksAppend(a[1..], b, json);
    }
  }

  /** The events read are those of the blocks cut off. */
  lemma {:induction false} FeedReadsCuts(chunks: seq<string>, json: Json)
    ensures Feed(chunks, json) == (ParseBlocks(CutChunks(chunks).0, json), CutChunks(chunks).1)
    decreases |chunks|
  {
    if chunks != [] {
      var before := chunks[..|chunks| - 1];
      FeedReadsCuts(before, json);
      ParseBlocksAppend(CutChunks(before).0, Cut(CutChunks(before).1 + chunks[|chunks| - 1]).0, json);
    }
  }

  /** However a text with one kind of separator is cut, reading it chunk by chunk is reading it whole. */
  lemma ChunksDoNotMatter(chunks: seq<string>, json: Json)
    requires OneSeparator(Concat(chunks))
    ensures Feed(chunks, json) == ParseBuffer(Concat(chunks), json)
  {
    FeedReadsCuts(chunks, json);
    OneSeparatorSuffices(chunks);
  }

  lemma ParseBufferContinues(x: string, y: string, json: Json)
    requires OneSeparator(x + y)
    ensures var before := ParseBuffer(x, json);
            var after := ParseBuffer(before.1 + y, json);
            OneSeparator(x) && ParseBuffer(x + y, json) == (before.0 + after.0, after.1)
  {
    CutContinues(x, y);
    var (blocks, rest) := Cut(x);
    ParseBlocksAppend(blocks, Cut(rest + y).0, json);
  }

  lemma {:induction false} NoReturnNoCrlf(s: string)
    requires '\r' !in s
    ensures !Strings.Occurs(s, CRLF)
  {
    if s != "" {
      assert CRLF[0] == '\r' && s[0] in s;
      NoReturnNoCrlf(s[1..]);
    }
  }

  // ----- Reading back what was printed -----

  ghost predicate Printable(frames: seq<Frame>)
  {
    forall f | f in frames && f.EventFrame? :: OneLine(f.event.name)
  }

  /** No line feed is followed by another, or ends the text. */
  ghost predicate LoneBreaks(block: string)
  {
    forall i | 0 <= i < |block| && block[i] == '\n' :: i + 1 < |block| && block[i + 1] != '\n'
  }

  /** Text in which no separator begins, put before a separator, is the first part. */
  lemma {:induction false} SplitOnBlock(block: string, rest: string)
    requires LoneBreaks(block)
    ensures SplitOn(block + "\n\n" + rest, "\n\n") == [block] + SplitOn(rest, "\n\n")
    decreases |block|
  {
    var all := block + "\n\n" + rest;
    if block == [] {
      assert all[2..] == rest && all[..2] == "\n\n";
    } else {
      var inner := block[1..];
      assert all[1..] == inner + "\n\n" + rest;
      assert block[0] == '\n' ==> |block| > 1 && block[1] != '\n';
      assert all[0] == block[0] && (|block| > 1 ==> all[1] == block[1]);
      assert forall i | 0 <= i < |inner| :: inner[i] == block[i + 1];
      SplitOnBlock(inner, rest);
      assert [block[0]] + inner == block;
    }
  }

  lemma {:induction false} LineEndOf(s: string, line: string, from: nat)
    requires from + |line| <= |s| && s[from..from + |line|] == line
    requires forall c | c in line :: !IsLineEnd(c)
    requires from + |line| == |s| || IsLineEnd(s[from + |line|])
    ensures LineEnd(s, from) == from + |line|
    decreases |line|
  {
    if line != [] {
      assert s[from] == line[0];
      assert s[from + 1..from + 1 + |line[1..]|] == line[1..];
      LineEndOf(s, line[1..], from + 1);
    }
  }

  /** A field on its own line, after the one space the server writes. */
  lemma CaptureOf(s: string, value: string, from: nat)
    requires OneLine(value) && from + 1 + |value| <= |s|
    requires s[from] == ' ' && s[from + 1..from + 1 + |value|] == value
    requires from + 1 + |value| == |s| || IsLineEnd(s[from + 1 + |value|])
    ensures Capture(s, from) == Some(value)
  {
    assert s[from + 1] == value[0];
    assert SpaceEnd(s, from + 1) == from + 1;
    LineEndOf(s, value, from + 1);
  }

  lemma {:induction false} FieldSkips(s: string, prefix: string, at: nat, to: nat)
    requires at <= to <= |s|
    requires forall i | at <= i < to :: !LineStartsWith(s, i, prefix)
    ensures FieldFrom(s, prefix, at) == FieldFrom(s, prefix, to)
    decreases |s| - at
  {
    if at < to { FieldSkips(s, prefix, at + 1, to); }
  }

  lemma NameOfBlock(name: string, text: string)
    requires OneLine(name)
    ensures FieldFrom(Block(name, text), "event:", 0) == Some(name)
  {
    var s := Block(name, text);
    assert s == "event:" + " " + name + "\n" + "data:" + " " + text;
    assert s[6] == ' ' && s[7..7 + |name|] == name && s[7 + |name|] == '\n';
    CaptureOf(s, name, 6);
    assert s[..6] == "event:";
  }

  /** Where the second line begins. */
  lemma NoDataBefore(name: string, text: string)
    requires OneLine(name)
    ensures forall i | 0 <= i < |name| + 8 :: !LineStartsWith(Block(name, text), i, "data:")
  {
    var s := Block(name, text);
    forall i | 0 <= i < |name| + 8 ensures !LineStartsWith(s, i, "data:") {
      if i == 0 { assert s[0] == 'e'; }
      else if i < 8 { assert s[i - 1] == "event: "[i - 1]; }
      else { assert s[i - 1] == name[i - 8]; }
    }
  }

  lemma TextOfBlock(name: string, text: string)
    requires OneLine(name) && OneLine(text)
    ensures FieldFrom(Block(name, text), "data:", 0) == Some(text)
  {
    var head := "event: " + name + "\n";
    assert Block(name, text) == head + "data:" + " " + text by { assert "\ndata: " == "\n" + "data:" + " "; }
    NoDataBefore(name, text);
    FieldSkips(Block(name, text), "data:", 0, |head|);
    LastField(head, "data:", text);
  }

  lemma LastField(head: string, prefix: string, value: string)
    requires head != "" && IsLineEnd(head[|head| - 1]) && OneLine(value)
    ensures FieldFrom(head + prefix + " " + value, prefix, |head|) == Some(value)
  {
    var s := head + prefix + " " + value;
    var k := |head| + |prefix|;
    assert s[|head|..] == prefix + " " + value;
    assert s[k] == ' ' && s[k + 1..k + 1 + |value|] == value;
    CaptureOf(s, value, k);
  }

  lemma ParseBlockOf(name: string, text: string, json: Json)
    requires OneLine(name) && OneLine(text)
    ensures ParseEvent(Block(name, text), json)
            == var data := json.read(text); if data.None? then None else Some(Event(name, data.value))
  {
    NameOfBlock(name, text);
    TextOfBlock(name, text);
  }

  lemma HeartbeatIsNoEvent(json: Json)
    ensures ParseEvent(HEARTBEAT, json) == None
  {
    var s := HEARTBEAT;
    forall i | 0 <= i < |s| ensures !LineStartsWith(s, i, "event:") {
      if i == 0 { assert s[0] == ':'; } else { assert !IsLineEnd(s[i - 1]); }
    }
    FieldSkips(s, "event:", 0, |s|);
  }

  lemma BlockHasNoSeparator(name: string, text: string)
    requires OneLine(name) && OneLine(text)
    ensures LoneBreaks(Block(name, text))
  {
    var block := Block(name, text);
    var n := 7 + |name|;
    forall i | 0 <= i < |block| && i != n ensures block[i] != '\n' {
      if i < 7 { assert block[i] == "event: "[i]; }
      else if i < n { assert block[i] == name[i - 7] && name[i - 7] in name; }
      else if i < n + 7 { assert block[i] == "\ndata: "[i - n]; }
      else { assert block[i] == text[i - n - 7] && text[i - n - 7] in text; }
    }
    assert block[n + 1] == 'd';
  }

  lemma {:induction false} WireHasNoReturn(frames: seq<Frame>, json: Json)
    requires Printable(frames) && Faithful(json)
    ensures '\r' !in Wire(frames, json)
  {
    if frames != [] {
      WireHasNoReturn(frames[1..], json);
      var f := frames[0];
      if f.EventFrame? {
        assert OneLine(f.event.name) && OneLine(json.write(f.event.data));
        assert Print(f, json) == "event: " + f.event.name + "\ndata: " + json.write(f.event.data) + "\n\n";
      }
      assert '\r' !in Print(f, json);
    }
  }

  function BlockOf(f: Frame, json: Json): string
  {
    if f.EventFrame? then Block(f.event.name, json.write(f.event.data)) else HEARTBEAT
  }

  /** One printed frame before any other text is one part, and parses to its event, if it has one. */
  lemma FrameIsOnePart(f: Frame, rest: string, json: Json)
    requires Printable([f]) && Faithful(json)
    ensures SplitOn(Print(f, json) + rest, "\n\n") == [BlockOf(f, json)] + SplitOn(rest, "\n\n")
    ensures ParseBlocks([BlockOf(f, json)], json) == EventsOf([f])
  {
    if f.EventFrame? {
      assert f in [f] && OneLine(json.write(f.event.data));
      BlockHasNoSeparator(f.event.name, json.write(f.event.data));
      ParseBlockOf(f.event.name, json.write(f.event.data), json);
    } else {
      HeartbeatIsNoEvent(json);
    }
    SplitOnBlock(BlockOf(f, json), rest);
  }

  lemma FirstPart(block: string, rest: string, json: Json)
    requires SplitOn(block + "\n\n" + rest, "\n\n") == [block] + SplitOn(rest, "\n\n")
    requires '\r' !in block + "\n\n" + rest && '\r' !in rest
    ensures var (events, last) := ParseBuffer(rest, json);
            ParseBuffer(block + "\n\n" + rest, json) == (ParseBlocks([block], json) + events, last)
  {
    NoReturnNoCrlf(block + "\n\n" + rest);
    NoReturnNoCrlf(rest);
    InitLast([block], SplitOn(rest, "\n\n"));
    ParseBlocksAppend([block], Init(SplitOn(rest, "\n\n")), json);
  }

  /** Printing frames and parsing the text gives back their events; heartbeats leave no trace. */
  lemma {:induction false} ParseWire(frames: seq<Frame>, json: Json)
    requires Printable(frames) && Faithful(json)
    ensures ParseBuffer(Wire(frames, json), json) == (EventsOf(frames), "")
  {
    WireHasNoReturn(frames, json);
    if frames == [] {
      NoReturnNoCrlf("");
    } else {
      ParseWire(frames[1..], json);
      WireHasNoReturn(frames[1..], json);
      FrameIsOnePart(frames[0], Wire(frames[1..], json), json);
      FirstPart(BlockOf(frames[0], json), Wire(frames[1..], json), json);
      EventsOfFirst(frames);
    }
  }

  lemma EventsOfFirst(frames: seq<Frame>)
    requires frames != []
    ensures EventsOf(frames) == EventsOf([frames[0]]) + EventsOf(frames[1..])
  {
    assert frames == [frames[0]] + frames[1..];
    EventsOfAppend([frames[0]], frames[1..]);
  }

  /** The whole way: any frames, printed, cut anywhere, and read chunk by chunk, give back their events. */
  lemma WireRoundTrip(frames: seq<Frame>, chunks: seq<string>, json: Json)
    requires Printable(frames) && Faithful(json) && Concat(chunks) == Wire(frames, json)
    ensures Feed(chunks, json) == (EventsOf(frames), "")
  {
    WireHasNoReturn(frames, json);
    NoReturnNoCrlf(Concat(chunks));
    ChunksDoNotMatter(chunks, json);
    ParseWire(frames, json);
  }

  /** A stream that breaks off anywhere gives a prefix of its events. */
  lemma BrokenWireGivesPrefix(frames: seq<Frame>, chunks: seq<string>, json: Json)
    requires Printable(frames) && Faithful(json) && Concat(chunks) <= Wire(frames, json)
    ensures Feed(chunks, json).0 <= EventsOf(frames)
  {
    var x := Concat(chunks);
    var y := Wire(frames, json)[|x|..];
    assert x + y == Wire(frames, json);
    WireHasNoReturn(frames, json);
    NoReturnNoCrlf(x + y);
    ParseBufferContinues(x, y, json);
    ChunksDoNotMatter(chunks, json);
    ParseWire(frames, json);
    var (events, rest) := ParseBuffer(x, json);
    assert EventsOf(frames) == events + ParseBuffer(rest + y, json).0;
  }

  // ----- Fields in general -----

  /** The line terminators of ECMA-262 (section 12.3), by number. */
  lemma LineEndIff(c: char)
    ensures IsLineEnd(c) <==> c as int in {0x0A, 0x0D, 0x2028, 0x2029}
  {
  }

  lemma {:induction false} SpaceEndOf(s: string, pad: string, from: nat)
    requires from + |pad| < |s| && s[from..from + |pad|] == pad && Strings.All(pad, Strings.IsSpace)
    requires !Strings.IsSpace(s[from + |pad|])
    ensures SpaceEnd(s, from) == from + |pad|
    decreases |pad|
  {
    if pad != "" {
      assert s[from] == pad[0];
      assert s[from + 1..from + 1 + |pad[1..]|] == pad[1..];
      SpaceEndOf(s, pad[1..], from + 1);
    }
  }

  lemma TrailIsTrimmed(value: string, trail: string)
    requires OneLine(value) && Strings.All(trail, c => Strings.IsSpace(c) && !IsLineEnd(c))
    ensures Strings.Trim(value + trail, Strings.IsSpace) == value
    ensures forall c | c in value + trail :: !IsLineEnd(c)
  {
    assert "" + value + trail == value + trail;
    Strings.TrimUnpads("", value, trail, Strings.IsSpace);
  }

  lemma CaptureReads(s: string, from: nat, pad: string, line: string)
    requires line != "" && !Strings.IsSpace(line[0]) && forall c | c in line :: !IsLineEnd(c)
    requires from + |pad| + |line| <= |s| && s[from..from + |pad|] == pad && Strings.All(pad, Strings.IsSpace)
    requires s[from + |pad|..from + |pad| + |line|] == line
    requires from + |pad| + |line| < |s| ==> IsLineEnd(s[from + |pad| + |line|])
    ensures Capture(s, from) == Some(Strings.Trim(line, Strings.IsSpace))
  {
    var start := from + |pad|;
    assert s[start] == line[0];
    SpaceEndOf(s, pad, from);
    LineEndOf(s, line, start);
    CaptureAt(s, from, start, start + |line|);
  }

  lemma CaptureAt(s: string, from: nat, start: nat, end: nat)
    requires from <= start < |s| && SpaceEnd(s, from) == start && LineEnd(s, start) == end
    ensures Capture(s, from) == Some(Strings.Trim(s[start..end], Strings.IsSpace))
  {
  }

  lemma Placed(prefix: string, pad: string, line: string, after: string)
    ensures var s, start := prefix + pad + line + after, |prefix| + |pad|;
            && prefix <= s && s[|prefix|..start] == pad && s[start..start + |line|] == line
            && |s| == start + |line| + |after| && (after != "" ==> s[start + |line|] == after[0])
  {
  }

  /**
   The value of a field is what stands on its line, without the white space around it: any before it, line
   ends included, and any behind it. A line separator ends the value as a line feed does.
   */
  lemma FieldReads(prefix: string, pad: string, value: string, trail: string, after: string)
    requires OneLine(value) && Strings.All(pad, Strings.IsSpace)
    requires Strings.All(trail, c => Strings.IsSpace(c) && !IsLineEnd(c))
    requires after == "" || after[0] as int in {0x0A, 0x0D, 0x2028, 0x2029}
    ensures FieldFrom(prefix + pad + (value + trail) + after, prefix, 0) == Some(value)
  {
    var line := value + trail;
    var s := prefix + pad + line + after;
    Placed(prefix, pad, line, after);
    if after != "" { LineEndIff(after[0]); }
    TrailIsTrimmed(value, trail);
    CaptureReads(s, |prefix|, pad, line);
    assert s[0..] == s;
  }

  // ----- Both separators in one text -----

  lemma {:induction false} CrlfBlock(block: string)
    requires '\r' !in block
    ensures SplitOn(block + CRLF, CRLF) == [block, ""] && Strings.Occurs(block + CRLF, CRLF)
  {
    var all := block + CRLF;
    if block == "" {
      assert all[|CRLF|..] == "";
    } else {
      assert all[0] == block[0] && all[0] != CRLF[0];
      assert all[1..] == block[1..] + CRLF;
      CrlfBlock(block[1..]);
      assert [block[0]] + block[1..] == block;
    }
  }

  lemma CrlfBlockParses(block: string, json: Json)
    requires '\r' !in block
    ensures ParseBuffer(block + CRLF, json) == (ParseBlocks([block], json), "")
  {
    CrlfBlock(block);
    assert Init([block, ""]) == [block];
  }

  lemma GapBeforeData(text: string)
    ensures var head := "event: step" + LF;
            forall i | 0 <= i < |head| :: !LineStartsWith(head + "data: " + text, i, "data:")
  {
    var head := "event: step" + LF;
    var s := head + "data: " + text;
    assert head[0] == 'e' && head[12] == '\n';
    forall i | 0 <= i < |head| ensures !LineStartsWith(s, i, "data:") {
      assert s[i] == head[i];
      if 0 < i < 12 { assert s[i - 1] == head[i - 1] && !IsLineEnd(head[i - 1]); }
    }
  }

  lemma GapName(text: string)
    ensures FieldFrom("event: step" + LF + "data: " + text, "event:", 0) == Some("step")
  {
    var s := "event: step" + LF + "data: " + text;
    assert s == "event: step\n" + ("\ndata: " + text);
    assert s[..6] == "event:" && s[6] == ' ' && s[7..11] == "step" && s[11] == '\n';
    CaptureOf(s, "step", 6);
  }

  /** The two lines of an event with an empty line between them are one block, for the source's regexes. */
  lemma GapParses(text: string, json: Json)
    requires OneLine(text)
    ensures ParseEvent("event: step" + LF + "data: " + text, json)
            == var data := json.read(text); if data.None? then None else Some(Event("step", data.value))
  {
    var head := "event: step" + LF;
    assert head + "data: " + text == head + "data:" + " " + text;
    GapName(text);
    GapBeforeData(text);
    FieldSkips(head + "data: " + text, "data:", 0, |head|);
    LastField(head, "data:", text);
  }

  lemma NoEventName(text: string, json: Json)
    requires OneLine(text)
    ensures ParseEvent("data: " + text, json) == None
  {
    var s := "data: " + text;
    forall i | 0 <= i < |s| ensures !LineStartsWith(s, i, "event:") {
      if i == 0 { assert s[0] == 'd'; }
      else if i <= 6 { assert s[i - 1] == "data: "[i - 1]; }
      else { assert s[i - 1] == text[i - 7]; }
    }
    FieldSkips(s, "event:", 0, |s|);
  }

  lemma NameAloneIsNoEvent(json: Json)
    ensures ParseEvent("event: step", json) == None
  {
    var block := "event: step";
    forall i | 0 <= i < |block| ensures !LineStartsWith(block, i, "data:") {
      if i == 0 { assert block[0] == 'e'; } else { assert !IsLineEnd(block[i - 1]); }
    }
    FieldSkips(block, "data:", 0, |block|);
  }

  lemma LfBlockParses(block: string, json: Json)
    requires LoneBreaks(block) && '\r' !in block
    ensures ParseBuffer(block + LF, json) == (ParseBlocks([block], json), "")
  {
    NoReturnNoCrlf(block + LF);
    assert block + LF + "" == block + LF;
    SplitOnBlock(block, "");
    assert Init([block, ""]) == [block];
  }

  lemma FeedOnce(text: string, json: Json)
    ensures Concat([text]) == text && Feed([text], json) == ParseBuffer(text, json)
  {
    assert [text][..0] == [] && "" + text == text;
    assert [] + ParseBuffer(text, json).0 == ParseBuffer(text, json).0;
  }

  lemma FeedTwice(a: string, b: string, json: Json)
    ensures Concat([a, b]) == a + b
    ensures var (events, rest) := ParseBuffer(a, json);
            Feed([a, b], json).0 == events + ParseBuffer(rest + b, json).0
  {
    assert [a, b][..1] == [a];
    FeedOnce(a, json);
  }

  lemma ReadWhole(a: string, data: string, e: Event, json: Json)
    requires '\r' !in a + data && ParseEvent(a + data, json) == Some(e)
    ensures Feed([a + (data + CRLF)], json).0 == [e] && Concat([a + (data + CRLF)]) == a + (data + CRLF)
  {
    FeedOnce(a + (data + CRLF), json);
    assert a + (data + CRLF) == (a + data) + CRLF;
    CrlfBlockParses(a + data, json);
    assert ParseBlocks([a + data], json) == [e] + ParseBlocks([a + data][1..], json);
  }

  lemma ReadInTwo(a: string, data: string, json: Json)
    requires ParseBuffer(a, json) == ([], "") && '\r' !in data && ParseEvent(data, json) == None
    ensures Feed([a, data + CRLF], json).0 == [] && Concat([a, data + CRLF]) == a + (data + CRLF)
  {
    FeedTwice(a, data + CRLF, json);
    assert "" + (data + CRLF) == data + CRLF;
    CrlfBlockParses(data, json);
    assert ParseBlocks([data], json) == [] + ParseBlocks([data][1..], json);
  }

  /** A text with both separators that gives an event when read whole, and none when cut between them. */
  lemma MixedSeparatorsDependOnCuts(p: Payload, json: Json)
    requires Faithful(json)
    ensures var a, b := "event: step" + LF, "data: " + json.write(p) + CRLF;
            && Concat([a + b]) == Concat([a, b])
            && Feed([a + b], json).0 == [Event("step", p)] && Feed([a, b], json).0 == []
  {
    var text := json.write(p);
    var a := "event: step" + LF;
    assert OneLine(text) && a + ("data: " + text) == a + "data: " + text;
    GapParses(text, json);
    ReadWhole(a, "data: " + text, Event("step", p), json);
    NameAloneIsNoEvent(json);
    LfBlockParses("event: step", json);
    assert ParseBlocks(["event: step"], json) == [] + ParseBlocks(["event: step"][1..], json);
    NoEventName(text, json);
    ReadInTwo(a, "data: " + text, json);
  }

  // ----- The standard's reading -----

  function LineBreak(s: string): (n: nat)
    ensures n <= |s| && (n < |s| ==> s[n] == '\n' || s[n] == '\r')
  {
    if s == [] || s[0] == '\n' || s[0] == '\r' then 0 else 1 + LineBreak(s[1..])
  }

  /** The terminated lines: a line ends at a line feed, a carriage return, or the two together. */
  function Lines(s: string): seq<string>
    decreases |s|
  {
    var n := LineBreak(s);
    if n == |s| then []
    else [s[..n]] + Lines(s[n + (if s[n] == '\r' && n + 1 < |s| && s[n + 1] == '\n' then 2 else 1)..])
  }

  function Colon(line: string): (n: nat)
    ensures n <= |line|
  {
    if line == [] || line[0] == ':' then 0 else 1 + Colon(line[1..])
  }

  function FieldName(line: string): string { line[..Colon(line)] }

  /** What follows the first colon, without one leading space. */
  function FieldValue(line: string): string
  {
    var n := Colon(line);
    if n == |line| then ""
    else if n + 1 < |line| && line[n + 1] == ' ' then line[n + 2..] else line[n + 1..]
  }

  /** Section 9.2.6: the events dispatched by the lines, given the event type and data buffers. */
  function Interpret(lines: seq<string>, kind: string, data: string): seq<(string, string)>
    decreases |lines|
  {
    if lines == [] then []
    else
      var line := lines[0];
      if line == "" then
        (if data == "" then [] else [(if kind == "" then "message" else kind, data[..|data| - 1])])
        + Interpret(lines[1..], "", "")
      else if line[0] == ':' then Interpret(lines[1..], kind, data)
      else if FieldName(line) == "event" then Interpret(lines[1..], FieldValue(line), data)
      else if FieldName(line) == "data" then Interpret(lines[1..], kind, data + FieldValue(line) + "\n")
      else Interpret(lines[1..], kind, data)
  }

  function Standard(text: string): seq<(string, string)>
  {
    Interpret(Lines(if "\U{FEFF}" <= text then text[1..] else text), "", "")
  }

  function Messages(events: seq<Event>, json: Json): seq<(string, string)>
  {
    seq(|events|, i requires 0 <= i < |events| => (events[i].name, json.write(events[i].data)))
  }

  lemma {:induction false} LineBreakAt(line: string, rest: string)
    requires '\n' !in line && '\r' !in line
    ensures LineBreak(line + "\n" + rest) == |line|
  {
    if line != [] {
      assert (line + "\n" + rest)[1..] == line[1..] + "\n" + rest;
      LineBreakAt(line[1..], rest);
    }
  }

  lemma LinesCons(line: string, rest: string)
    requires '\n' !in line && '\r' !in line
    ensures Lines(line + "\n" + rest) == [line] + Lines(rest)
  {
    LineBreakAt(line, rest);
    var s := line + "\n" + rest;
    assert s[..|line|] == line && s[|line|] == '\n' && s[|line| + 1..] == rest;
  }

  lemma {:induction false} ColonAt(field: string, rest: string)
    requires ':' !in field
    ensures Colon(field + ":" + rest) == |field|
  {
    if field != [] {
      assert (field + ":" + rest)[1..] == field[1..] + ":" + rest;
      ColonAt(field[1..], rest);
    }
  }

  lemma FieldOf(field: string, value: string)
    requires ':' !in field
    ensures FieldName(field + ": " + value) == field && FieldValue(field + ": " + value) == value
  {
    var line := field + ": " + value;
    assert line == field + ":" + (" " + value);
    ColonAt(field, " " + value);
    assert line[|field| + 2..] == value;
  }

  lemma LineAndBlank(line: string, rest: string)
    requires '\n' !in line && '\r' !in line
    ensures Lines(line + "\n" + ("" + "\n" + rest)) == [line, ""] + Lines(rest)
  {
    LinesCons(line, "" + "\n" + rest);
    LinesCons("", rest);
    assert [line] + ([""] + Lines(rest)) == [line, ""] + Lines(rest);
  }

  lemma EventLines(name: string, text: string, rest: string)
    requires OneLine(name) && OneLine(text)
    ensures Lines(Block(name, text) + "\n\n" + rest) == ["event: " + name, "data: " + text, ""] + Lines(rest)
  {
    var a, b := "event: " + name, "data: " + text;
    var after := b + "\n" + ("" + "\n" + rest);
    EventText(name, text, rest);
    NoBreakIn("event: ", name);
    NoBreakIn("data: ", text);
    LineAndBlank(b, rest);
    LinesCons(a, after);
    Prepended(a, b, Lines(rest));
  }

  lemma NoBreakIn(field: string, value: string)
    requires '\n' !in field && '\r' !in field && OneLine(value)
    ensures '\n' !in field + value && '\r' !in field + value
  {
  }

  lemma Prepended(a: string, b: string, lines: seq<string>)
    ensures [a] + ([b, ""] + lines) == [a, b, ""] + lines
  {
  }

  lemma EventText(name: string, text: string, rest: string)
    ensures Block(name, text) + "\n\n" + rest
            == "event: " + name + "\n" + ("data: " + text + "\n" + ("" + "\n" + rest))
  {
    assert "\ndata: " == "\n" + "data: " && "\n\n" == "\n" + "\n";
  }

  lemma EventDispatched(name: string, text: string, lines: seq<string>)
    requires name != ""
    ensures Interpret(["event: " + name, "data: " + text, ""] + lines, "", "")
            == [(name, text)] + Interpret(lines, "", "")
  {
    var a, b := "event: " + name, "data: " + text;
    assert a == "event" + ": " + name && b == "data" + ": " + text;
    FieldOf("event", name);
    FieldOf("data", text);
    var l0, l1, l2 := [a, b, ""] + lines, [b, ""] + lines, [""] + lines;
    assert l0[1..] == l1 && l1[1..] == l2 && l2[1..] == lines;
    assert a[0] == 'e' && b[0] == 'd';
    assert Interpret(l0, "", "") == Interpret(l1, name, "");
    assert Interpret(l1, name, "") == Interpret(l2, name, "" + text + "\n");
    assert ("" + text + "\n")[..|text|] == text;
  }

  lemma HeartbeatLines(rest: string)
    ensures Lines(HEARTBEAT + "\n\n" + rest) == [HEARTBEAT, ""] + Lines(rest)
  {
    HeartbeatText(rest);
    LineAndBlank(HEARTBEAT, rest);
  }

  lemma HeartbeatText(rest: string)
    ensures HEARTBEAT + "\n\n" + rest == HEARTBEAT + "\n" + ("" + "\n" + rest)
  {
    assert "\n\n" == "\n" + "\n";
  }

  lemma HeartbeatIgnored(lines: seq<string>)
    ensures Interpret([HEARTBEAT, ""] + lines, "", "") == Interpret(lines, "", "")
  {
    var l0, l1 := [HEARTBEAT, ""] + lines, [""] + lines;
    assert l0[1..] == l1 && l1[1..] == lines;
    assert Interpret(l0, "", "") == Interpret(l1, "", "");
  }

  /** A browser that followed the standard would dispatch the same events, with the same data. */
  lemma {:induction false} StandardAgrees(frames: seq<Frame>, json: Json)
    requires Printable(frames) && Faithful(json)
    ensures Standard(Wire(frames, json)) == Messages(EventsOf(frames), json)
  {
    InterpretWire(frames, json);
    if frames != [] { assert Wire(frames, json)[0] == if frames[0].EventFrame? then 'e' else ':'; }
  }

  lemma MessagesAppend(a: seq<Event>, b: seq<Event>, json: Json)
    ensures Messages(a + b, json) == Messages(a, json) + Messages(b, json)
  {
  }

  lemma {:induction false} InterpretWire(frames: seq<Frame>, json: Json)
    requires Printable(frames) && Faithful(json)
    ensures Interpret(Lines(Wire(frames, json)), "", "") == Messages(EventsOf(frames), json)
  {
    if frames != [] {
      InterpretWire(frames[1..], json);
      FrameDispatched(frames[0], Wire(frames[1..], json), json);
      EventsOfFirst(frames);
      MessagesAppend(EventsOf([frames[0]]), EventsOf(frames[1..]), json);
    }
  }

  lemma FrameDispatched(f: Frame, rest: string, json: Json)
    requires Printable([f]) && Faithful(json)
    ensures Interpret(Lines(Print(f, json) + rest), "", "")
            == Messages(EventsOf([f]), json) + Interpret(Lines(rest), "", "")
  {
    if f.EventFrame? {
      var name, text := f.event.name, json.write(f.event.data);
      assert f in [f] && OneLine(name) && OneLine(text);
      EventLines(name, text, rest);
      EventDispatched(name, text, Lines(rest));
    } else {
      HeartbeatLines(rest);
      HeartbeatIgnored(Lines(rest));
    }
  }
}
