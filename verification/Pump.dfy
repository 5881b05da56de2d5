/**
 * What the client of a committed stream sees, as a fold over the stream's frames
 * (src/server/sse.rs and the frame handling of `pump_stream` in src/server/handlers.rs).
 */
module Pump {
  import opened Base
  import opened Domain
  import opened Sse
  import opened Translator
  import opened Health
  import Json

  /** The readers this model leaves open: JSON, and each provider's stream chunk. */
  datatype Codec = Codec(
    parse: Bytes -> Option<Json.Value>,
    decode: (ProviderKind, Bytes) -> Option<StreamEvent>,
    imageRejection: string -> bool)

  // ---------------------------------------------------------------- token counts

  /** A count, with negative readings clamped to zero. */
  function Count(v: Option<Json.Value>): Option<nat> {
    if v.None? then None
    else if v.value.AsU64().Some? then v.value.AsU64()
    else if v.value.AsI64().Some? then Some(0)
    else None
  }

  datatype Usage = Usage(prompt: Option<nat>, completion: Option<nat>, cached: Option<nat>) {
    /** Keeps what is already known. */
    function Or(later: Usage): Usage {
      Usage(prompt.Or(later.prompt), completion.Or(later.completion), cached.Or(later.cached))
    }
  }

  lemma UsageOrAssoc(a: Usage, b: Usage, c: Usage)
    ensures a.Or(b).Or(c) == a.Or(b.Or(c))
  {
  }

  const NO_USAGE := Usage(None, None, None)

  function FrameUsage(kind: ProviderKind, json: Json.Value): Usage {
    match kind
    case OpenAI | Custom =>
      var usage := json.Get("usage");
      Usage(Count(Json.Field(usage, "prompt_tokens")),
            Count(Json.Field(usage, "completion_tokens")),
            Count(Json.Field(Json.Field(usage, "prompt_tokens_details"), "cached_tokens")))
    case OpenAIResponses => NO_USAGE
    case Anthropic =>
      var tag := Json.StrOf(json.Get("type"));
      if tag == Some("message_start") then
        var usage := Json.Field(json.Get("message"), "usage");
        Usage(Count(Json.Field(usage, "input_tokens")), None, Count(Json.Field(usage, "cache_read_input_tokens")))
      else if tag == Some("message_delta") then
        Usage(None, Count(Json.Field(json.Get("usage"), "output_tokens")), None)
      else NO_USAGE
    case Google =>
      var usage := json.Get("usageMetadata");
      Usage(Count(Json.Field(usage, "promptTokenCount")),
            Count(Json.Field(usage, "candidatesTokenCount")),
            Count(Json.Field(usage, "cachedContentTokenCount")))
  }

  // ---------------------------------------------------------------- what is sent

  datatype ChunkCall = ChunkCall(index: nat, id: Option<string>, name: Option<string>, arguments: Option<string>)

  /** The delta of a `chat.completion.chunk`; its envelope (id, time, model) is not modelled. */
  datatype Chunk = Chunk(role: Option<string>, content: Option<string>, calls: seq<ChunkCall>, finish: Option<string>)

  function RenderOpenAiChunk(ev: StreamEvent, includeRole: bool): Option<Chunk> {
    var role := if includeRole then Some("assistant") else None;
    var content := if ev.delta != "" then Some(ev.delta) else None;
    if role.None? && content.None? && ev.toolCallDeltas == [] && ev.finishReason.None? then None
    else
      Some(Chunk(role, content, ChunkCalls(ev.toolCallDeltas), ev.finishReason))
  }

  /** Tool-call fragments as the client is told them. */
  function ChunkCalls(deltas: seq<ToolCallDelta>): seq<ChunkCall> {
    seq(|deltas|, i requires 0 <= i < |deltas| =>
          ChunkCall(deltas[i].index, deltas[i].id, deltas[i].name, deltas[i].argumentsDelta))
  }

  datatype Item =
    | Passthrough(raw: Bytes)
    | Translated(chunk: Chunk)
    | ErrorPayload(raw: Bytes)
    | DoneMark
    | Fault(error: string)

  /** The client of a stream: it may go away after accepting a number of items. */
  datatype Lifetime = Forever | Items(n: nat)

  predicate Accepts(life: Lifetime, sent: seq<Item>) {
    life.Forever? || |sent| < life.n
  }

  /** A send whose failure is ignored. */
  function Offer(life: Lifetime, sent: seq<Item>, item: Item): seq<Item> {
    if Accepts(life, sent) then sent + [item] else sent
  }

  datatype Phase = Reading | Ended | Failed(status: Option<int>, message: string) | Disconnected

  datatype PumpState = PumpState(sent: seq<Item>, firstChunk: bool, usage: Usage, phase: Phase)

  const START := PumpState([], true, NO_USAGE, Reading)

  /** Truncation to a signed 32-bit integer. */
  function AsI32(n: int): int {
    (n + 0x8000_0000) % 0x1_0000_0000 - 0x8000_0000
  }

  /** What an in-band error is logged and classified as. */
  function InBandMessage(message: string): string {
    "upstream in-band error: " + message
  }

  predicate Translating(kind: ProviderKind) {
    kind.Anthropic? || kind.Google?
  }

  /** Telling an OpenAI client about a decoded event of another provider. */
  function Tell(life: Lifetime, st: PumpState, ev: StreamEvent): PumpState {
    var chunk := RenderOpenAiChunk(ev, st.firstChunk);
    if chunk.Some? && !Accepts(life, st.sent) then st.(phase := Disconnected)
    else
      var told := if chunk.Some?
                  then st.(sent := st.sent + [Translated(chunk.value)], firstChunk := false)
                  else st;
      if ev.done then told.(sent := Offer(life, told.sent, DoneMark), phase := Ended) else told
  }

  /** Passing on a payload that is neither the sentinel nor an error. */
  function Relay(codec: Codec, kind: ProviderKind, life: Lifetime, st: PumpState, raw: Bytes): PumpState {
    match kind
    case OpenAI | Custom =>
      if Accepts(life, st.sent)
      then st.(sent := st.sent + [Passthrough(raw)], firstChunk := false)
      else st.(phase := Disconnected)
    case OpenAIResponses => st
    case Anthropic | Google =>
      var ev := codec.decode(kind, raw);
      if ev.None? then st else Tell(life, st, ev.value)
  }

  /** Handling one frame while reading. */
  function Handle(codec: Codec, kind: ProviderKind, life: Lifetime, st: PumpState, frame: SseFrame): PumpState {
    match Classify(codec.parse, frame.data)
    case Done =>
      st.(sent := Offer(life, st.sent, DoneMark), phase := Ended)
    case Error(code, message, raw) =>
      st.(sent := Offer(life, st.sent, ErrorPayload(raw)),
          phase := Failed(Some(AsI32(code.UnwrapOr(502))), InBandMessage(message)))
    case Other(raw, json) =>
      var seen := if json.Some? then st.(usage := st.usage.Or(FrameUsage(kind, json.value))) else st;
      Relay(codec, kind, life, seen, raw)
  }

  /** Handling frames until one of them stops the stream. */
  function HandleAll(codec: Codec, kind: ProviderKind, life: Lifetime, st: PumpState, frames: seq<SseFrame>): PumpState
    decreases |frames|
  {
    if frames == [] || !st.phase.Reading? then st
    else HandleAll(codec, kind, life, Handle(codec, kind, life, st, frames[0]), frames[1..])
  }

  /** How an upstream body ends once all its chunks are read. */
  datatype Ending = End | Idle(window: string) | Transport(error: string)

  function Close(life: Lifetime, st: PumpState, ending: Ending): PumpState {
    if !st.phase.Reading? then st
    else match ending
         case End => st.(phase := Ended)
         case Idle(window) => st.(phase := Failed(Some(504), "stream idle timeout after " + window))
         case Transport(error) =>
           st.(sent := Offer(life, st.sent, Fault("stream error: " + error)),
               phase := Failed(None, "stream error: " + error))
  }

  /** The frames of a body: an unterminated last frame counts only if the body ended cleanly. */
  function BodyFrames(bytes: Bytes, ending: Ending): seq<SseFrame> {
    if ending.End? then AllFrames(bytes) else Frames(bytes)
  }

  /** The whole pump run as one fold over the frames of the whole body. */
  function Pumped(codec: Codec, kind: ProviderKind, life: Lifetime, frames: seq<SseFrame>, ending: Ending): PumpState {
    Close(life, HandleAll(codec, kind, life, START, frames), ending)
  }

  /** A 64-bit count written as a signed 64-bit number. */
  function AsI64(n: nat): int {
    (n + 0x8000_0000_0000_0000) % 0x1_0000_0000_0000_0000 - 0x8000_0000_0000_0000
  }

  /** A count as it is logged. */
  function Logged(count: Option<nat>): Option<int> {
    match count
    case Some(n) => Some(AsI64(n))
    case None => None
  }

  /** A count an upstream can report is logged as it is exactly when it is below 2^63; else it is logged negative. */
  lemma LoggedAsReportedIff(v: Option<Json.Value>)
    requires Count(v).Some?
    ensures Logged(Count(v)) == Count(v) <==> Count(v).value < 0x8000_0000_0000_0000
    ensures Logged(Count(v)).value < 0 <==> Count(v).value >= 0x8000_0000_0000_0000
  {
  }

  /** The first count that is not: 2^63 tokens are logged as -2^63. */
  lemma HugeCountLoggedNegative()
    ensures Logged(Count(Some(Json.Num(0x8000_0000_0000_0000)))) == Some(-0x8000_0000_0000_0000)
  {
  }

  /** The usage row a finished run records; a client that went away leaves none. */
  function RowOf(entryId: int, st: PumpState): seq<UsageRow> {
    match st.phase
    case Ended =>
      [UsageRow(entryId, true, Some(200), None, Logged(st.usage.prompt), Logged(st.usage.completion),
                Logged(st.usage.cached))]
    case Failed(status, message) =>
      [UsageRow(entryId, false, status, Some(message), None, None, None)]
    case _ => []
  }

  /** The failure a finished run reports against its entry. */
  function FailuresOf(entry: RouteEntry, st: PumpState): seq<Failure> {
    match st.phase
    case Failed(status, message) => [Failure(entry, status, message, None)]
    case _ => []
  }

  lemma {:induction false} HandleAllAppend(codec: Codec, kind: ProviderKind, life: Lifetime, st: PumpState,
                                           a: seq<SseFrame>, b: seq<SseFrame>)
    ensures HandleAll(codec, kind, life, st, a + b)
         == HandleAll(codec, kind, life, HandleAll(codec, kind, life, st, a), b)
    decreases |a|
  {
    if a == [] {
      assert a + b == b;
    } else if st.phase.Reading? {
      assert (a + b)[1..] == a[1..] + b;
      HandleAllAppend(codec, kind, life, Handle(codec, kind, life, st, a[0]), a[1..], b);
    }
  }

  // ---------------------------------------------------------------- closed forms for a connected client

  /** A frame after which nothing more is read. */
  predicate Stops(codec: Codec, kind: ProviderKind, frame: SseFrame) {
    var c := Classify(codec.parse, frame.data);
    || c.Done?
    || c.Error?
    || (Translating(kind) && codec.decode(kind, c.raw).Some? && codec.decode(kind, c.raw).value.done)
  }

  /** The frames up to and including the first that stops the stream. */
  function UpToStop(codec: Codec, kind: ProviderKind, frames: seq<SseFrame>): seq<SseFrame> {
    if frames == [] then []
    else if Stops(codec, kind, frames[0]) then [frames[0]]
    else [frames[0]] + UpToStop(codec, kind, frames[1..])
  }

  function UsageIn(codec: Codec, kind: ProviderKind, frame: SseFrame): Usage {
    match Classify(codec.parse, frame.data)
    case Other(_, Some(json)) => FrameUsage(kind, json)
    case _ => NO_USAGE
  }

  /** For each count, the first value any of the frames reports. */
  function FirstUsage(codec: Codec, kind: ProviderKind, frames: seq<SseFrame>): Usage {
    if frames == [] then NO_USAGE else UsageIn(codec, kind, frames[0]).Or(FirstUsage(codec, kind, frames[1..]))
  }

  /** The payloads of frames, each trimmed and framed anew. */
  function Reframed(frames: seq<SseFrame>): Bytes {
    if frames == [] then [] else ToWire(Trim(frames[0].data)) + Reframed(frames[1..])
  }

  /** The bytes of an item; a translated chunk goes through the JSON writer, which is not modelled. */
  function BytesOf(item: Item): Bytes {
    match item
    case Passthrough(raw) => ToWire(raw)
    case ErrorPayload(raw) => ToWire(raw)
    case DoneMark => ToWire(DONE)
    case _ => []
  }

  function ItemBytes(items: seq<Item>): Bytes {
    if items == [] then [] else ItemBytes(items[..|items| - 1]) + BytesOf(items[|items| - 1])
  }

  /** Handling one frame for a connected client of any surface. */
  lemma ConnectedStep(codec: Codec, kind: ProviderKind, st: PumpState, frame: SseFrame)
    requires st.phase.Reading?
    ensures var next := Handle(codec, kind, Forever, st, frame);
            && next.usage == st.usage.Or(UsageIn(codec, kind, frame))
            && (next.phase.Reading? <==> !Stops(codec, kind, frame))
            && (next.phase.Failed? <==> Classify(codec.parse, frame.data).Error?)
            && !next.phase.Disconnected?
  {
    hide FrameUsage, RenderOpenAiChunk, Trim;
  }

  /** Whether a run over these frames was stopped by an in-band error. */
  predicate BrokeInBand(codec: Codec, kind: ProviderKind, frames: seq<SseFrame>) {
    var taken := UpToStop(codec, kind, frames);
    taken != [] && Classify(codec.parse, taken[|taken| - 1].data).Error?
  }

  /** Whether a run over these frames was stopped by one of them at all. */
  predicate Stopped(codec: Codec, kind: ProviderKind, frames: seq<SseFrame>) {
    var taken := UpToStop(codec, kind, frames);
    taken != [] && Stops(codec, kind, taken[|taken| - 1])
  }

  lemma UpToStopCons(codec: Codec, kind: ProviderKind, frame: SseFrame, more: seq<SseFrame>)
    ensures var rest := if Stops(codec, kind, frame) then [] else UpToStop(codec, kind, more);
            && UpToStop(codec, kind, [frame] + more) == [frame] + rest
            && Reframed([frame] + rest) == ToWire(Trim(frame.data)) + Reframed(rest)
            && FirstUsage(codec, kind, [frame] + rest) == UsageIn(codec, kind, frame).Or(FirstUsage(codec, kind, rest))
            && (Stopped(codec, kind, [frame] + more) <==> Stops(codec, kind, frame) || Stopped(codec, kind, more))
            && (BrokeInBand(codec, kind, [frame] + more) <==>
                  Classify(codec.parse, frame.data).Error? || (!Stops(codec, kind, frame)
                      && BrokeInBand(codec, kind, more)))
  {
    var rest := if Stops(codec, kind, frame) then [] else UpToStop(codec, kind, more);
    assert ([frame] + more)[1..] == more;
    assert ([frame] + rest)[1..] == rest;
  }

  lemma {:induction false} ConnectedFrames(codec: Codec, kind: ProviderKind, st: PumpState, frames: seq<SseFrame>)
    requires st.phase.Reading?
    ensures var end := HandleAll(codec, kind, Forever, st, frames);
            && end.usage == st.usage.Or(FirstUsage(codec, kind, UpToStop(codec, kind, frames)))
            && (end.phase.Reading? <==> !Stopped(codec, kind, frames))
            && (end.phase.Failed? <==> BrokeInBand(codec, kind, frames))
            && !end.phase.Disconnected?
    decreases |frames|
  {
    if frames != [] {
      var frame, more := frames[0], frames[1..];
      assert frames == [frame] + more;
      ConnectedStep(codec, kind, st, frame);
      UpToStopCons(codec, kind, frame, more);
      UsageOrAssoc(st.usage, UsageIn(codec, kind, frame), FirstUsage(codec, kind, UpToStop(codec, kind, more)));
      if !Stops(codec, kind, frame) {
        ConnectedFrames(codec, kind, Handle(codec, kind, Forever, st, frame), more);
      }
    }
  }

  /**
   * A run with a connected client records exactly one usage row, marked failed exactly when it ended in an in-band
   * error or, unless a frame had already ended it, in an idle or transport failure; otherwise the row holds, for each
   * count, the first value reported up to the frame that ended the stream, as a signed 64-bit number.
   */
  lemma OneRow(codec: Codec, kind: ProviderKind, entryId: int, frames: seq<SseFrame>, ending: Ending)
    ensures var end := Pumped(codec, kind, Forever, frames, ending);
            var rows := RowOf(entryId, end);
            var counts := FirstUsage(codec, kind, UpToStop(codec, kind, frames));
            && |rows| == 1
            && (!rows[0].success <==>
                  BrokeInBand(codec, kind, frames) || (!Stopped(codec, kind, frames) && !ending.End?))
            && (rows[0].success ==>
                  rows[0] == UsageRow(entryId, true, Some(200), None, Logged(counts.prompt), Logged(counts.completion),
                                      Logged(counts.cached)))
  {
    ConnectedFrames(codec, kind, START, frames);
  }

  /** One frame of an OpenAI stream always costs exactly one send: its trimmed payload. */
  lemma OneSend(codec: Codec, kind: ProviderKind, st: PumpState, frame: SseFrame)
    requires kind.OpenAI? || kind.Custom?
    ensures var next := Handle(codec, kind, Forever, st, frame);
            && |next.sent| == |st.sent| + 1 && next.sent[..|st.sent|] == st.sent
            && BytesOf(next.sent[|st.sent|]) == ToWire(Trim(frame.data))
  {
    hide FrameUsage, ToWire, Trim;
    assert forall item :: (st.sent + [item])[..|st.sent|] == st.sent;
  }

  /**
   * OpenAI streams, connected client: the bytes written are every payload up to and including the first sentinel or
   * error, trimmed and framed anew, whatever their content; one send per frame.
   */
  lemma {:induction false} PassthroughBytes(codec: Codec, kind: ProviderKind, st: PumpState, frames: seq<SseFrame>)
    requires kind.OpenAI? || kind.Custom?
    requires st.phase.Reading?
    ensures var end := HandleAll(codec, kind, Forever, st, frames);
            var taken := UpToStop(codec, kind, frames);
            && ItemBytes(end.sent) == ItemBytes(st.sent) + Reframed(taken)
            && |end.sent| == |st.sent| + |taken|
    decreases |frames|
  {
    if frames != [] {
      var frame, more := frames[0], frames[1..];
      assert frames == [frame] + more;
      OneSend(codec, kind, st, frame);
      ConnectedStep(codec, kind, st, frame);
      UpToStopCons(codec, kind, frame, more);
      var rest := if Stops(codec, kind, frame) then [] else UpToStop(codec, kind, more);
      Assoc(ItemBytes(st.sent), ToWire(Trim(frame.data)), Reframed(rest));
      if !Stops(codec, kind, frame) {
        PassthroughBytes(codec, kind, Handle(codec, kind, Forever, st, frame), more);
      }
    }
  }

  /** What a client's own parser makes of re-framed payloads. */
  function AsData(frames: seq<SseFrame>): seq<SseFrame> {
    if frames == [] then [] else [SseFrame([], Trim(frames[0].data))] + AsData(frames[1..])
  }

  /** A payload that went out trimmed comes back whole exactly when it is a single line. */
  lemma TrimmedRoundTrip(data: Bytes)
    ensures Frames(ToWire(Trim(data))) == [SseFrame([], Trim(data))] && Leftover(ToWire(Trim(data))) == []
       <==> LF !in Trim(data)
  {
    WireRoundTrip(Trim(data));
  }

  /** Reading re-framed payloads whose first is a single line. */
  lemma ReadsLine(head: SseFrame, frames: seq<SseFrame>)
    requires LF !in Trim(head.data)
    ensures Frames(ToWire(Trim(head.data)) + Reframed(frames))
         == [SseFrame([], Trim(head.data))] + Frames(Reframed(frames))
    ensures Leftover(ToWire(Trim(head.data)) + Reframed(frames)) == Leftover(Reframed(frames))
  {
    hide Sse.Frames, Sse.Leftover, ToWire, Trim;
    TrimmedRoundTrip(head.data);
    FeedAppend(ToWire(Trim(head.data)), Reframed(frames));
    assert [] + Reframed(frames) == Reframed(frames);
  }

  /** Reading re-framed payloads whose first has a line end: already the first frame is too short. */
  lemma ReadsLines(head: SseFrame, frames: seq<SseFrame>)
    requires LF in Trim(head.data)
    ensures var read := Frames(ToWire(Trim(head.data)) + Reframed(frames));
            read != [] && |read[0].data| < |Trim(head.data)|
  {
    hide Sse.Frames, Sse.Leftover, ToWire, Trim;
    MultiLineWire(Trim(head.data));
    FeedAppend(ToWire(Trim(head.data)), Reframed(frames));
  }

  /** A client that parses re-framed payloads reads exactly these, in order, if and only if each is a single line. */
  lemma {:induction false} ClientReads(frames: seq<SseFrame>)
    ensures Frames(Reframed(frames)) == AsData(frames) && Leftover(Reframed(frames)) == []
       <==> forall f | f in frames :: LF !in Trim(f.data)
  {
    if frames == [] {
      CutWhole([]);
    } else {
      hide Sse.Frames, Sse.Leftover, ToWire, Trim;
      var head, more := frames[0], frames[1..];
      assert frames == [head] + more && head in frames;
      if LF in Trim(head.data) {
        ReadsLines(head, more);
      } else {
        ReadsLine(head, more);
        ClientReads(more);
        assert ([SseFrame([], Trim(head.data))] + AsData(more))[1..] == AsData(more);
        assert ([SseFrame([], Trim(head.data))] + Frames(Reframed(more)))[1..] == Frames(Reframed(more));
      }
    }
  }

  /** A frame of two data lines, `a` and `b`. */
  const TWO_LINES: Bytes := DATA_FIELD + [97, LF] + DATA_FIELD + [98, LF, LF]

  /** The client reads it back, framed anew, as a frame with the first line alone. */
  lemma SecondLineLost()
    ensures Frames(TWO_LINES) == [SseFrame([], [97, LF, 98])]
    ensures Frames(ToWire(Trim([97, LF, 98]))) == [SseFrame([], [97])]
  {
    TwoLinesRead();
    FirstLineRead();
  }

  lemma LineOf(line: Bytes, rest: Bytes)
    requires LF !in line
    ensures Lines(line + [LF] + rest) == [line] + Lines(rest)
  {
    hide IndexOf;
    var text := line + [LF] + rest;
    FirstIndex(text, LF, |line|);
    assert text[..|line|] == line && text[|line| + 1..] == rest;
  }

  /** The frame of a text of two lines. */
  lemma TwoLineFrame(first: Bytes, second: Bytes, value: Bytes)
    requires LF !in first && LF !in second
    requires FieldOf(DATA_FIELD, first) == Some(value)
    ensures FieldOf(EVENT_FIELD, second).None? || FieldOf(DATA_FIELD, second).Some? ==>
              ParsedFrame(first + [LF] + (second + [LF]))
              == Some(SseFrame([], match FieldOf(DATA_FIELD, second)
                                   case Some(more) => value + [LF] + more
                                   case None => value))
  {
    var raw := first + [LF] + (second + [LF]);
    var none: Bytes := [];
    LineOf(first, second + [LF]);
    LineOf(second, none);
    assert second + [LF] + none == second + [LF];
    assert Lines(raw) == [first, second];
    hide FieldOf, Lines;
    DataOfOne(first);
    assert [first, second][..1] == [first];
    match FieldOf(DATA_FIELD, second)
    case Some(more) =>
      assert DataOf([first, second]) == [value, more];
      assert [value, more][1..] == [more] && JoinLines([more]) == more;
    case None =>
      assert DataOf([first, second]) == [value];
  }

  /** A body of one complete frame. */
  lemma OneFrame(raw: Bytes, frame: SseFrame)
    requires FrameEnd(raw + [LF]) == Some(|raw|) && ParsedFrame(raw) == Some(frame)
    ensures Frames(raw + [LF]) == [frame]
  {
    hide ParsedFrame, FrameEndFrom;
    var buf, none: Bytes := raw + [LF], [];
    CutStep(buf, |raw|);
    assert buf[..|raw|] == raw && buf[|raw| + 1..] == none;
    CutWhole(none);
    var others: seq<Bytes> := [raw][1..];
    assert others == [] && RawFrames(buf).raws == [raw];
    assert Parsed([raw]) == [frame] + Parsed(others);
  }

  lemma TwoLinesRead()
    ensures Frames(TWO_LINES) == [SseFrame([], [97, LF, 98])]
  {
    var a, b := DATA_FIELD + [97], DATA_FIELD + [98];
    var raw := a + [LF] + (b + [LF]);
    FieldRead(97);
    FieldRead(98);
    TwoLinesEnd(raw);
    hide ParsedFrame, FrameEndFrom, FieldOf, Frames;
    TwoLineFrame(a, b, [97]);
    assert [97] + [LF] + [98] == [97, LF, 98];
    OneFrame(raw, SseFrame([], [97, LF, 98]));
  }

  lemma TwoLinesEnd(raw: Bytes)
    requires raw == DATA_FIELD + [97] + [LF] + (DATA_FIELD + [98] + [LF])
    ensures raw + [LF] == TWO_LINES && FrameEnd(TWO_LINES) == Some(|raw|)
  {
    var wire := raw + [LF];
    assert wire == [100, 97, 116, 97, 58, 97, LF, 100, 97, 116, 97, 58, 98, LF, LF];
    assert BlankLineAfter(wire, 13);
    FirstEnd(wire, 0, 13);
  }

  lemma FieldRead(c: Byte)
    requires c != CR && c != SPACE
    ensures FieldOf(DATA_FIELD, DATA_FIELD + [c]) == Some([c])
  {
    assert (DATA_FIELD + [c])[|DATA_FIELD|..] == [c];
  }

  lemma FirstLineRead()
    ensures Frames(ToWire(Trim([97, LF, 98]))) == [SseFrame([], [97])]
  {
    var payload: Bytes := [97, LF, 98];
    assert Trim(payload) == payload;
    var a, b: Bytes := DATA_FIELD + [SPACE] + [97], [98];
    var raw := a + [LF] + (b + [LF]);
    FirstLine([97]);
    TwoLineFrame(a, b, [97]);
    FirstEnd(raw + [LF], 0, 9);
    hide ParsedFrame, FrameEndFrom;
    OneFrame(raw, SseFrame([], [97]));
    assert raw + [LF] == ToWire(payload);
  }

  // ---------------------------------------------------------------- what a translated stream says

  /** Text, tool-call fragments and finish reasons, in the order they were said. */
  datatype Speech = Speech(text: string, calls: seq<ChunkCall>, finishes: seq<string>) {
    function Then(more: Speech): Speech {
      Speech(text + more.text, calls + more.calls, finishes + more.finishes)
    }
  }

  const SILENCE := Speech("", [], [])

  function Listed(finish: Option<string>): seq<string> {
    if finish.Some? then [finish.value] else []
  }

  function ItemSpeech(item: Item): Speech {
    if item.Translated?
    then Speech(item.chunk.content.UnwrapOr(""), item.chunk.calls, Listed(item.chunk.finish))
    else SILENCE
  }

  /** What the chunks a client received say. */
  function Spoken(items: seq<Item>): Speech {
    if items == [] then SILENCE else Spoken(items[..|items| - 1]).Then(ItemSpeech(items[|items| - 1]))
  }

  function EventSpeech(ev: StreamEvent): Speech {
    Speech(ev.delta, ChunkCalls(ev.toolCallDeltas), Listed(ev.finishReason))
  }

  /** What the upstream's frames say once decoded. */
  function Said(codec: Codec, kind: ProviderKind, frames: seq<SseFrame>): Speech {
    if frames == [] then SILENCE else FrameSpeech(codec, kind, frames[0]).Then(Said(codec, kind, frames[1..]))
  }

  /** The event a frame decodes to, if any. */
  function FrameEvent(codec: Codec, kind: ProviderKind, frame: SseFrame): Option<StreamEvent> {
    match Classify(codec.parse, frame.data)
    case Other(raw, _) => codec.decode(kind, raw)
    case _ => None
  }

  function FrameSpeech(codec: Codec, kind: ProviderKind, frame: SseFrame): Speech {
    match FrameEvent(codec, kind, frame)
    case Some(ev) => EventSpeech(ev)
    case None => SILENCE
  }

  lemma ThenAssoc(a: Speech, b: Speech, c: Speech)
    ensures a.Then(b).Then(c) == a.Then(b.Then(c))
  {
    Assoc(a.text, b.text, c.text);
    Assoc(a.calls, b.calls, c.calls);
    Assoc(a.finishes, b.finishes, c.finishes);
  }

  lemma ThenSilence(a: Speech)
    ensures a.Then(SILENCE) == a && SILENCE.Then(a) == a
  {
    assert a.text + "" == a.text && "" + a.text == a.text;
    assert a.calls + [] == a.calls && [] + a.calls == a.calls;
    assert a.finishes + [] == a.finishes && [] + a.finishes == a.finishes;
  }

  lemma SpokenSnoc(items: seq<Item>, item: Item)
    ensures Spoken(items + [item]) == Spoken(items).Then(ItemSpeech(item))
  {
    assert (items + [item])[..|items + [item]| - 1] == items;
  }

  /** An event's chunk says what the event says; an event without a chunk says nothing. */
  lemma ChunkSays(ev: StreamEvent, includeRole: bool)
    ensures match RenderOpenAiChunk(ev, includeRole)
            case Some(chunk) => ItemSpeech(Translated(chunk)) == EventSpeech(ev)
            case None => EventSpeech(ev) == SILENCE
  {
    if ev.toolCallDeltas == [] {
      assert ChunkCalls(ev.toolCallDeltas) == [];
    }
  }

  lemma TellSpeaks(st: PumpState, ev: StreamEvent)
    ensures Spoken(Tell(Forever, st, ev).sent) == Spoken(st.sent).Then(EventSpeech(ev))
  {
    hide RenderOpenAiChunk, EventSpeech, Spoken;
    ChunkSays(ev, st.firstChunk);
    ThenSilence(Spoken(st.sent));
    var chunk := RenderOpenAiChunk(ev, st.firstChunk);
    var told := if chunk.Some? then st.sent + [Translated(chunk.value)] else st.sent;
    if chunk.Some? {
      SpokenSnoc(st.sent, Translated(chunk.value));
    }
    SpokenSnoc(told, DoneMark);
    ThenSilence(Spoken(told));
  }

  lemma HandleSpeaks(codec: Codec, kind: ProviderKind, st: PumpState, frame: SseFrame)
    requires Translating(kind)
    ensures Spoken(Handle(codec, kind, Forever, st, frame).sent)
         == Spoken(st.sent).Then(FrameSpeech(codec, kind, frame))
  {
    hide Tell, EventSpeech, Spoken, FrameUsage;
    ThenSilence(Spoken(st.sent));
    match Classify(codec.parse, frame.data) {
      case Done => SpokenSnoc(st.sent, DoneMark);
      case Error(_, _, raw) => SpokenSnoc(st.sent, ErrorPayload(raw));
      case Other(raw, json) =>
        var seen := if json.Some? then st.(usage := st.usage.Or(FrameUsage(kind, json.value))) else st;
        var ev := codec.decode(kind, raw);
        if ev.Some? {
          TellSpeaks(seen, ev.value);
        }
    }
  }

  /**
   * Anthropic and Google streams, connected client: the chunks say exactly what the frames up to and including the one
   * that ends the stream say: the same text, the same tool-call fragments and the same finish reasons, in order.
   */
  lemma {:induction false} TranslationSaysAll(codec: Codec, kind: ProviderKind, st: PumpState, frames: seq<SseFrame>)
    requires Translating(kind) && st.phase.Reading?
    ensures Spoken(HandleAll(codec, kind, Forever, st, frames).sent)
         == Spoken(st.sent).Then(Said(codec, kind, UpToStop(codec, kind, frames)))
    decreases |frames|
  {
    hide Handle, Spoken, FrameSpeech, Stops;
    ThenSilence(Spoken(st.sent));
    if frames != [] {
      var frame, more := frames[0], frames[1..];
      var next := Handle(codec, kind, Forever, st, frame);
      HandleSpeaks(codec, kind, st, frame);
      ConnectedStep(codec, kind, st, frame);
      ThenSilence(FrameSpeech(codec, kind, frame));
      if Stops(codec, kind, frame) {
        SaidCons(codec, kind, frame, []);
      } else {
        SaidCons(codec, kind, frame, UpToStop(codec, kind, more));
        TranslationSaysAll(codec, kind, next, more);
        ThenAssoc(Spoken(st.sent), FrameSpeech(codec, kind, frame), Said(codec, kind, UpToStop(codec, kind, more)));
      }
    }
  }

  lemma SaidCons(codec: Codec, kind: ProviderKind, frame: SseFrame, more: seq<SseFrame>)
    ensures Said(codec, kind, [frame] + more) == FrameSpeech(codec, kind, frame).Then(Said(codec, kind, more))
    ensures [frame] + [] == [frame]
  {
    assert ([frame] + more)[1..] == more;
  }

  // ---------------------------------------------------------------- the shape of what is sent

  predicate Content(item: Item) {
    item.Passthrough? || item.Translated?
  }

  predicate AllContent(sent: seq<Item>) {
    forall i | 0 <= i < |sent| :: Content(sent[i])
  }

  /** The assistant role on the first chunk alone. */
  predicate RoleFirst(sent: seq<Item>) {
    forall i | 0 <= i < |sent| && sent[i].Translated? ::
      sent[i].chunk.role == if i == 0 then Some("assistant") else None
  }

  /** Nothing but content, save for the last item. */
  predicate ClosedLast(sent: seq<Item>) {
    sent == [] || AllContent(sent[..|sent| - 1])
  }

  predicate WellShaped(st: PumpState) {
    && ClosedLast(st.sent) && RoleFirst(st.sent)
    && (st.phase.Reading? ==> (st.firstChunk <==> st.sent == []) && AllContent(st.sent))
  }

  lemma ShapeSnoc(sent: seq<Item>, item: Item)
    requires AllContent(sent) && RoleFirst(sent)
    requires item.Translated? ==> item.chunk.role == if sent == [] then Some("assistant") else None
    ensures ClosedLast(sent + [item]) && RoleFirst(sent + [item])
    ensures ClosedLast(sent)
    ensures Content(item) ==> AllContent(sent + [item])
  {
    assert (sent + [item])[..|sent + [item]| - 1] == sent;
  }

  lemma RoleWhenAsked(ev: StreamEvent, includeRole: bool)
    ensures var chunk := RenderOpenAiChunk(ev, includeRole);
            chunk.Some? ==> chunk.value.role == if includeRole then Some("assistant") else None
  {
  }

  /** One more chunk, and the sentinel after it. */
  lemma ChunkShape(sent: seq<Item>, chunk: Chunk)
    requires AllContent(sent) && RoleFirst(sent)
    requires chunk.role == if sent == [] then Some("assistant") else None
    ensures var told := sent + [Translated(chunk)];
            && told != [] && AllContent(told) && ClosedLast(told) && RoleFirst(told)
            && ClosedLast(told + [DoneMark]) && RoleFirst(told + [DoneMark])
  {
    hide AllContent, RoleFirst, ClosedLast;
    ShapeSnoc(sent, Translated(chunk));
    ShapeSnoc(sent + [Translated(chunk)], DoneMark);
  }

  lemma TellShape(life: Lifetime, st: PumpState, ev: StreamEvent)
    requires st.phase.Reading? && WellShaped(st)
    ensures WellShaped(Tell(life, st, ev))
  {
    hide RenderOpenAiChunk, AllContent, RoleFirst, ClosedLast, Accepts;
    RoleWhenAsked(ev, st.firstChunk);
    match RenderOpenAiChunk(ev, st.firstChunk)
    case None =>
      ShapeSnoc(st.sent, DoneMark);
    case Some(chunk) =>
      ChunkShape(st.sent, chunk);
  }

  lemma RelayShape(codec: Codec, kind: ProviderKind, life: Lifetime, st: PumpState, raw: Bytes)
    requires st.phase.Reading? && WellShaped(st)
    ensures WellShaped(Relay(codec, kind, life, st, raw))
  {
    hide AllContent, RoleFirst, ClosedLast, Tell, Accepts;
    ShapeSnoc(st.sent, Passthrough(raw));
    var ev := codec.decode(kind, raw);
    if Translating(kind) && ev.Some? {
      TellShape(life, st, ev.value);
    }
  }

  lemma ShapeKept(codec: Codec, kind: ProviderKind, life: Lifetime, st: PumpState, frame: SseFrame)
    requires st.phase.Reading? && WellShaped(st)
    ensures WellShaped(Handle(codec, kind, life, st, frame))
  {
    hide Relay, FrameUsage, AllContent, RoleFirst, ClosedLast;
    ShapeSnoc(st.sent, DoneMark);
    match Classify(codec.parse, frame.data) {
      case Done =>
      case Error(_, _, raw) =>
        ShapeSnoc(st.sent, ErrorPayload(raw));
      case Other(raw, json) =>
        RelayShape(codec, kind, life,
                   if json.Some? then st.(usage := st.usage.Or(FrameUsage(kind, json.value))) else st, raw);
    }
  }

  lemma {:induction false} ShapeOfFrames(codec: Codec, kind: ProviderKind, life: Lifetime, st: PumpState,
                                         frames: seq<SseFrame>)
    requires WellShaped(st)
    ensures WellShaped(HandleAll(codec, kind, life, st, frames))
    decreases |frames|
  {
    hide WellShaped, Handle;
    if frames != [] && st.phase.Reading? {
      ShapeKept(codec, kind, life, st, frames[0]);
      ShapeOfFrames(codec, kind, life, Handle(codec, kind, life, st, frames[0]), frames[1..]);
    }
  }

  lemma EmptyShape()
    ensures AllContent([]) && RoleFirst([]) && ClosedLast([])
  {
  }

  /**
   * Every run, whatever the surface and whenever the client leaves: the sentinel, an error or a fault is sent at most
   * once and nothing follows it, and the first chunk, and no other, carries the assistant role.
   */
  lemma RunShape(codec: Codec, kind: ProviderKind, life: Lifetime, frames: seq<SseFrame>, ending: Ending)
    ensures var sent := Pumped(codec, kind, life, frames, ending).sent;
            ClosedLast(sent) && RoleFirst(sent)
  {
    hide AllContent, RoleFirst, ClosedLast, HandleAll;
    EmptyShape();
    ShapeOfFrames(codec, kind, life, START, frames);
    var st := HandleAll(codec, kind, life, START, frames);
    if st.phase.Reading? && ending.Transport? {
      ShapeSnoc(st.sent, Fault("stream error: " + ending.error));
    }
  }

  /** Asked for the role, the renderer always emits, even for an event that only carries counts. */
  lemma RoleAlwaysRenders(ev: StreamEvent)
    ensures RenderOpenAiChunk(ev, true).Some? && RenderOpenAiChunk(ev, true).value.role == Some("assistant")
    ensures RenderOpenAiChunk(ev, false).Some? <==>
              ev.delta != "" || ev.toolCallDeltas != [] || ev.finishReason.Some?
  {
  }

  // ---------------------------------------------------------------- which event takes the role

  /** The events frames decode to, in order. */
  function DecodedIn(codec: Codec, kind: ProviderKind, frames: seq<SseFrame>): seq<StreamEvent> {
    if frames == [] then []
    else match FrameEvent(codec, kind, frames[0])
         case Some(ev) => [ev] + DecodedIn(codec, kind, frames[1..])
         case None => DecodedIn(codec, kind, frames[1..])
  }

  /** A chunk that says nothing. */
  predicate Mute(item: Item) {
    item.Translated? && ItemSpeech(item) == SILENCE
  }

  predicate NoMute(sent: seq<Item>) {
    forall i | 0 <= i < |sent| :: !Mute(sent[i])
  }

  lemma NoMuteSnoc(sent: seq<Item>, item: Item)
    ensures NoMute(sent + [item]) <==> NoMute(sent) && !Mute(item)
  {
    var more := sent + [item];
    assert more[|sent|] == item && forall i | 0 <= i < |sent| :: more[i] == sent[i];
  }

  /** The first event told takes the role, whatever it says. */
  lemma TellLeads(st: PumpState, ev: StreamEvent)
    requires st.sent == [] && st.firstChunk
    ensures var sent := Tell(Forever, st, ev).sent;
            && sent != [] && sent[0] == Translated(RenderOpenAiChunk(ev, true).value)
            && (NoMute(sent) <==> EventSpeech(ev) != SILENCE)
    ensures !Tell(Forever, st, ev).firstChunk
  {
    RoleAlwaysRenders(ev);
    hide RenderOpenAiChunk, EventSpeech, NoMute;
    ChunkSays(ev, true);
    var chunk := Translated(RenderOpenAiChunk(ev, true).value);
    assert NoMute([]) by {
      var none: seq<Item> := [];
      EmptyNoMute(none);
    }
    NoMuteSnoc([], chunk);
    assert [] + [chunk] == [chunk];
    NoMuteSnoc([chunk], DoneMark);
  }

  lemma EmptyNoMute(none: seq<Item>)
    requires none == []
    ensures NoMute(none)
  {
  }

  /** Once the role is out, no chunk is sent that says nothing. */
  lemma TellSpeaksUp(st: PumpState, ev: StreamEvent)
    requires !st.firstChunk
    ensures NoMute(Tell(Forever, st, ev).sent) <==> NoMute(st.sent)
    ensures !Tell(Forever, st, ev).firstChunk
  {
    RoleAlwaysRenders(ev);
    ChunkSays(ev, false);
    SpeaksUp(ev);
    hide RenderOpenAiChunk, EventSpeech, NoMute;
    var chunk := RenderOpenAiChunk(ev, false);
    var told := if chunk.Some? then st.sent + [Translated(chunk.value)] else st.sent;
    if chunk.Some? {
      NoMuteSnoc(st.sent, Translated(chunk.value));
    }
    NoMuteSnoc(told, DoneMark);
  }

  lemma SpeaksUp(ev: StreamEvent)
    ensures RenderOpenAiChunk(ev, false).Some? <==> EventSpeech(ev) != SILENCE
  {
    RoleAlwaysRenders(ev);
    assert ev.toolCallDeltas != [] <==> ChunkCalls(ev.toolCallDeltas) != [] by {
      assert |ChunkCalls(ev.toolCallDeltas)| == |ev.toolCallDeltas|;
    }
  }

  /** What is sent for a frame that is the sentinel or an error. */
  function ClosingMark(codec: Codec, frame: SseFrame): seq<Item> {
    match Classify(codec.parse, frame.data)
    case Done => [DoneMark]
    case Error(_, _, raw) => [ErrorPayload(raw)]
    case _ => []
  }

  /** Handling a frame comes down to telling its event, if it has one. */
  lemma HandleTells(codec: Codec, kind: ProviderKind, st: PumpState, frame: SseFrame)
    requires Translating(kind)
    ensures var next := Handle(codec, kind, Forever, st, frame);
            match FrameEvent(codec, kind, frame)
            case Some(ev) => next == Tell(Forever, st.(usage := next.usage), ev)
            case None => next.sent == st.sent + ClosingMark(codec, frame) && next.firstChunk == st.firstChunk
  {
    hide FrameUsage;
    assert st.sent + [] == st.sent;
  }

  lemma MarkNotMute(codec: Codec, frame: SseFrame, sent: seq<Item>)
    ensures NoMute(sent + ClosingMark(codec, frame)) <==> NoMute(sent)
  {
    hide NoMute;
    match Classify(codec.parse, frame.data) {
      case Done => NoMuteSnoc(sent, DoneMark);
      case Error(_, _, raw) => NoMuteSnoc(sent, ErrorPayload(raw));
      case Other(_, _) => assert sent + [] == sent;
    }
  }

  /** Once the role is out, a run adds no chunk that says nothing. */
  lemma {:induction false} RestSpeaksUp(codec: Codec, kind: ProviderKind, st: PumpState, frames: seq<SseFrame>)
    requires Translating(kind) && !st.firstChunk
    ensures NoMute(HandleAll(codec, kind, Forever, st, frames).sent) <==> NoMute(st.sent)
    decreases |frames|
  {
    hide NoMute, Handle, Tell, FrameEvent, ClosingMark;
    if frames != [] && st.phase.Reading? {
      var next := Handle(codec, kind, Forever, st, frames[0]);
      HandleTells(codec, kind, st, frames[0]);
      match FrameEvent(codec, kind, frames[0]) {
        case Some(ev) => TellSpeaksUp(st.(usage := next.usage), ev);
        case None => MarkNotMute(codec, frames[0], st.sent);
      }
      RestSpeaksUp(codec, kind, next, frames[1..]);
    }
  }

  /** `evs` are the events a run told, `sent` what it sent: the first event took the role. */
  predicate FirstLeads(evs: seq<StreamEvent>, sent: seq<Item>) {
    if evs == [] then NoMute(sent)
    else
      && sent != [] && RenderOpenAiChunk(evs[0], true).Some?
      && sent[0] == Translated(RenderOpenAiChunk(evs[0], true).value)
      && (NoMute(sent) <==> EventSpeech(evs[0]) != SILENCE)
  }

  lemma LeadKept(evs: seq<StreamEvent>, sent: seq<Item>, more: seq<Item>)
    requires evs != [] && FirstLeads(evs, sent) && sent <= more && (NoMute(more) <==> NoMute(sent))
    ensures FirstLeads(evs, more)
  {
  }

  lemma {:induction false} FirstEventLeads(codec: Codec, kind: ProviderKind, st: PumpState, frames: seq<SseFrame>)
    requires Translating(kind) && st.phase.Reading? && st.firstChunk && st.sent == []
    ensures FirstLeads(DecodedIn(codec, kind, UpToStop(codec, kind, frames)),
                       HandleAll(codec, kind, Forever, st, frames).sent)
    decreases |frames|
  {
    hide NoMute, Handle, Tell, FrameEvent, ClosingMark, Stops, FirstLeads;
    if frames == [] {
      NothingLed(st.sent);
    } else {
      var frame, more := frames[0], frames[1..];
      var next := Handle(codec, kind, Forever, st, frame);
      var rest := if Stops(codec, kind, frame) then [] else UpToStop(codec, kind, more);
      assert UpToStop(codec, kind, frames) == [frame] + rest && ([frame] + rest)[1..] == rest;
      HandleTells(codec, kind, st, frame);
      ConnectedStep(codec, kind, st, frame);
      match FrameEvent(codec, kind, frame) {
        case Some(ev) =>
          LeadFrom(codec, kind, st.(usage := next.usage), ev, more);
          assert DecodedIn(codec, kind, [frame] + rest) == [ev] + DecodedIn(codec, kind, rest);
          SameLead(ev, DecodedIn(codec, kind, rest), HandleAll(codec, kind, Forever, next, more).sent);
        case None =>
          if Stops(codec, kind, frame) {
            MarkNotMute(codec, frame, []);
            NothingLed([]);
            NothingLed(next.sent);
          } else {
            NoMark(codec, kind, frame);
            FirstEventLeads(codec, kind, next, more);
          }
      }
    }
  }

  lemma NothingLed(sent: seq<Item>)
    ensures FirstLeads([], sent) <==> NoMute(sent)
    ensures sent == [] ==> NoMute(sent)
  {
  }

  lemma SameLead(ev: StreamEvent, evs: seq<StreamEvent>, sent: seq<Item>)
    requires FirstLeads([ev], sent)
    ensures FirstLeads([ev] + evs, sent)
  {
  }

  lemma NoMark(codec: Codec, kind: ProviderKind, frame: SseFrame)
    requires !Stops(codec, kind, frame)
    ensures ClosingMark(codec, frame) == []
  {
  }

  lemma LeadFrom(codec: Codec, kind: ProviderKind, st: PumpState, ev: StreamEvent, more: seq<SseFrame>)
    requires Translating(kind) && st.firstChunk && st.sent == []
    ensures FirstLeads([ev], HandleAll(codec, kind, Forever, Tell(Forever, st, ev), more).sent)
  {
    var told := Tell(Forever, st, ev);
    RoleAlwaysRenders(ev);
    TellLeads(st, ev);
    assert FirstLeads([ev], told.sent);
    hide *;
    OnlyGrows(codec, kind, told, more);
    RestSpeaksUp(codec, kind, told, more);
    LeadKept([ev], told.sent, HandleAll(codec, kind, Forever, told, more).sent);
  }

  /**
   * Anthropic and Google runs, connected client: the first event decoded takes the role, whatever it says. So the
   * promise that an event with nothing to say renders nothing, and leaves the role to a later one, is kept if and only
   * if the first event decoded, if there is one, has something to say.
   */
  lemma RoleGoesFirst(codec: Codec, kind: ProviderKind, frames: seq<SseFrame>, ending: Ending)
    requires Translating(kind)
    ensures var sent := Pumped(codec, kind, Forever, frames, ending).sent;
            var evs := DecodedIn(codec, kind, UpToStop(codec, kind, frames));
            && (evs != [] ==> sent != [] && sent[0] == Translated(RenderOpenAiChunk(evs[0], true).value))
            && (NoMute(sent) <==> evs == [] || EventSpeech(evs[0]) != SILENCE)
  {
    hide HandleAll, UpToStop, DecodedIn, NoMute, EventSpeech, RenderOpenAiChunk;
    var st := HandleAll(codec, kind, Forever, START, frames);
    FirstEventLeads(codec, kind, START, frames);
    if st.phase.Reading? && ending.Transport? {
      NoMuteSnoc(st.sent, Fault("stream error: " + ending.error));
    }
  }

  /** The opening of an Anthropic stream, which only carries a count, and its first text. */
  const OPENING := StreamEvent("", None, Some(11), None, false, [])

  const FIRST_TEXT := StreamEvent("Hi", None, None, None, false, [])

  /** There the role goes out on a chunk that says nothing, and the text follows without it. */
  lemma OpeningTakesRole(codec: Codec, opening: SseFrame, text: SseFrame)
    requires FrameEvent(codec, Anthropic, opening) == Some(OPENING)
    requires FrameEvent(codec, Anthropic, text) == Some(FIRST_TEXT)
    ensures Pumped(codec, Anthropic, Forever, [opening, text], End).sent
         == [Translated(Chunk(Some("assistant"), None, [], None)), Translated(Chunk(None, Some("Hi"), [], None))]
  {
    hide FrameEvent, Handle, FrameUsage;
    var st := Handle(codec, Anthropic, Forever, START, opening);
    var end := Handle(codec, Anthropic, Forever, st, text);
    HandleTells(codec, Anthropic, START, opening);
    HandleTells(codec, Anthropic, st, text);
    assert ChunkCalls([]) == [];
    assert st.sent == [Translated(Chunk(Some("assistant"), None, [], None))] && st.phase.Reading?;
    assert end.phase.Reading?;
    var rest: seq<SseFrame> := [text][1..];
    assert rest == [] && [opening, text][1..] == [text];
    assert HandleAll(codec, Anthropic, Forever, end, rest) == end;
    assert HandleAll(codec, Anthropic, Forever, st, [text]) == end;
  }

  // ---------------------------------------------------------------- a client that goes away

  /** How a run cut short by its client stands to the run of a client that stays. */
  predicate CutShort(n: nat, short: PumpState, full: PumpState) {
    && (short.phase.Reading? ==> short == full)
    && (!short.phase.Reading? ==> short.sent == full.sent[..if n < |full.sent| then n else |full.sent|])
    && (short.phase.Disconnected? ==> |short.sent| == n)
    && (full.phase.Reading? ==> short.phase.Reading? || short.phase.Disconnected?)
    && |short.sent| <= n
  }

  lemma RelayCutShort(codec: Codec, kind: ProviderKind, n: nat, st: PumpState, raw: Bytes)
    requires st.phase.Reading? && |st.sent| <= n
    ensures CutShort(n, Relay(codec, kind, Items(n), st, raw), Relay(codec, kind, Forever, st, raw))
  {
  }

  lemma CutShortKept(codec: Codec, kind: ProviderKind, n: nat, st: PumpState, frame: SseFrame)
    requires st.phase.Reading? && |st.sent| <= n
    ensures CutShort(n, Handle(codec, kind, Items(n), st, frame), Handle(codec, kind, Forever, st, frame))
  {
    match Classify(codec.parse, frame.data) {
      case Done =>
      case Error(_, _, _) =>
      case Other(raw, json) =>
        RelayCutShort(codec, kind, n,
                      if json.Some? then st.(usage := st.usage.Or(FrameUsage(kind, json.value))) else st, raw);
    }
  }

  lemma PrefixTrans<T>(a: seq<T>, b: seq<T>, c: seq<T>)
    requires a <= b <= c
    ensures a <= c
  {
  }

  lemma HandleGrows(codec: Codec, kind: ProviderKind, st: PumpState, frame: SseFrame)
    ensures st.sent <= Handle(codec, kind, Forever, st, frame).sent
  {
    hide FrameUsage, RenderOpenAiChunk, Trim;
  }

  lemma {:induction false} OnlyGrows(codec: Codec, kind: ProviderKind, st: PumpState, frames: seq<SseFrame>)
    ensures st.sent <= HandleAll(codec, kind, Forever, st, frames).sent
    decreases |frames|
  {
    if frames != [] && st.phase.Reading? {
      var next := Handle(codec, kind, Forever, st, frames[0]);
      HandleGrows(codec, kind, st, frames[0]);
      OnlyGrows(codec, kind, next, frames[1..]);
      PrefixTrans(st.sent, next.sent, HandleAll(codec, kind, Forever, next, frames[1..]).sent);
    }
  }

  lemma {:induction false} CutShortFrames(codec: Codec, kind: ProviderKind, n: nat, st: PumpState,
                                          frames: seq<SseFrame>)
    requires st.phase.Reading? && |st.sent| <= n
    ensures CutShort(n, HandleAll(codec, kind, Items(n), st, frames), HandleAll(codec, kind, Forever, st, frames))
    decreases |frames|
  {
    if frames != [] {
      var short, full := Handle(codec, kind, Items(n), st, frames[0]), Handle(codec, kind, Forever, st, frames[0]);
      CutShortKept(codec, kind, n, st, frames[0]);
      if short.phase.Reading? {
        CutShortFrames(codec, kind, n, short, frames[1..]);
      } else {
        OnlyGrows(codec, kind, full, frames[1..]);
      }
    }
  }

  /** A client that leaves after `n` items has received the first `n` items of the whole run, no more and no less. */
  lemma DisconnectPrefix(codec: Codec, kind: ProviderKind, n: nat, frames: seq<SseFrame>, ending: Ending)
    ensures var full := Pumped(codec, kind, Forever, frames, ending).sent;
            Pumped(codec, kind, Items(n), frames, ending).sent == full[..if n < |full| then n else |full|]
  {
    CutShortFrames(codec, kind, n, START, frames);
    ConnectedFrames(codec, kind, START, frames);
  }

  /** Field by field: what a rendered chunk holds of its event. */
  lemma ChunkHolds(ev: StreamEvent, includeRole: bool)
    ensures var chunk := RenderOpenAiChunk(ev, includeRole);
            chunk.Some? ==>
              && chunk.value.role == (if includeRole then Some("assistant") else None)
              && chunk.value.content == (if ev.delta == "" then None else Some(ev.delta))
              && chunk.value.finish == ev.finishReason
              && CarriesFragments(chunk.value.calls, ev.toolCallDeltas)
  {
  }

  /** Each fragment at its place, with its own index, id, name and arguments. */
  predicate CarriesFragments(calls: seq<ChunkCall>, deltas: seq<ToolCallDelta>) {
    && |calls| == |deltas|
    && (forall i | 0 <= i < |calls| ::
          && calls[i].index == deltas[i].index && calls[i].id == deltas[i].id
          && calls[i].name == deltas[i].name && calls[i].arguments == deltas[i].argumentsDelta)
  }
}
