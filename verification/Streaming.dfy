/**
 * The two-phase streaming machine: a probe reads a body until it proves itself, then hands its half-read state to a
 * pump (src/server/handlers.rs). Network chunks arrive cut anywhere.
 */
module Streaming {
  import opened Base
  import opened Domain
  import opened Sse
  import opened Pump
  import opened Health
  import Json

  datatype NextChunk = Arrived(bytes: Bytes) | EndOfBody | IdleGap(window: string) | Broken(error: string)

  /** An upstream body: the chunks still to arrive, and how it ends after them. */
  class Body {
    const ending: Ending
    var chunks: seq<Bytes>

    constructor (chunks: seq<Bytes>, ending: Ending)
      ensures this.chunks == chunks && this.ending == ending
    {
      this.chunks := chunks;
      this.ending := ending;
    }

    method Next() returns (next: NextChunk)
      modifies this
      ensures old(chunks) != [] ==> next == Arrived(old(chunks)[0]) && chunks == old(chunks)[1..]
      ensures old(chunks) == [] ==> chunks == [] && match ending
                                    case End => next == EndOfBody
                                    case Idle(window) => next == IdleGap(window)
                                    case Transport(error) => next == Broken(error)
    {
      if chunks != [] {
        next := Arrived(chunks[0]);
        chunks := chunks[1..];
      } else {
        match ending
        case End => next := EndOfBody;
        case Idle(window) => next := IdleGap(window);
        case Transport(error) => next := Broken(error);
      }
    }
  }

  class Client {
    const life: Lifetime
    var received: seq<Item>

    constructor (life: Lifetime)
      ensures this.life == life && received == []
    {
      this.life := life;
      received := [];
    }

    method Send(item: Item) returns (ok: bool)
      modifies this
      ensures ok == Accepts(life, old(received))
      ensures received == Offer(life, old(received), item)
    {
      ok := life.Forever? || |received| < life.n;
      if ok {
        received := received + [item];
      }
    }
  }

  // ---------------------------------------------------------------- the probe

  datatype Verdict =
    | Commit
    | InBandError(code: Option<int>, message: string)
    | NoContent(message: string)
    | Timeout
    | TransportError(error: string)

  const ONLY_DONE := "upstream returned an empty stream (only [DONE])"
  const NO_DATA := "upstream closed the stream without sending data"

  /** The verdict on the first decoded frames, with `rest` still buffered. */
  function Judge(parse: Bytes -> Option<Json.Value>, frames: seq<SseFrame>, rest: Bytes): Verdict
    requires frames != []
  {
    match Classify(parse, frames[0].data)
    case Error(code, message, _) => InBandError(code, message)
    case Done => if |frames| == 1 && rest == [] then NoContent(ONLY_DONE) else Commit
    case Other(_, _) => Commit
  }

  /** The verdict when a body ends without any frame. */
  function Silent(ending: Ending): Verdict {
    match ending
    case End => NoContent(NO_DATA)
    case Idle(_) => Timeout
    case Transport(error) => TransportError(error)
  }

  /** The verdict of the probe, chunk by chunk. */
  function Probed(parse: Bytes -> Option<Json.Value>, buf: Bytes, chunks: seq<Bytes>, ending: Ending): Verdict
    decreases |chunks|
  {
    if chunks == [] then
      var last := if ending.End? then Flush(buf) else [];
      if last == [] then Silent(ending) else Judge(parse, last, [])
    else
      var frames, rest := Frames(buf + chunks[0]), Leftover(buf + chunks[0]);
      if frames == [] then Probed(parse, rest, chunks[1..], ending) else Judge(parse, frames, rest)
  }

  /** The frames still to come from a queue, a parser's buffer and the chunks not yet read. */
  function Remaining(pending: seq<SseFrame>, buf: Bytes, chunks: seq<Bytes>, ending: Ending): seq<SseFrame> {
    pending + BodyFrames(buf + Concat(chunks), ending)
  }

  /** The frames of a body, split at any point. */
  lemma BodyFramesSplit(head: Bytes, tail: Bytes, ending: Ending)
    ensures BodyFrames(head + tail, ending) == Frames(head) + BodyFrames(Leftover(head) + tail, ending)
  {
    FeedAppend(head, tail);
    if ending.End? {
      Assoc(Frames(head), Frames(Leftover(head) + tail), Flush(Leftover(Leftover(head) + tail)));
    }
  }

  /** Feeding one chunk moves frames from the body to the queue, and loses none. */
  lemma RemainingStep(pending: seq<SseFrame>, buf: Bytes, chunks: seq<Bytes>, ending: Ending)
    requires chunks != []
    ensures var head := buf + chunks[0];
            Remaining(pending + Frames(head), Leftover(head), chunks[1..], ending)
                == Remaining(pending, buf, chunks, ending)
  {
    var head, tail := buf + chunks[0], Concat(chunks[1..]);
    Assoc(buf, chunks[0], tail);
    BodyFramesSplit(head, tail, ending);
    Assoc(pending, Frames(head), BodyFrames(Leftover(head) + tail, ending));
  }

  /** Once all chunks are read, only the flush of the buffer is left. */
  lemma RemainingAtEnd(pending: seq<SseFrame>, buf: Bytes, ending: Ending)
    requires FrameEnd(buf).None?
    ensures Remaining(pending, buf, [], ending) == pending + if ending.End? then Flush(buf) else []
    ensures Remaining(pending, [], [], ending) == pending
  {
    var none: seq<Bytes> := [];
    assert buf + Concat(none) == buf;
    CutWhole(buf);
    var empty: Bytes := [];
    assert empty + Concat(none) == empty;
    CutWhole(empty);
    assert BodyFrames(empty, ending) == [];
    assert pending + [] == pending;
    assert BodyFrames(buf, ending) == if ending.End? then Flush(buf) else [];
  }

  /** Awaits the next chunk and feeds it to the parser; a clean end flushes the parser instead. */
  method ReadMore(body: Body, parser: SseParser) returns (next: NextChunk, frames: seq<SseFrame>)
    requires FrameEnd(parser.buf).None?
    modifies body, parser
    ensures FrameEnd(parser.buf).None?
    ensures Remaining(frames, parser.buf, body.chunks, body.ending)
         == Remaining([], old(parser.buf), old(body.chunks), body.ending)
    ensures next.Arrived? <==> old(body.chunks) != []
    ensures next.Arrived? ==>
              var head := old(parser.buf) + old(body.chunks)[0];
              body.chunks == old(body.chunks)[1..] && frames == Frames(head) && parser.buf == Leftover(head)
    ensures !next.Arrived? ==> body.chunks == [] && match body.ending
                               case End => next == EndOfBody && frames == Flush(old(parser.buf)) && parser.buf == []
                               case Idle(window) => next == IdleGap(window) && frames == []
                               case Transport(error) => next == Broken(error) && frames == []
  {
    frames := [];
    ghost var buf, chunks := parser.buf, body.chunks;
    next := body.Next();
    if next.Arrived? {
      RemainingStep([], buf, chunks, body.ending);
      frames := parser.Feed(next.bytes);
      assert [] + frames == frames;
    } else if next.EndOfBody? {
      RemainingAtEnd([], buf, body.ending);
      frames := parser.Finish();
      RemainingAtEnd(frames, [], body.ending);
    }
  }

  method ProbeStream(parse: Bytes -> Option<Json.Value>, body: Body)
    returns (verdict: Verdict, parser: SseParser, pending: seq<SseFrame>)
    modifies body
    ensures verdict == Probed(parse, [], old(body.chunks), body.ending)
    ensures fresh(parser) && FrameEnd(parser.buf).None?
    ensures verdict.Commit? ==>
              Remaining(pending, parser.buf, body.chunks, body.ending)
              == Remaining([], [], old(body.chunks), body.ending)
  {
    hide Remaining, Classify, FrameEndFrom, BodyFrames;
    parser := new SseParser();
    pending := [];
    ghost var all := Remaining([], [], body.chunks, body.ending);
    ghost var fate := Probed(parse, [], body.chunks, body.ending);
    while true
      invariant fresh(parser) && FrameEnd(parser.buf).None?
      invariant Remaining(pending, parser.buf, body.chunks, body.ending) == all
      invariant fate == if pending == [] then Probed(parse, parser.buf, body.chunks, body.ending)
                        else Judge(parse, pending, parser.buf)
      decreases |body.chunks|, if pending == [] then 1 else 0
    {
      if pending != [] {
        ghost var queue := pending;
        var frame := pending[0];
        pending := pending[1..];
        assert [frame] + pending == queue;
        match Classify(parse, frame.data) {
          case Error(code, message, _) =>
            return InBandError(code, message), parser, pending;
          case Done =>
            if pending == [] && parser.buf == [] {
              return NoContent(ONLY_DONE), parser, pending;
            }
            pending := [frame] + pending;
            return Commit, parser, pending;
          case Other(_, _) =>
            pending := [frame] + pending;
            return Commit, parser, pending;
        }
      }
      var next;
      next, pending := ReadMore(body, parser);
      match next
      case IdleGap(_) => return Timeout, parser, pending;
      case Broken(error) => return TransportError(error), parser, pending;
      case EndOfBody =>
        if pending == [] {
          return NoContent(NO_DATA), parser, pending;
        }
      case Arrived(_) =>
    }
  }

  // ---------------------------------------------------------------- chunking shows only in a leading sentinel

  /** The verdict read off the frames of the whole body. */
  function WholeVerdict(parse: Bytes -> Option<Json.Value>, frames: seq<SseFrame>, ending: Ending): Verdict {
    if frames == [] then Silent(ending)
    else match Classify(parse, frames[0].data)
         case Error(code, message, _) => InBandError(code, message)
         case _ => Commit
  }

  /** The first frame is all there is once the chunk that completes it is read, or it is completed only by the end. */
  predicate StandsAlone(buf: Bytes, chunks: seq<Bytes>)
    decreases |chunks|
  {
    if chunks == [] then true
    else
      var head := buf + chunks[0];
      if Frames(head) == [] then StandsAlone(Leftover(head), chunks[1..])
      else |Frames(head)| == 1 && Leftover(head) == []
  }

  /** How a verdict stands to the one read off all frames, when the first frame stands alone or does not. */
  predicate Agrees(parse: Bytes -> Option<Json.Value>, verdict: Verdict, frames: seq<SseFrame>, ending: Ending,
                   alone: bool) {
    if frames != [] && Classify(parse, frames[0].data).Done? && alone
    then verdict == NoContent(ONLY_DONE) && WholeVerdict(parse, frames, ending) == Commit
    else verdict == WholeVerdict(parse, frames, ending)
  }

  lemma JudgeAgrees(parse: Bytes -> Option<Json.Value>, frames: seq<SseFrame>, rest: Bytes, all: seq<SseFrame>,
                    ending: Ending)
    requires frames != [] && all != [] && all[0] == frames[0]
    ensures Agrees(parse, Judge(parse, frames, rest), all, ending, |frames| == 1 && rest == [])
  {
  }

  /**
   * For every body and every cutting of it, the probe's verdict is the one read off the frames of the whole body,
   * except exactly when the first frame is the sentinel and stands alone; then the attempt counts as empty.
   */
  lemma {:induction false} ProbeVerdict(parse: Bytes -> Option<Json.Value>, buf: Bytes, chunks: seq<Bytes>,
                                        ending: Ending)
    requires FrameEnd(buf).None?
    ensures Agrees(parse, Probed(parse, buf, chunks, ending), Remaining([], buf, chunks, ending), ending,
                   StandsAlone(buf, chunks))
    decreases |chunks|
  {
    var all := Remaining([], buf, chunks, ending);
    if chunks == [] {
      RemainingAtEnd([], buf, ending);
      if all != [] {
        assert ending.End? && all == Flush(buf);
        JudgeAgrees(parse, Flush(buf), [], all, ending);
      }
    } else {
      var head := buf + chunks[0];
      RemainingStep([], buf, chunks, ending);
      if Frames(head) == [] {
        var none: seq<SseFrame> := [];
        assert none + Frames(head) == none;
        ProbeVerdict(parse, Leftover(head), chunks[1..], ending);
      } else {
        assert all[0] == Frames(head)[0];
        JudgeAgrees(parse, Frames(head), Leftover(head), all, ending);
      }
    }
  }

  /** The same bytes, cut in two ways, judged in two ways: a leading sentinel followed by anything. */
  lemma LeadingDoneDependsOnChunking(parse: Bytes -> Option<Json.Value>, tail: Bytes)
    requires tail != [] && FrameEnd(tail).None?
    ensures Concat([ToWire(DONE) + tail]) == Concat([ToWire(DONE), tail])
    ensures Probed(parse, [], [ToWire(DONE) + tail], End) == Commit
    ensures Probed(parse, [], [ToWire(DONE), tail], End) == NoContent(ONLY_DONE)
  {
    hide ParsedFrame, RawFrames, FrameEndFrom, ToWire, Trim;
    var wire := ToWire(DONE);
    DoneTrimmed();
    WireRoundTrip(DONE);
    assert Frames(wire) == [SseFrame([], DONE)] && Leftover(wire) == [];
    var empty: Bytes := [];
    assert empty + wire == wire && empty + (wire + tail) == wire + tail && empty + tail == tail;
    FeedAppend(wire, tail);
    CutWhole(tail);
    assert Frames(tail) == [] && Frames(wire + tail) == [SseFrame([], DONE)] && Leftover(wire + tail) == tail;
    assert [tail] == [wire, tail][1..];
    ConcatTwo(wire, tail);
    ConcatTwo(wire + tail, []);
  }

  lemma DoneTrimmed()
    ensures Trim(DONE) == DONE && LF !in DONE && DONE[|DONE| - 1] != CR
  {
    assert !IsSpace(DONE[0]) && !IsSpace(DONE[|DONE| - 1]);
  }

  lemma ConcatTwo(a: Bytes, b: Bytes)
    ensures Concat([a, b]) == a + b && Concat([a]) == a
  {
    var none: seq<Bytes> := [b][1..];
    assert none == [] && [a, b][1..] == [b] && [a][1..] == none;
    assert Concat([b]) == b + Concat(none);
    assert Concat([a]) == a + Concat(none);
  }

  // ---------------------------------------------------------------- the pump

  datatype Fetched = Got(frame: SseFrame) | BodyOver

  /** Takes the next frame from the queue, or else reads chunks until there is one or the body is over. */
  method NextFrame(body: Body, parser: SseParser, queue: seq<SseFrame>)
    returns (fetched: Fetched, pending: seq<SseFrame>)
    requires FrameEnd(parser.buf).None?
    modifies body, parser
    ensures FrameEnd(parser.buf).None?
    ensures Remaining(queue, old(parser.buf), old(body.chunks), body.ending)
         == match fetched
            case Got(frame) => [frame] + Remaining(pending, parser.buf, body.chunks, body.ending)
            case BodyOver => []
    ensures fetched.Got? ==>
              || |body.chunks| < |old(body.chunks)|
              || (body.chunks == old(body.chunks) &&
                  (|parser.buf| < |old(parser.buf)| || (parser.buf == old(parser.buf) && |pending| < |queue|)))
  {
    pending := queue;
    ghost var all := Remaining(queue, parser.buf, body.chunks, body.ending);
    while pending == []
      invariant FrameEnd(parser.buf).None?
      invariant Remaining(pending, parser.buf, body.chunks, body.ending) == all
      invariant || (pending == queue && parser.buf == old(parser.buf) && body.chunks == old(body.chunks))
                || |body.chunks| < |old(body.chunks)|
                || (body.chunks == old(body.chunks) && |parser.buf| < |old(parser.buf)|)
      decreases |body.chunks|, if pending == [] then 1 else 0
    {
      ghost var buf := parser.buf;
      var next;
      next, pending := ReadMore(body, parser);
      if pending == [] && !next.Arrived? {
        RemainingAtEnd([], buf, body.ending);
        return BodyOver, [];
      }
    }
    fetched := Got(pending[0]);
    ghost var before := pending;
    pending := pending[1..];
    Assoc([before[0]], pending, BodyFrames(parser.buf + Concat(body.chunks), body.ending));
    assert before == [before[0]] + pending;
  }

  /** Handles one frame; `phase` says whether and how the stream is over. */
  method Deliver(codec: Codec, kind: ProviderKind, client: Client, frame: SseFrame, firstChunk: bool, usage: Usage)
    returns (first: bool, counts: Usage, phase: Phase)
    modifies client
    ensures PumpState(client.received, first, counts, phase)
         == Handle(codec, kind, client.life, PumpState(old(client.received), firstChunk, usage, Reading), frame)
  {
    first, counts, phase := firstChunk, usage, Reading;
    match Classify(codec.parse, frame.data) {
      case Done =>
        var _ := client.Send(DoneMark);
        phase := Ended;
      case Error(code, message, raw) =>
        var _ := client.Send(ErrorPayload(raw));
        phase := Failed(Some(AsI32(code.UnwrapOr(502))), InBandMessage(message));
      case Other(raw, json) =>
        if json.Some? {
          counts := counts.Or(FrameUsage(kind, json.value));
        }
        match kind {
          case OpenAI | Custom =>
            var ok := client.Send(Passthrough(raw));
            if !ok {
              return first, counts, Disconnected;
            }
            first := false;
          case OpenAIResponses =>
          case Anthropic | Google =>
            var ev := codec.decode(kind, raw);
            if ev.Some? {
              var chunk := RenderOpenAiChunk(ev.value, firstChunk);
              if chunk.Some? {
                var ok := client.Send(Translated(chunk.value));
                if !ok {
                  return first, counts, Disconnected;
                }
                first := false;
              }
              if ev.value.done {
                var _ := client.Send(DoneMark);
                phase := Ended;
              }
            }
        }
    }
  }

  function FailedRow(f: Failure): UsageRow {
    UsageRow(f.entry.id, false, f.status, Some(f.message), None, None, None)
  }

  /** Logs one failed streaming attempt and acts on its entry at once; no cooldown is set. */
  method FailStreamAttempt(codec: Codec, store: Store, f: Failure)
    modifies store
    ensures store.usage == old(store.usage) + [FailedRow(f)]
    ensures store.entries == Applied(codec.imageRejection, old(store.entries), f)
  {
    store.RecordUsage(FailedRow(f));
    var _ := ApplyFailureAction(codec.imageRejection, store, f);
  }

  /**
   * Streams a committed body to the client, starting from the probe's half-read state. What the client receives, what
   * is logged and what happens to the entry are those of one fold over the frames that were still to come.
   */
  method PumpStream(codec: Codec, target: Target, body: Body, parser: SseParser, queue: seq<SseFrame>,
                    client: Client, store: Store)
    requires FrameEnd(parser.buf).None?
    requires client.received == []
    modifies body, parser, client, store
    ensures var run := Pumped(codec, target.provider.kind, client.life,
                              old(Remaining(queue, parser.buf, body.chunks, body.ending)), body.ending);
            && client.received == run.sent
            && store.usage == old(store.usage) + RowOf(target.entry.id, run)
            && store.entries == AppliedAll(codec.imageRejection, old(store.entries), FailuresOf(target.entry, run))
  {
    var kind, life := target.provider.kind, client.life;
    var pending, usage, firstChunk, phase := queue, NO_USAGE, true, Reading;
    ghost var all := Remaining(queue, parser.buf, body.chunks, body.ending);
    ghost var rest := all;
    while phase.Reading?
      invariant FrameEnd(parser.buf).None?
      invariant store.usage == old(store.usage) && store.entries == old(store.entries)
      invariant phase.Reading? ==> rest == Remaining(pending, parser.buf, body.chunks, body.ending)
      invariant var st := PumpState(client.received, firstChunk, usage, phase);
                Pumped(codec, kind, life, all, body.ending)
                    == Close(life, HandleAll(codec, kind, life, st, rest), body.ending)
      decreases phase.Reading?, |body.chunks|, |parser.buf|, |pending|
    {
      ghost var st := PumpState(client.received, firstChunk, usage, phase);
      var fetched;
      fetched, pending := NextFrame(body, parser, pending);
      match fetched
      case Got(frame) =>
        rest := Remaining(pending, parser.buf, body.chunks, body.ending);
        HandleAllCons(codec, kind, life, st, frame, rest);
        firstChunk, usage, phase := Deliver(codec, kind, client, frame, firstChunk, usage);
      case BodyOver =>
        match body.ending {
          case End =>
            phase := Ended;
          case Idle(window) =>
            phase := Failed(Some(504), "stream idle timeout after " + window);
          case Transport(error) =>
            var _ := client.Send(Fault("stream error: " + error));
            phase := Failed(None, "stream error: " + error);
        }
    }
    match phase
    case Failed(status, message) =>
      FailStreamAttempt(codec, store, Failure(target.entry, status, message, None));
      AppliedOne(codec.imageRejection, old(store.entries), Failure(target.entry, status, message, None));
    case Ended =>
      store.RecordUsage(UsageRow(target.entry.id, true, Some(200), None, Logged(usage.prompt), Logged(usage.completion),
                                 Logged(usage.cached)));
    case Disconnected =>
  }

  lemma HandleAllCons(codec: Codec, kind: ProviderKind, life: Lifetime, st: PumpState, frame: SseFrame,
                      rest: seq<SseFrame>)
    requires st.phase.Reading?
    ensures HandleAll(codec, kind, life, st, [frame] + rest)
         == HandleAll(codec, kind, life, Handle(codec, kind, life, st, frame), rest)
  {
    assert ([frame] + rest)[1..] == rest;
  }

  lemma AppliedOne(imageRejection: string -> bool, es: Entries, f: Failure)
    ensures AppliedAll(imageRejection, es, [f]) == Applied(imageRejection, es, f)
  {
    var none: seq<Failure> := [f][..0];
    assert none == [];
  }

  // ---------------------------------------------------------------- the attempt loop

  /** What an upstream does when it is tried. */
  datatype Upstream =
    | Untranslatable
    | ResponsesAnswer(prompt: Option<int>, completion: Option<int>, cached: Option<int>)
    | ResponsesError(status: Option<int>, message: string)
    | Rejected(code: int, message: string)
    | Unreachable(error: string)
    | NoHeaders
    | Accepted(chunks: seq<Bytes>, ending: Ending)

  datatype Trial = Skipped | Refused(status: Option<int>, message: string) | AnsweredWhole | Committed

  /** What trying an upstream comes to. */
  function Tried(codec: Codec, u: Upstream): (t: Trial)
    ensures t.AnsweredWhole? ==> u.ResponsesAnswer?
    ensures t.Committed? ==> u.Accepted?
  {
    match u
    case Untranslatable => Skipped
    case ResponsesAnswer(_, _, _) => AnsweredWhole
    case ResponsesError(status, message) => Refused(status, message)
    case Rejected(code, message) => Refused(Some(code), message)
    case Unreachable(error) => Refused(None, "upstream failed: " + error)
    case NoHeaders => Refused(None, "upstream timeout")
    case Accepted(chunks, ending) => TrialOf(Probed(codec.parse, [], chunks, ending))
  }

  function TrialOf(verdict: Verdict): Trial {
    match verdict
    case Commit => Committed
    case InBandError(code, message) => Refused(Some(AsI32(code.UnwrapOr(502))), InBandMessage(message))
    case NoContent(message) => Refused(None, message)
    case Timeout => Refused(Some(504), "upstream stalled before sending any stream data")
    case TransportError(error) => Refused(None, "stream error: " + error)
  }

  predicate Works(codec: Codec, u: Upstream) {
    Tried(codec, u).AnsweredWhole? || Tried(codec, u).Committed?
  }

  /** The pump run of a committed body, as a fold over the frames of its whole byte string. */
  function RunOf(codec: Codec, target: Target, life: Lifetime, u: Upstream): PumpState
    requires u.Accepted?
  {
    Pumped(codec, target.provider.kind, life, BodyFrames(Concat(u.chunks), u.ending), u.ending)
  }

  /** What trying an upstream adds to the usage log. */
  function RowsOf(codec: Codec, target: Target, life: Lifetime, u: Upstream): seq<UsageRow> {
    match Tried(codec, u)
    case Skipped => []
    case Refused(status, message) => [FailedRow(Failure(target.entry, status, message, None))]
    case AnsweredWhole => [UsageRow(target.entry.id, true, Some(200), None, u.prompt, u.completion, u.cached)]
    case Committed => RowOf(target.entry.id, RunOf(codec, target, life, u))
  }

  /** The failures trying an upstream reports against its entry. */
  function FailuresIn(codec: Codec, target: Target, life: Lifetime, u: Upstream): seq<Failure> {
    match Tried(codec, u)
    case Refused(status, message) => [Failure(target.entry, status, message, None)]
    case Committed => FailuresOf(target.entry, RunOf(codec, target, life, u))
    case _ => []
  }

  /** What the client of a stream receives when an upstream is tried: nothing before the stream is committed. */
  function SentBy(codec: Codec, target: Target, life: Lifetime, u: Upstream): seq<Item> {
    if Tried(codec, u).Committed? then RunOf(codec, target, life, u).sent else []
  }

  method TryUpstream(codec: Codec, store: Store, client: Client, target: Target, u: Upstream) returns (trial: Trial)
    requires client.received == []
    modifies store, client
    ensures trial == Tried(codec, u)
    ensures client.received == SentBy(codec, target, client.life, u)
    ensures store.usage == old(store.usage) + RowsOf(codec, target, client.life, u)
    ensures store.entries
         == AppliedAll(codec.imageRejection, old(store.entries), FailuresIn(codec, target, client.life, u))
  {
    hide Probed, Pumped, BodyFrames, Applied;
    match u {
      case ResponsesAnswer(prompt, completion, cached) =>
        store.RecordUsage(UsageRow(target.entry.id, true, Some(200), None, prompt, completion, cached));
        return AnsweredWhole;
      case Accepted(chunks, ending) =>
        var body := new Body(chunks, ending);
        var verdict, parser, pending := ProbeStream(codec.parse, body);
        trial := TrialOf(verdict);
        if verdict == Commit {
          WholeBody(chunks, ending);
          PumpStream(codec, target, body, parser, pending, client, store);
          return;
        }
      case _ =>
        trial := Tried(codec, u);
    }
    if trial.Refused? {
      var f := Failure(target.entry, trial.status, trial.message, None);
      FailStreamAttempt(codec, store, f);
      AppliedOne(codec.imageRejection, old(store.entries), f);
    }
  }

  lemma WholeBody(chunks: seq<Bytes>, ending: Ending)
    ensures Remaining([], [], chunks, ending) == BodyFrames(Concat(chunks), ending)
  {
    var empty: Bytes := [];
    assert empty + Concat(chunks) == Concat(chunks);
  }

  /** The log rows and failures of the first `n` upstreams tried. */
  function RowsUpTo(codec: Codec, targets: seq<Target>, life: Lifetime, ups: seq<Upstream>, n: nat): seq<UsageRow>
    requires n <= |targets| == |ups|
  {
    if n == 0 then []
    else RowsUpTo(codec, targets, life, ups, n - 1) + RowsOf(codec, targets[n - 1], life, ups[n - 1])
  }

  function FailuresUpTo(codec: Codec, targets: seq<Target>, life: Lifetime, ups: seq<Upstream>, n: nat): seq<Failure>
    requires n <= |targets| == |ups|
  {
    if n == 0 then []
    else FailuresUpTo(codec, targets, life, ups, n - 1) + FailuresIn(codec, targets[n - 1], life, ups[n - 1])
  }

  lemma {:induction false} AppliedAllAppend(imageRejection: string -> bool, es: Entries, a: seq<Failure>,
                                            b: seq<Failure>)
    ensures AppliedAll(imageRejection, es, a + b) == AppliedAll(imageRejection, AppliedAll(imageRejection, es, a), b)
  {
    if b == [] {
      assert a + b == a;
    } else {
      AppliedAllAppend(imageRejection, es, a, b[..|b| - 1]);
      assert (a + b)[..|a + b| - 1] == a + b[..|b| - 1];
    }
  }

  datatype Served = NoTargets | Whole(k: nat) | Stream(k: nat) | BadGateway

  /** How many upstreams are tried: up to and including the first that works. */
  ghost predicate TriedCount(codec: Codec, ups: seq<Upstream>, n: nat) {
    && n <= |ups|
    && (forall j | 0 <= j < n - 1 :: !Works(codec, ups[j]))
    && (if n > 0 && Works(codec, ups[n - 1]) then true
        else n == |ups| && forall j | 0 <= j < n :: !Works(codec, ups[j]))
  }

  /** The usage log and the entries hold what the first `n` upstreams tried add to the ones given. */
  ghost predicate Accounted(codec: Codec, targets: seq<Target>, life: Lifetime, ups: seq<Upstream>, n: nat,
                            store: Store, usage: seq<UsageRow>, entries: Entries)
    requires n <= |targets| == |ups|
    reads store
  {
    && store.usage == usage + RowsUpTo(codec, targets, life, ups, n)
    && store.entries == AppliedAll(codec.imageRejection, entries, FailuresUpTo(codec, targets, life, ups, n))
  }

  /** Tries target `i` after the ones before it. */
  method TryNext(codec: Codec, store: Store, client: Client, targets: seq<Target>, ups: seq<Upstream>, i: nat,
                 ghost usage: seq<UsageRow>, ghost entries: Entries) returns (trial: Trial)
    requires i < |targets| == |ups|
    requires client.received == []
    requires Accounted(codec, targets, client.life, ups, i, store, usage, entries)
    modifies store, client
    ensures trial == Tried(codec, ups[i])
    ensures client.received == SentBy(codec, targets[i], client.life, ups[i])
    ensures Works(codec, ups[i]) <==> trial.AnsweredWhole? || trial.Committed?
    ensures !Works(codec, ups[i]) ==> client.received == []
    ensures Accounted(codec, targets, client.life, ups, i + 1, store, usage, entries)
  {
    trial := TryUpstream(codec, store, client, targets[i], ups[i]);
    UpToStep(codec, targets, client.life, ups, i, entries, usage);
  }

  /**
   * Tries the targets in order, up to the first upstream that works. Every failure is logged and acted on as it
   * happens and shows the client nothing; the client sees the fold over the working body's whole byte string,
   * or a 502 and not a single byte of any stream.
   */
  method HandleStreaming(codec: Codec, store: Store, client: Client, targets: seq<Target>, ups: seq<Upstream>)
    returns (served: Served, ghost n: nat)
    requires |targets| == |ups|
    requires client.received == []
    modifies store, client
    ensures TriedCount(codec, ups, n)
    ensures Accounted(codec, targets, client.life, ups, n, store, old(store.usage), old(store.entries))
    ensures if n > 0 && Works(codec, ups[n - 1])
            then && client.received == SentBy(codec, targets[n - 1], client.life, ups[n - 1])
                 && served == (if Tried(codec, ups[n - 1]).Committed? then Stream(n - 1) else Whole(n - 1))
            else client.received == [] && served == if targets == [] then NoTargets else BadGateway
  {
    hide Tried, AppliedAll, RowsUpTo, FailuresUpTo, SentBy;
    n := 0;
    NothingTried(codec, targets, client.life, ups, store);
    if targets == [] {
      return NoTargets, 0;
    }
    ghost var usage, entries := store.usage, store.entries;
    for i := 0 to |targets|
      invariant n == i
      invariant client.received == []
      invariant forall j | 0 <= j < i :: !Works(codec, ups[j])
      invariant Accounted(codec, targets, client.life, ups, i, store, usage, entries)
    {
      var trial := TryNext(codec, store, client, targets, ups, i, usage, entries);
      n := i + 1;
      if trial.AnsweredWhole? {
        FirstWorks(codec, ups, i);
        return Whole(i), n;
      }
      if trial.Committed? {
        FirstWorks(codec, ups, i);
        return Stream(i), n;
      }
    }
    NoneWorks(codec, ups);
    return BadGateway, n;
  }

  lemma FirstWorks(codec: Codec, ups: seq<Upstream>, i: nat)
    requires i < |ups| && Works(codec, ups[i]) && forall j | 0 <= j < i :: !Works(codec, ups[j])
    ensures TriedCount(codec, ups, i + 1)
  {
  }

  lemma NoneWorks(codec: Codec, ups: seq<Upstream>)
    requires ups != [] && forall j | 0 <= j < |ups| :: !Works(codec, ups[j])
    ensures TriedCount(codec, ups, |ups|) && !Works(codec, ups[|ups| - 1])
  {
  }

  lemma NothingTried(codec: Codec, targets: seq<Target>, life: Lifetime, ups: seq<Upstream>, store: Store)
    requires |targets| == |ups|
    ensures Accounted(codec, targets, life, ups, 0, store, store.usage, store.entries)
  {
    var none := RowsUpTo(codec, targets, life, ups, 0);
    assert none == [] && store.usage + none == store.usage;
  }

  lemma UpToStep(codec: Codec, targets: seq<Target>, life: Lifetime, ups: seq<Upstream>, i: nat,
                 entries: Entries, usage: seq<UsageRow>)
    requires i < |targets| == |ups|
    ensures usage + RowsUpTo(codec, targets, life, ups, i) + RowsOf(codec, targets[i], life, ups[i])
         == usage + RowsUpTo(codec, targets, life, ups, i + 1)
    ensures AppliedAll(codec.imageRejection,
                       AppliedAll(codec.imageRejection, entries, FailuresUpTo(codec, targets, life, ups, i)),
                       FailuresIn(codec, targets[i], life, ups[i]))
         == AppliedAll(codec.imageRejection, entries, FailuresUpTo(codec, targets, life, ups, i + 1))
    ensures !Tried(codec, ups[i]).Committed? ==> SentBy(codec, targets[i], life, ups[i]) == []
  {
    Assoc(usage, RowsUpTo(codec, targets, life, ups, i), RowsOf(codec, targets[i], life, ups[i]));
    AppliedAllAppend(codec.imageRejection, entries, FailuresUpTo(codec, targets, life, ups, i),
                     FailuresIn(codec, targets[i], life, ups[i]));
  }

  // ---------------------------------------------------------------- chunking is invisible

  /** The one case in which the network's cuts show: the body opens with the sentinel. */
  predicate OpensWithDone(codec: Codec, bytes: Bytes, ending: Ending) {
    var frames := BodyFrames(bytes, ending);
    frames != [] && Classify(codec.parse, frames[0].data).Done?
  }

  /** Two cuts of the same body that the probe cannot tell apart. */
  predicate CutAlike(codec: Codec, a: seq<Bytes>, b: seq<Bytes>, ending: Ending) {
    OpensWithDone(codec, Concat(a), ending) ==> (StandsAlone([], a) <==> StandsAlone([], b))
  }

  /**
   * Two cuts of the same bytes come to the same if and only if, in case the body opens with the sentinel, both or
   * neither leave it standing alone. Then the client of the same target receives the same, and so do the usage log and
   * the entry.
   */
  lemma ChunkingInvisible(codec: Codec, target: Target, life: Lifetime, a: seq<Bytes>, b: seq<Bytes>, ending: Ending)
    requires Concat(a) == Concat(b)
    ensures Tried(codec, Accepted(a, ending)) == Tried(codec, Accepted(b, ending)) <==> CutAlike(codec, a, b, ending)
    ensures CutAlike(codec, a, b, ending) ==>
              && SentBy(codec, target, life, Accepted(a, ending)) == SentBy(codec, target, life, Accepted(b, ending))
              && RowsOf(codec, target, life, Accepted(a, ending)) == RowsOf(codec, target, life, Accepted(b, ending))
              && FailuresIn(codec, target, life, Accepted(a, ending))
                 == FailuresIn(codec, target, life, Accepted(b, ending))
  {
    hide Tried, OpensWithDone, StandsAlone, SentBy, RowsOf, FailuresIn;
    if OpensWithDone(codec, Concat(a), ending) {
      LeadingDone(codec, a, ending);
      LeadingDone(codec, b, ending);
    } else {
      TrialOfWhole(codec, a, ending);
      TrialOfWhole(codec, b, ending);
    }
    if CutAlike(codec, a, b, ending) {
      SameTrialSameEffect(codec, target, life, Accepted(a, ending), Accepted(b, ending));
    }
  }

  /** The same upstream, but for the cuts of its body. */
  predicate SameButForCuts(codec: Codec, u: Upstream, w: Upstream) {
    if u.Accepted? && w.Accepted?
    then Concat(u.chunks) == Concat(w.chunks) && u.ending == w.ending && CutAlike(codec, u.chunks, w.chunks, u.ending)
    else u == w
  }

  lemma SameOutcome(codec: Codec, target: Target, life: Lifetime, u: Upstream, w: Upstream)
    requires SameButForCuts(codec, u, w)
    ensures Tried(codec, u) == Tried(codec, w) && (Works(codec, u) <==> Works(codec, w))
    ensures SentBy(codec, target, life, u) == SentBy(codec, target, life, w)
    ensures RowsOf(codec, target, life, u) == RowsOf(codec, target, life, w)
    ensures FailuresIn(codec, target, life, u) == FailuresIn(codec, target, life, w)
  {
    hide Tried, CutAlike, SentBy, RowsOf, FailuresIn;
    if u.Accepted? && w.Accepted? {
      ChunkingInvisible(codec, target, life, u.chunks, w.chunks, u.ending);
    }
  }

  /** How many upstreams are tried is determined by the upstreams. */
  lemma TriedCountUnique(codec: Codec, ups: seq<Upstream>, m: nat, n: nat)
    requires TriedCount(codec, ups, m) && TriedCount(codec, ups, n)
    ensures m == n
  {
    hide Works;
  }

  /**
   * The whole attempt loop cannot tell lists of upstreams apart that differ only in the cuts of their bodies: the same
   * number of upstreams is tried, the client receives the same, and the usage log and all entries end up the same.
   */
  lemma {:induction false} LoopChunkingInvisible(codec: Codec, targets: seq<Target>, life: Lifetime, ups: seq<Upstream>,
                                                 others: seq<Upstream>, n: nat)
    requires n <= |targets| == |ups| == |others|
    requires forall i | 0 <= i < |ups| :: SameButForCuts(codec, ups[i], others[i])
    ensures TriedCount(codec, ups, n) <==> TriedCount(codec, others, n)
    ensures RowsUpTo(codec, targets, life, ups, n) == RowsUpTo(codec, targets, life, others, n)
    ensures FailuresUpTo(codec, targets, life, ups, n) == FailuresUpTo(codec, targets, life, others, n)
    ensures n > 0 ==> && Tried(codec, ups[n - 1]) == Tried(codec, others[n - 1])
                      && SentBy(codec, targets[n - 1], life, ups[n - 1])
                          == SentBy(codec, targets[n - 1], life, others[n - 1])
  {
    hide SameButForCuts, Works, Tried, SentBy, RowsOf, FailuresIn;
    forall i | 0 <= i < |ups|
      ensures Works(codec, ups[i]) <==> Works(codec, others[i])
    {
      SameOutcome(codec, targets[i], life, ups[i], others[i]);
    }
    if n > 0 {
      LoopChunkingInvisible(codec, targets, life, ups, others, n - 1);
      SameOutcome(codec, targets[n - 1], life, ups[n - 1], others[n - 1]);
    }
  }

  /** What an attempt comes to is read off the frames of the whole body. */
  lemma TrialOfWhole(codec: Codec, chunks: seq<Bytes>, ending: Ending)
    requires !OpensWithDone(codec, Concat(chunks), ending)
    ensures Tried(codec, Accepted(chunks, ending))
         == TrialOf(WholeVerdict(codec.parse, BodyFrames(Concat(chunks), ending), ending))
  {
    hide TrialOf, Probed, WholeVerdict, Classify, AllFrames, Sse.Frames, StandsAlone;
    ProbeVerdict(codec.parse, [], chunks, ending);
    WholeBody(chunks, ending);
  }

  lemma SameTrialSameEffect(codec: Codec, target: Target, life: Lifetime, u: Upstream, w: Upstream)
    requires u.Accepted? && w.Accepted? && Concat(u.chunks) == Concat(w.chunks) && u.ending == w.ending
    requires Tried(codec, u) == Tried(codec, w)
    ensures SentBy(codec, target, life, u) == SentBy(codec, target, life, w)
    ensures RowsOf(codec, target, life, u) == RowsOf(codec, target, life, w)
    ensures FailuresIn(codec, target, life, u) == FailuresIn(codec, target, life, w)
  {
    hide Probed, Pumped, RowOf, Pump.FailuresOf, BodyFrames;
  }

  /** A body that opens with the sentinel is refused exactly when a cut leaves the sentinel standing alone. */
  lemma LeadingDone(codec: Codec, chunks: seq<Bytes>, ending: Ending)
    requires OpensWithDone(codec, Concat(chunks), ending)
    ensures Tried(codec, Accepted(chunks, ending))
         == if StandsAlone([], chunks) then Refused(None, ONLY_DONE) else Committed
  {
    ProbeVerdict(codec.parse, [], chunks, ending);
    WholeBody(chunks, ending);
  }

  /**
   * End to end for an OpenAI upstream and a client that stays: once the attempt is committed, the client's bytes are
   * the payloads of the body's frames up to and including the first sentinel or error, each trimmed and framed anew.
   */
  lemma OpenAiEndToEnd(codec: Codec, target: Target, chunks: seq<Bytes>, ending: Ending)
    requires target.provider.kind.OpenAI? || target.provider.kind.Custom?
    requires Tried(codec, Accepted(chunks, ending)).Committed?
    ensures ItemBytes(SentBy(codec, target, Forever, Accepted(chunks, ending)))
         == Reframed(UpToStop(codec, target.provider.kind, BodyFrames(Concat(chunks), ending)))
  {
    var kind, frames := target.provider.kind, BodyFrames(Concat(chunks), ending);
    PassthroughBytes(codec, kind, START, frames);
    CloseAddsNoBytes(HandleAll(codec, kind, Forever, START, frames), ending);
    assert [] + Reframed(UpToStop(codec, kind, frames)) == Reframed(UpToStop(codec, kind, frames));
  }

  /**
   * Likewise for an Anthropic or Google upstream: the client's chunks say what the body's frames say, up to and
   * including the frame that ends the stream.
   */
  lemma TranslatedEndToEnd(codec: Codec, target: Target, chunks: seq<Bytes>, ending: Ending)
    requires Translating(target.provider.kind)
    requires Tried(codec, Accepted(chunks, ending)).Committed?
    ensures Spoken(SentBy(codec, target, Forever, Accepted(chunks, ending)))
         == Said(codec, target.provider.kind, UpToStop(codec, target.provider.kind, BodyFrames(Concat(chunks), ending)))
  {
    hide Tried, HandleAll, UpToStop, BodyFrames;
    var kind, frames := target.provider.kind, BodyFrames(Concat(chunks), ending);
    TranslationSaysAll(codec, kind, START, frames);
    CloseSaysNothing(HandleAll(codec, kind, Forever, START, frames), ending);
    ThenSilence(Said(codec, kind, UpToStop(codec, kind, frames)));
  }

  lemma CloseSaysNothing(st: PumpState, ending: Ending)
    ensures Spoken(Close(Forever, st, ending).sent) == Spoken(st.sent)
  {
    if st.phase.Reading? && ending.Transport? {
      SpokenSnoc(st.sent, Fault("stream error: " + ending.error));
      ThenSilence(Spoken(st.sent));
    }
  }

  /** The end of a body adds no frame bytes to what was sent. */
  lemma CloseAddsNoBytes(st: PumpState, ending: Ending)
    ensures ItemBytes(Close(Forever, st, ending).sent) == ItemBytes(st.sent)
  {
    if st.phase.Reading? && ending.Transport? {
      var fault := Fault("stream error: " + ending.error);
      assert (st.sent + [fault])[..|st.sent + [fault]| - 1] == st.sent;
      assert ItemBytes(st.sent) + [] == ItemBytes(st.sent);
    }
  }
}
