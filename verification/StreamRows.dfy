/**
 * What a run over a stream logs and how it ends, read off its frames (src/server/handlers.rs and `frame_usage` in
 * src/server/sse.rs).
 */
module StreamRows {
  import opened Base
  import opened Domain
  import opened Health
  import opened Pump
  import opened Sse
  import opened Translator
  import Json

  // ---------------------------------------------------------------- counts

  /** The value at a path of member names. */
  function AtPath(v: Json.Value, path: seq<string>): Option<Json.Value>
    decreases |path|
  {
    if path == [] then Some(v)
    else match v.Get(path[0])
         case Some(w) => AtPath(w, path[1..])
         case None => None
  }

  /** An integer as an unsigned 64-bit count: a negative one counts as none. */
  function CountOf(v: Option<Json.Value>): Option<nat> {
    match v
    case Some(Num(n)) =>
      if 0 <= n < 0x1_0000_0000_0000_0000 then Some(n)
      else if -0x8000_0000_0000_0000 <= n < 0 then Some(0)
      else None
    case _ => None
  }

  /** Where a provider reports its prompt, completion and cached counts: a type of frame, if any, and a path. */
  datatype Place = Place(tag: Option<string>, path: seq<string>)

  function PromptPlace(kind: ProviderKind): Option<Place> {
    match kind
    case OpenAI | Custom => Some(Place(None, ["usage", "prompt_tokens"]))
    case Anthropic => Some(Place(Some("message_start"), ["message", "usage", "input_tokens"]))
    case Google => Some(Place(None, ["usageMetadata", "promptTokenCount"]))
    case OpenAIResponses => None
  }

  function CompletionPlace(kind: ProviderKind): Option<Place> {
    match kind
    case OpenAI | Custom => Some(Place(None, ["usage", "completion_tokens"]))
    case Anthropic => Some(Place(Some("message_delta"), ["usage", "output_tokens"]))
    case Google => Some(Place(None, ["usageMetadata", "candidatesTokenCount"]))
    case OpenAIResponses => None
  }

  function CachedPlace(kind: ProviderKind): Option<Place> {
    match kind
    case OpenAI | Custom => Some(Place(None, ["usage", "prompt_tokens_details", "cached_tokens"]))
    case Anthropic => Some(Place(Some("message_start"), ["message", "usage", "cache_read_input_tokens"]))
    case Google => Some(Place(None, ["usageMetadata", "cachedContentTokenCount"]))
    case OpenAIResponses => None
  }

  /** The count a payload reports at a place. */
  function ReportIn(place: Option<Place>, json: Json.Value): Option<nat> {
    match place
    case None => None
    case Some(Place(tag, path)) =>
      if tag.Some? && json.Get("type") != Some(Json.Str(tag.value)) then None else CountOf(AtPath(json, path))
  }

  /** The count a frame reports at a place. */
  function Reports(codec: Codec, place: Option<Place>, frame: SseFrame): Option<nat> {
    match Classify(codec.parse, frame.data)
    case Other(_, Some(json)) => ReportIn(place, json)
    case _ => None
  }

  lemma PathOne(v: Json.Value, a: string)
    ensures AtPath(v, [a]) == v.Get(a)
  {
    var none: seq<string> := [a][1..];
    assert none == [];
  }

  lemma PathTwo(v: Json.Value, a: string, b: string)
    ensures AtPath(v, [a, b]) == Json.Field(v.Get(a), b)
  {
    assert [a, b][1..] == [b];
    if v.Get(a).Some? {
      PathOne(v.Get(a).value, b);
    }
  }

  lemma PathThree(v: Json.Value, a: string, b: string, c: string)
    ensures AtPath(v, [a, b, c]) == Json.Field(Json.Field(v.Get(a), b), c)
  {
    assert [a, b, c][1..] == [b, c];
    if v.Get(a).Some? {
      PathTwo(v.Get(a).value, b, c);
    }
  }

  lemma CountIs(v: Option<Json.Value>)
    ensures Count(v) == CountOf(v)
  {
  }

  lemma OpenAiReports(json: Json.Value)
    ensures FrameUsage(OpenAI, json) == FrameUsage(Custom, json)
         == Usage(ReportIn(PromptPlace(OpenAI), json), ReportIn(CompletionPlace(OpenAI), json),
                  ReportIn(CachedPlace(OpenAI), json))
  {
    hide AtPath, CountOf, Count;
    var usage := json.Get("usage");
    PathTwo(json, "usage", "prompt_tokens");
    PathTwo(json, "usage", "completion_tokens");
    PathThree(json, "usage", "prompt_tokens_details", "cached_tokens");
    CountIs(Json.Field(usage, "prompt_tokens"));
    CountIs(Json.Field(usage, "completion_tokens"));
    CountIs(Json.Field(Json.Field(usage, "prompt_tokens_details"), "cached_tokens"));
  }

  lemma AnthropicReports(json: Json.Value)
    ensures FrameUsage(Anthropic, json)
         == Usage(ReportIn(PromptPlace(Anthropic), json), ReportIn(CompletionPlace(Anthropic), json),
                  ReportIn(CachedPlace(Anthropic), json))
  {
    hide AtPath, CountOf, Count;
    var usage := Json.Field(json.Get("message"), "usage");
    PathThree(json, "message", "usage", "input_tokens");
    PathThree(json, "message", "usage", "cache_read_input_tokens");
    PathTwo(json, "usage", "output_tokens");
    CountIs(Json.Field(usage, "input_tokens"));
    CountIs(Json.Field(usage, "cache_read_input_tokens"));
    CountIs(Json.Field(json.Get("usage"), "output_tokens"));
    TagIs(json, "message_start");
    TagIs(json, "message_delta");
    assert "message_start"[8] != "message_delta"[8];
  }

  lemma TagIs(json: Json.Value, tag: string)
    ensures Json.StrOf(json.Get("type")) == Some(tag) <==> json.Get("type") == Some(Json.Str(tag))
  {
  }

  lemma GoogleReports(json: Json.Value)
    ensures FrameUsage(Google, json)
         == Usage(ReportIn(PromptPlace(Google), json), ReportIn(CompletionPlace(Google), json),
                  ReportIn(CachedPlace(Google), json))
  {
    hide AtPath, CountOf, Count;
    var usage := json.Get("usageMetadata");
    PathTwo(json, "usageMetadata", "promptTokenCount");
    PathTwo(json, "usageMetadata", "candidatesTokenCount");
    PathTwo(json, "usageMetadata", "cachedContentTokenCount");
    CountIs(Json.Field(usage, "promptTokenCount"));
    CountIs(Json.Field(usage, "candidatesTokenCount"));
    CountIs(Json.Field(usage, "cachedContentTokenCount"));
  }

  lemma FrameReports(codec: Codec, kind: ProviderKind, frame: SseFrame)
    ensures UsageIn(codec, kind, frame)
         == Usage(Reports(codec, PromptPlace(kind), frame), Reports(codec, CompletionPlace(kind), frame),
                  Reports(codec, CachedPlace(kind), frame))
  {
    match Classify(codec.parse, frame.data)
    case Other(_, Some(json)) =>
      hide FrameUsage, ReportIn;
      OpenAiReports(json);
      AnthropicReports(json);
      GoogleReports(json);
      NoPlace(json);
    case _ =>
  }

  lemma NoPlace(json: Json.Value)
    ensures FrameUsage(OpenAIResponses, json) == NO_USAGE && ReportIn(None, json) == None
  {
  }

  /** `count` is the first that any of the frames reports at a place, or none if none does. */
  predicate FirstReport(codec: Codec, place: Option<Place>, frames: seq<SseFrame>, count: Option<nat>) {
    match count
    case None => forall i | 0 <= i < |frames| :: Reports(codec, place, frames[i]) == None
    case Some(_) => exists i | 0 <= i < |frames| ::
                      && Reports(codec, place, frames[i]) == count
                      && forall j | 0 <= j < i :: Reports(codec, place, frames[j]) == None
  }

  lemma FirstReportCons(codec: Codec, place: Option<Place>, frame: SseFrame, more: seq<SseFrame>, later: Option<nat>)
    requires FirstReport(codec, place, more, later)
    ensures FirstReport(codec, place, [frame] + more, Reports(codec, place, frame).Or(later))
  {
    hide Reports;
    var all := [frame] + more;
    if Reports(codec, place, frame).Some? {
      assert Reports(codec, place, all[0]).Some?;
    } else if later.Some? {
      var i :| 0 <= i < |more| && Reports(codec, place, more[i]) == later
               && forall j | 0 <= j < i :: Reports(codec, place, more[j]) == None;
      assert Reports(codec, place, all[i + 1]) == later;
      forall j | 0 <= j < i + 1
        ensures Reports(codec, place, all[j]) == None
      {
        assert j > 0 ==> all[j] == more[j - 1];
      }
    } else {
      forall i | 0 <= i < |all|
        ensures Reports(codec, place, all[i]) == None
      {
        assert i > 0 ==> all[i] == more[i - 1];
      }
    }
  }

  /** For each count, the first frame that reports it at the provider's own place decides. */
  lemma {:induction false} FirstReports(codec: Codec, kind: ProviderKind, frames: seq<SseFrame>)
    ensures var counts := FirstUsage(codec, kind, frames);
            && FirstReport(codec, PromptPlace(kind), frames, counts.prompt)
            && FirstReport(codec, CompletionPlace(kind), frames, counts.completion)
            && FirstReport(codec, CachedPlace(kind), frames, counts.cached)
  {
    hide Reports, UsageIn, FirstReport;
    if frames == [] {
      NoReports(codec, PromptPlace(kind));
      NoReports(codec, CompletionPlace(kind));
      NoReports(codec, CachedPlace(kind));
    } else {
      var frame, more := frames[0], frames[1..];
      var later := FirstUsage(codec, kind, more);
      assert frames == [frame] + more;
      FirstReports(codec, kind, more);
      FrameReports(codec, kind, frame);
      FirstReportCons(codec, PromptPlace(kind), frame, more, later.prompt);
      FirstReportCons(codec, CompletionPlace(kind), frame, more, later.completion);
      FirstReportCons(codec, CachedPlace(kind), frame, more, later.cached);
    }
  }

  lemma NoReports(codec: Codec, place: Option<Place>)
    ensures FirstReport(codec, place, [], None)
  {
  }

  // ---------------------------------------------------------------- ends

  /**
   * A run that a frame stops, for a connected client: after an error the last item is its payload, and one failed row
   * and one failure have its code and message; else the last item is the sentinel and no failure is reported.
   */
  lemma RunStopped(codec: Codec, kind: ProviderKind, entry: RouteEntry, frames: seq<SseFrame>, ending: Ending)
    requires Stopped(codec, kind, frames)
    ensures var end, taken := Pumped(codec, kind, Forever, frames, ending), UpToStop(codec, kind, frames);
            && end.sent != []
            && match Classify(codec.parse, taken[|taken| - 1].data)
               case Error(code, message, raw) =>
                 var status := Some(AsI32(if code.Some? then code.value else 502));
                 && end.sent[|end.sent| - 1] == ErrorPayload(raw)
                 && RowOf(entry.id, end)
                    == [UsageRow(entry.id, false, status, Some("upstream in-band error: " + message), None, None, None)]
                 && FailuresOf(entry, end) == [Failure(entry, status, "upstream in-band error: " + message, None)]
               case _ => end.sent[|end.sent| - 1] == DoneMark && FailuresOf(entry, end) == []
  {
    hide HandleAll, UpToStop, Classify, AsI32, Logged, Stopped;
    StopsWith(codec, kind, START, frames);
  }

  /**
   * A run that reads all frames, for a connected client: a clean end and an idle gap add no item, a transport error
   * adds one; a gap and an error leave one failed row and one failure, with status 504 and none.
   */
  lemma RunReadAll(codec: Codec, kind: ProviderKind, entry: RouteEntry, frames: seq<SseFrame>, ending: Ending)
    requires !Stopped(codec, kind, frames)
    ensures var end := Pumped(codec, kind, Forever, frames, ending);
            var read := HandleAll(codec, kind, Forever, START, frames).sent;
            match ending
            case End => end.sent == read && FailuresOf(entry, end) == []
            case Idle(window) =>
              var message := "stream idle timeout after " + window;
              && end.sent == read
              && RowOf(entry.id, end) == [UsageRow(entry.id, false, Some(504), Some(message), None, None, None)]
              && FailuresOf(entry, end) == [Failure(entry, Some(504), message, None)]
            case Transport(error) =>
              var message := "stream error: " + error;
              && end.sent == read + [Fault(message)]
              && RowOf(entry.id, end) == [UsageRow(entry.id, false, None, Some(message), None, None, None)]
              && FailuresOf(entry, end) == [Failure(entry, None, message, None)]
  {
    ConnectedFrames(codec, kind, START, frames);
    hide HandleAll, UpToStop, Classify, Logged, Stopped, FirstUsage;
  }

  /** The state after a frame that stops the run. */
  predicate StoppedBy(end: PumpState, what: Class) {
    && end.sent != []
    && match what
       case Error(code, message, raw) =>
         && end.phase == Failed(Some(AsI32(code.UnwrapOr(502))), InBandMessage(message))
         && end.sent[|end.sent| - 1] == ErrorPayload(raw)
       case _ => end.phase == Ended && end.sent[|end.sent| - 1] == DoneMark
  }

  lemma {:induction false} StopsWith(codec: Codec, kind: ProviderKind, st: PumpState, frames: seq<SseFrame>)
    requires st.phase.Reading? && Stopped(codec, kind, frames)
    ensures var end, taken := HandleAll(codec, kind, Forever, st, frames), UpToStop(codec, kind, frames);
            taken != [] && StoppedBy(end, Classify(codec.parse, taken[|taken| - 1].data))
    decreases |frames|
  {
    hide Handle, Classify, Stops, StoppedBy;
    var frame, more := frames[0], frames[1..];
    assert frames == [frame] + more;
    UpToStopCons(codec, kind, frame, more);
    ConnectedStep(codec, kind, st, frame);
    if Stops(codec, kind, frame) {
      StopStep(codec, kind, st, frame);
      assert UpToStop(codec, kind, frames) == [frame];
      assert HandleAll(codec, kind, Forever, st, frames) == Handle(codec, kind, Forever, st, frame);
    } else {
      StopsWith(codec, kind, Handle(codec, kind, Forever, st, frame), more);
      assert UpToStop(codec, kind, frames) == [frame] + UpToStop(codec, kind, more);
    }
  }

  lemma StopStep(codec: Codec, kind: ProviderKind, st: PumpState, frame: SseFrame)
    requires st.phase.Reading? && Stops(codec, kind, frame)
    ensures var end := Handle(codec, kind, Forever, st, frame);
            StoppedBy(end, Classify(codec.parse, frame.data))
  {
    hide FrameUsage, RenderOpenAiChunk, Trim, AsI32, InBandMessage;
  }

  // ---------------------------------------------------------------- a client that goes away

  /** The run of a client that left is over without a trace; any other ends like the whole run. */
  predicate EndsLike(n: nat, short: PumpState, full: PumpState) {
    && (short.phase.Disconnected? <==> n < |full.sent| && Content(full.sent[n]))
    && (!short.phase.Disconnected? ==> short.phase == full.phase && short.usage == full.usage)
  }

  lemma TellEndsLike(n: nat, st: PumpState, ev: StreamEvent)
    requires st.phase.Reading? && |st.sent| <= n
    ensures EndsLike(n, Tell(Items(n), st, ev), Tell(Forever, st, ev))
  {
    hide RenderOpenAiChunk;
  }

  lemma RelayEndsLike(codec: Codec, kind: ProviderKind, n: nat, st: PumpState, raw: Bytes)
    requires st.phase.Reading? && |st.sent| <= n
    ensures EndsLike(n, Relay(codec, kind, Items(n), st, raw), Relay(codec, kind, Forever, st, raw))
  {
    hide Tell;
    match kind
    case Anthropic | Google =>
      var ev := codec.decode(kind, raw);
      if ev.Some? {
        TellEndsLike(n, st, ev.value);
      }
    case _ =>
  }

  lemma FrameEndsLike(codec: Codec, kind: ProviderKind, n: nat, st: PumpState, frame: SseFrame)
    requires st.phase.Reading? && |st.sent| <= n
    ensures EndsLike(n, Handle(codec, kind, Items(n), st, frame), Handle(codec, kind, Forever, st, frame))
  {
    hide Classify, FrameUsage, Relay, AsI32, InBandMessage;
    match Classify(codec.parse, frame.data)
    case Done =>
    case Error(_, _, _) =>
    case Other(raw, json) =>
      RelayEndsLike(codec, kind, n,
                    if json.Some? then st.(usage := st.usage.Or(FrameUsage(kind, json.value))) else st, raw);
  }

  lemma {:induction false} FramesEndLike(codec: Codec, kind: ProviderKind, n: nat, st: PumpState,
                                         frames: seq<SseFrame>)
    requires st.phase.Reading? && |st.sent| <= n
    ensures EndsLike(n, HandleAll(codec, kind, Items(n), st, frames), HandleAll(codec, kind, Forever, st, frames))
    decreases |frames|
  {
    hide Handle;
    if frames != [] {
      var short, full := Handle(codec, kind, Items(n), st, frames[0]), Handle(codec, kind, Forever, st, frames[0]);
      CutShortKept(codec, kind, n, st, frames[0]);
      FrameEndsLike(codec, kind, n, st, frames[0]);
      if short.phase.Reading? {
        FramesEndLike(codec, kind, n, short, frames[1..]);
      } else {
        OnlyGrows(codec, kind, full, frames[1..]);
      }
    }
  }

  /**
   * A client that leaves after `n` items leaves no row and no failure if there was another piece of content to send to
   * it; otherwise its run is logged and acted on like the whole run.
   */
  lemma RunLeft(codec: Codec, kind: ProviderKind, entry: RouteEntry, n: nat, frames: seq<SseFrame>, ending: Ending)
    ensures var short := Pumped(codec, kind, Items(n), frames, ending);
            var full := Pumped(codec, kind, Forever, frames, ending);
            if n < |full.sent| && (full.sent[n].Passthrough? || full.sent[n].Translated?)
            then RowOf(entry.id, short) == [] && FailuresOf(entry, short) == []
            else RowOf(entry.id, short) == RowOf(entry.id, full) && FailuresOf(entry, short) == FailuresOf(entry, full)
  {
    var short := HandleAll(codec, kind, Items(n), START, frames);
    var full := HandleAll(codec, kind, Forever, START, frames);
    FramesEndLike(codec, kind, n, START, frames);
    CutShortFrames(codec, kind, n, START, frames);
    ConnectedFrames(codec, kind, START, frames);
    hide HandleAll;
    CloseEndsLike(n, short, full, ending);
    TracesAlike(entry, n, Close(Items(n), short, ending), Close(Forever, full, ending));
  }

  lemma CloseEndsLike(n: nat, short: PumpState, full: PumpState, ending: Ending)
    requires EndsLike(n, short, full) && CutShort(n, short, full) && !full.phase.Disconnected?
    ensures EndsLike(n, Close(Items(n), short, ending), Close(Forever, full, ending))
  {
  }

  lemma TracesAlike(entry: RouteEntry, n: nat, short: PumpState, full: PumpState)
    requires EndsLike(n, short, full)
    ensures if n < |full.sent| && (full.sent[n].Passthrough? || full.sent[n].Translated?)
            then RowOf(entry.id, short) == [] && FailuresOf(entry, short) == []
            else RowOf(entry.id, short) == RowOf(entry.id, full) && FailuresOf(entry, short) == FailuresOf(entry, full)
  {
    hide Logged;
  }
}
