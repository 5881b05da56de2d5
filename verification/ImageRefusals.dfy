/**
 * Image refusals that arrive in band, inside a stream answered with status 200 (src/server/handlers.rs,
 * src/router/mod.rs).
 */
module ImageRefusals {
  import opened Base
  import opened Domain
  import opened Health
  import opened InBandCodes
  import opened Pump
  import opened Sse
  import Json
  import Streaming

  /** A code and message by which an in-band image refusal is taken for one. */
  predicate CodedRefusal(code: Option<int>, message: string) {
    && !Marked(message) && code.Some?
    && 400 <= code.value % 0x1_0000_0000 < 500 && code.value % 0x1_0000_0000 != 429
  }

  lemma ReportedRefusal(entry: RouteEntry, code: Option<int>, message: string)
    ensures TakenAsRefusal(Reported(entry, code, message)) <==> CodedRefusal(code, message)
  {
    SameMarks(message);
    hide Marked, InBandMessage, AsI32;
    var n := code.UnwrapOr(502);
    LowBits(n, 400, 500);
    LowBits(n, 429, 430);
    KeptCodes(502);
  }

  /**
   * An in-band image refusal against an entry with vision, found by the probe or by the pump, costs it its vision and
   * nothing else if and only if its message is unmarked and the low 32 bits of its code are in 400..499 and not 429. In
   * particular a refusal without a numeric code never does.
   */
  lemma InBandRefusalOnlyBlindsIff(codec: Codec, kind: ProviderKind, life: Lifetime, st: PumpState, frame: SseFrame,
                                   es: Entries, entry: RouteEntry, code: Option<int>, message: string, raw: Bytes)
    requires st.phase.Reading? && Classify(codec.parse, frame.data) == Error(code, message, raw)
    requires entry.id in es && es[entry.id].capabilities.vision && entry.capabilities.vision
    requires codec.imageRejection(InBandMessage(message))
    ensures var f := Reported(entry, code, message);
            && FailuresOf(entry, Handle(codec, kind, life, st, frame)) == [f]
            && Streaming.TrialOf(Streaming.InBandError(code, message)) == Streaming.Refused(f.status, f.message)
            && (Applied(codec.imageRejection, es, f) == WithVision(es, entry.id, false)
                <==> CodedRefusal(code, message))
  {
    ActedOnAsSentIff(codec, kind, life, st, frame, entry, code, message, raw);
    ReportedRefusal(entry, code, message);
    RefusalOnlyBlindsIff(codec.imageRejection, es, Reported(entry, code, message));
  }

  // ---------------------------------------------------------------- a refusal without a numeric code

  /** `{"error": {"message": "image input not supported"}}`. */
  const UNCODED := Json.Obj(map["error" := Json.Obj(map["message" := Json.Str(IMAGE_REFUSAL)])])

  /** The same with a code that is no number. */
  const WORD_CODED := Json.Obj(map["error" := Json.Obj(map["message" := Json.Str(IMAGE_REFUSAL),
                                                           "code" := Json.Str("invalid_image")])])

  /** A payload that refuses images in band, without a numeric code. */
  predicate RefusesUncoded(parse: Bytes -> Option<Json.Value>, data: Bytes) {
    Trim(data) != DONE && (parse(Trim(data)) == Some(UNCODED) || parse(Trim(data)) == Some(WORD_CODED))
  }

  lemma UncodedClass(parse: Bytes -> Option<Json.Value>, data: Bytes)
    requires RefusesUncoded(parse, data)
    ensures Classify(parse, data) == Error(None, IMAGE_REFUSAL, Trim(data))
  {
    hide Trim;
    assert Json.StrOf(Some(Json.Str(IMAGE_REFUSAL))) == Some(IMAGE_REFUSAL);
  }

  /** Such a refusal is reported as a 502, whatever it says, and makes its entry Unhealthy. */
  lemma UncodedAction(imageRejection: string -> bool, es: Entries, e: RouteEntry)
    requires e.id in es && es[e.id] == e
    ensures var f := Reported(e, None, IMAGE_REFUSAL);
            && f.status == Some(502)
            && AppliedAll(imageRejection, es, [f]) == es[e.id := e.(status := Unhealthy)]
  {
    assert 'A' !in IMAGE_REFUSAL && 'c' !in IMAGE_REFUSAL;
    Unmarked(IMAGE_REFUSAL);
    SameMarks(IMAGE_REFUSAL);
    hide InBandMessage, Marked;
    KeptCodes(502);
    UnmarkedAction(imageRejection, 502, InBandMessage(IMAGE_REFUSAL));
    Streaming.AppliedOne(imageRejection, es, Reported(e, None, IMAGE_REFUSAL));
  }

  /** Found by the pump, after any frames: the entry becomes Unhealthy and keeps its vision. */
  lemma UncodedRefusalInPump(codec: Codec, kind: ProviderKind, life: Lifetime, before: seq<SseFrame>, frame: SseFrame,
                             after: seq<SseFrame>, ending: Ending, es: Entries, e: RouteEntry)
    requires RefusesUncoded(codec.parse, frame.data)
    requires HandleAll(codec, kind, life, START, before).phase.Reading?
    requires e.id in es && es[e.id] == e
    ensures AppliedAll(codec.imageRejection, es,
                       FailuresOf(e, Pumped(codec, kind, life, before + ([frame] + after), ending)))
         == es[e.id := e.(status := Unhealthy)]
  {
    var st := HandleAll(codec, kind, life, START, before);
    UncodedClass(codec.parse, frame.data);
    UncodedAction(codec.imageRejection, es, e);
    ActedOnAsSentIff(codec, kind, life, st, frame, e, None, IMAGE_REFUSAL, Trim(frame.data));
    HandleAllAppend(codec, kind, life, START, before, [frame] + after);
    Streaming.HandleAllCons(codec, kind, life, st, frame, after);
    EndsAtFailure(codec, kind, life, Handle(codec, kind, life, st, frame), after, ending, e);
  }

  /** A run that has failed reports that failure, whatever follows. */
  lemma EndsAtFailure(codec: Codec, kind: ProviderKind, life: Lifetime, st: PumpState, after: seq<SseFrame>,
                      ending: Ending, e: RouteEntry)
    requires FailuresOf(e, st) != []
    ensures Close(life, HandleAll(codec, kind, life, st, after), ending) == st
  {
  }

  /** Found by the probe, as the first frame of a body under any chunking: likewise. */
  lemma UncodedRefusalInProbe(codec: Codec, target: Target, life: Lifetime, chunks: seq<Bytes>, ending: Ending,
                              es: Entries)
    requires BodyFrames(Concat(chunks), ending) != []
    requires RefusesUncoded(codec.parse, BodyFrames(Concat(chunks), ending)[0].data)
    requires target.entry.id in es && es[target.entry.id] == target.entry
    ensures AppliedAll(codec.imageRejection, es,
                       Streaming.FailuresIn(codec, target, life, Streaming.Accepted(chunks, ending)))
         == es[target.entry.id := target.entry.(status := Unhealthy)]
  {
    hide BodyFrames, AppliedAll, Streaming.Probed, AsI32, InBandMessage, RefusesUncoded;
    UncodedClass(codec.parse, BodyFrames(Concat(chunks), ending)[0].data);
    hide Classify;
    Streaming.TrialOfWhole(codec, chunks, ending);
    UncodedAction(codec.imageRejection, es, target.entry);
  }
}
