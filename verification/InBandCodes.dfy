/**
 * The code of an in-band error, which is cut to 32 signed bits before the failure is classified
 * (src/server/handlers.rs, src/router/mod.rs).
 */
module InBandCodes {
  import opened Base
  import opened Domain
  import opened Health
  import opened Pump
  import opened Sse
  import Json
  import Streaming

  /** The cut keeps exactly the codes of 32 signed bits. */
  lemma KeptCodes(n: int)
    ensures -0x8000_0000 <= AsI32(n) < 0x8000_0000
    ensures AsI32(n) == n <==> -0x8000_0000 <= n < 0x8000_0000
  {
  }

  /** A cut code looks like a refusal exactly when the code's low 32 bits do. */
  lemma LowBits(n: int, low: int, high: int)
    requires 0 <= low <= high < 0x8000_0000
    ensures low <= AsI32(n) < high <==> low <= n % 0x1_0000_0000 < high
  {
  }

  /** The log's wording around a message neither adds nor hides a marker. */
  lemma SameMarks(message: string)
    ensures Marked(InBandMessage(message)) <==> Marked(message)
  {
    hide Contains, NoPair;
    NoMarkBegins();
    assert MASK_SKIP[0] == MASK_FAILED[0] == 'A' && MASK_SKIP[1] == MASK_FAILED[1] == 'G';
    assert ADAPTER_CAPABILITY_SKIP[0] == 'a' && ADAPTER_CAPABILITY_SKIP[1] == 'd';
    ContainsPast(InBandMessage(""), message, MASK_SKIP);
    ContainsPast(InBandMessage(""), message, MASK_FAILED);
    ContainsPast(InBandMessage(""), message, ADAPTER_CAPABILITY_SKIP);
    assert InBandMessage("") + message == InBandMessage(message);
  }

  /** No marker can begin inside the wording put in front of a message. */
  lemma NoMarkBegins()
    ensures NoPair(InBandMessage(""), 'A', 'G') && NoPair(InBandMessage(""), 'a', 'd')
  {
    LettersOfWording();
    hide InBandMessage;
    var front := InBandMessage("");
    NoPairWithout(front, 'A', 'G');
    NoPairAt(front, 'a', 'd');
  }

  lemma LettersOfWording()
    ensures var front := InBandMessage("");
            && 'A' !in front && |front| == 24 && front[7] == 'm' && front[14] == 'n'
            && forall i | 0 <= i < 24 && front[i] == 'a' :: i == 6 || i == 13
  {
  }

  /** The code and the message for which cutting the code changes nothing that is done. */
  predicate CutIsHarmless(n: int, message: string) {
    Marked(message) || 400 <= n < 500 || !(400 <= n % 0x1_0000_0000 < 500)
  }

  lemma SameActionIff(imageRejection: string -> bool, n: int, message: string)
    ensures ClassifyFailure(imageRejection, Some(AsI32(n)), InBandMessage(message))
         == ClassifyFailure(imageRejection, Some(n), InBandMessage(message))
       <==> CutIsHarmless(n, message)
  {
    SameMarks(message);
    hide Contains, InBandMessage, AsI32;
    LowBits(n, 400, 500);
    KeptCodes(n);
  }

  /** The failure an in-band error is reported as. */
  function Reported(entry: RouteEntry, code: Option<int>, message: string): Failure {
    Failure(entry, Some(AsI32(code.UnwrapOr(502))), InBandMessage(message), None)
  }

  /**
   * An in-band error is acted on as its uncut code would be, before the stream is committed and after, if and only if
   * its message has a marker, its code is in 400..499, or the low 32 bits of its code are not.
   */
  lemma ActedOnAsSentIff(codec: Codec, kind: ProviderKind, life: Lifetime, st: PumpState, frame: SseFrame,
                         entry: RouteEntry, code: Option<int>, message: string, raw: Bytes)
    requires st.phase.Reading? && Classify(codec.parse, frame.data) == Error(code, message, raw)
    ensures var f := Reported(entry, code, message);
            && FailuresOf(entry, Handle(codec, kind, life, st, frame)) == [f]
            && Streaming.TrialOf(Streaming.InBandError(code, message)) == Streaming.Refused(f.status, f.message)
            && (ActionOf(codec.imageRejection, f)
                == ClassifyFailure(codec.imageRejection, Some(code.UnwrapOr(502)), f.message)
                <==> CutIsHarmless(code.UnwrapOr(502), message))
  {
    SameActionIff(codec.imageRejection, code.UnwrapOr(502), message);
    hide ClassifyFailure, CutIsHarmless, AsI32, InBandMessage, Marked;
  }

  /** 429, and one bit above the 32 that are kept. */
  const LONG_CODE := 4_294_967_725

  /**
   * `{"error": {"code": 4294967725}}` makes its entry Degraded, as a rate limit would; uncut it would make it
   * Unhealthy.
   */
  lemma LongCodeActsAsRateLimit(codec: Codec, kind: ProviderKind, life: Lifetime, data: Bytes, entry: RouteEntry)
    requires Trim(data) != DONE
    requires codec.parse(Trim(data)) == Some(Json.Obj(map["error" := Json.Obj(map["code" := Json.Num(LONG_CODE)])]))
    ensures var f := Failure(entry, Some(429), InBandMessage(DEFAULT_ERROR), None);
            && FailuresOf(entry, Handle(codec, kind, life, START, SseFrame([], data))) == [f]
            && ActionOf(codec.imageRejection, f) == Demote(Degraded)
            && ClassifyFailure(codec.imageRejection, Some(LONG_CODE), f.message) == Demote(Unhealthy)
  {
    hide Trim, Contains, InBandMessage, Marked;
    assert Classify(codec.parse, data) == Error(Some(LONG_CODE), DEFAULT_ERROR, Trim(data));
    hide Classify;
    DefaultUnmarked();
    SameMarks(DEFAULT_ERROR);
    assert AsI32(LONG_CODE) == 429;
    UnmarkedAction(codec.imageRejection, 429, InBandMessage(DEFAULT_ERROR));
    UnmarkedAction(codec.imageRejection, LONG_CODE, InBandMessage(DEFAULT_ERROR));
  }

  lemma UnmarkedAction(imageRejection: string -> bool, n: int, message: string)
    requires !Marked(message)
    ensures n == 429 ==> ClassifyFailure(imageRejection, Some(n), message) == Demote(Degraded)
    ensures !(400 <= n < 500) ==> ClassifyFailure(imageRejection, Some(n), message) == Demote(Unhealthy)
  {
    hide Contains;
  }

  lemma DefaultUnmarked()
    ensures !Marked(DEFAULT_ERROR)
  {
    assert 'A' !in DEFAULT_ERROR && 'y' !in DEFAULT_ERROR;
    assert MASK_SKIP[0] == MASK_FAILED[0] == 'A' && ADAPTER_CAPABILITY_SKIP[17] == 'y';
    if Contains(DEFAULT_ERROR, MASK_SKIP) {
      ContainsChars(DEFAULT_ERROR, MASK_SKIP);
    }
    if Contains(DEFAULT_ERROR, MASK_FAILED) {
      ContainsChars(DEFAULT_ERROR, MASK_FAILED);
    }
    if Contains(DEFAULT_ERROR, ADAPTER_CAPABILITY_SKIP) {
      ContainsChars(DEFAULT_ERROR, ADAPTER_CAPABILITY_SKIP);
    }
  }
}
