/**
 * What each upstream that is tried for a stream leaves behind (src/server/handlers.rs): read off its answer, with no
 * regard to how the probe works or where the network cut the body.
 */
module Attempts {
  import opened Base
  import opened Domain
  import opened Health
  import opened Pump
  import opened Sse
  import opened Streaming

  /** The status and message an attempt fails with. */
  datatype Complaint = Complaint(status: Option<int>, message: string)

  /** Why a body without any frame is refused. */
  function EmptyComplaint(ending: Ending): Complaint {
    match ending
    case End => Complaint(None, "upstream closed the stream without sending data")
    case Idle(_) => Complaint(Some(504), "upstream stalled before sending any stream data")
    case Transport(error) => Complaint(None, "stream error: " + error)
  }

  /** Why a body is refused, if it is: no frame, an error first, or a sentinel first that stands alone. */
  function BodyComplaint(codec: Codec, chunks: seq<Bytes>, ending: Ending): Option<Complaint> {
    var frames := BodyFrames(Concat(chunks), ending);
    if frames == [] then Some(EmptyComplaint(ending))
    else match Classify(codec.parse, frames[0].data)
         case Error(code, message, _) =>
           Some(Complaint(Some(AsI32(if code.Some? then code.value else 502)), "upstream in-band error: " + message))
         case Done =>
           if StandsAlone([], chunks) then Some(Complaint(None, "upstream returned an empty stream (only [DONE])"))
           else None
         case Other(_, _) => None
  }

  /** Why an attempt fails, if it does. */
  function ComplaintOf(codec: Codec, u: Upstream): Option<Complaint> {
    match u
    case Rejected(code, message) => Some(Complaint(Some(code), message))
    case ResponsesError(status, message) => Some(Complaint(status, message))
    case Unreachable(error) => Some(Complaint(None, "upstream failed: " + error))
    case NoHeaders => Some(Complaint(None, "upstream timeout"))
    case Accepted(chunks, ending) => BodyComplaint(codec, chunks, ending)
    case ResponsesAnswer(_, _, _) => None
    case Untranslatable => None
  }

  function RowAgainst(entry: RouteEntry, why: Complaint): UsageRow {
    UsageRow(entry.id, false, why.status, Some(why.message), None, None, None)
  }

  function FailureAgainst(entry: RouteEntry, why: Complaint): Failure {
    Failure(entry, why.status, why.message, None)
  }

  lemma BodyTrial(codec: Codec, chunks: seq<Bytes>, ending: Ending)
    ensures Tried(codec, Accepted(chunks, ending))
         == match BodyComplaint(codec, chunks, ending)
            case Some(why) => Streaming.Refused(why.status, why.message)
            case None => Committed
  {
    hide Probed, BodyFrames, StandsAlone, Classify, AsI32;
    if OpensWithDone(codec, Concat(chunks), ending) {
      LeadingDone(codec, chunks, ending);
    } else {
      TrialOfWhole(codec, chunks, ending);
    }
  }

  /**
   * A failed attempt leaves exactly one failed row and one failure, both with its own status and message, and shows the
   * client nothing.
   */
  lemma FailedAttempt(codec: Codec, target: Target, life: Lifetime, u: Upstream, why: Complaint)
    requires ComplaintOf(codec, u) == Some(why)
    ensures RowsOf(codec, target, life, u) == [RowAgainst(target.entry, why)]
    ensures FailuresIn(codec, target, life, u) == [FailureAgainst(target.entry, why)]
    ensures SentBy(codec, target, life, u) == [] && !Works(codec, u)
  {
    hide Probed, BodyComplaint;
    if u.Accepted? {
      BodyTrial(codec, u.chunks, u.ending);
    }
  }

  /**
   * Every other attempt works, but for a request that cannot be translated, which leaves nothing. A whole answer leaves
   * one row with its counts; a committed body leaves the client, the log and the entry to the pump.
   */
  lemma OtherAttempt(codec: Codec, target: Target, life: Lifetime, u: Upstream)
    requires ComplaintOf(codec, u) == None
    ensures Works(codec, u) <==> !u.Untranslatable?
    ensures match u
            case ResponsesAnswer(prompt, completion, cached) =>
              && RowsOf(codec, target, life, u)
                 == [UsageRow(target.entry.id, true, Some(200), None, prompt, completion, cached)]
              && FailuresIn(codec, target, life, u) == [] && SentBy(codec, target, life, u) == []
            case Accepted(chunks, ending) =>
              var run := Pumped(codec, target.provider.kind, life, BodyFrames(Concat(chunks), ending), ending);
              && SentBy(codec, target, life, u) == run.sent
              && RowsOf(codec, target, life, u) == RowOf(target.entry.id, run)
              && FailuresIn(codec, target, life, u) == FailuresOf(target.entry, run)
            case _ =>
              && RowsOf(codec, target, life, u) == [] && FailuresIn(codec, target, life, u) == []
              && SentBy(codec, target, life, u) == []
  {
    hide Probed, BodyComplaint, Pumped, BodyFrames, Pump.FailuresOf, RowOf;
    if u.Accepted? {
      BodyTrial(codec, u.chunks, u.ending);
    }
  }

  // ---------------------------------------------------------------- over the attempt loop

  /** How many of the first `n` upstreams a request was sent to. */
  function Sent(ups: seq<Upstream>, n: nat): nat
    requires n <= |ups|
  {
    if n == 0 then 0 else Sent(ups, n - 1) + if ups[n - 1].Untranslatable? then 0 else 1
  }

  lemma {:induction false} SentGrows(ups: seq<Upstream>, i: nat, n: nat)
    requires i < n <= |ups|
    ensures Sent(ups, i) <= Sent(ups, n)
    ensures !ups[i].Untranslatable? ==> Sent(ups, i) < Sent(ups, n)
  {
    if i + 1 < n {
      SentGrows(ups, i, n - 1);
    }
  }

  /** While no upstream works, every one a request was sent to leaves one row and one failure, in order. */
  lemma {:induction false} FailuresCounted(codec: Codec, targets: seq<Target>, life: Lifetime, ups: seq<Upstream>,
                                            n: nat)
    requires n <= |targets| == |ups|
    requires forall j | 0 <= j < n :: !Works(codec, ups[j])
    ensures |RowsUpTo(codec, targets, life, ups, n)| == Sent(ups, n)
    ensures |FailuresUpTo(codec, targets, life, ups, n)| == Sent(ups, n)
  {
    hide RowsOf, FailuresIn, Works, ComplaintOf, RowAgainst, FailureAgainst, SentBy;
    if n > 0 {
      FailuresCounted(codec, targets, life, ups, n - 1);
      var u := ups[n - 1];
      assert !Works(codec, u);
      match ComplaintOf(codec, u)
      case Some(why) =>
        SentTo(codec, u);
        FailedAttempt(codec, targets[n - 1], life, u, why);
      case None =>
        OtherAttempt(codec, targets[n - 1], life, u);
    }
  }

  lemma SentTo(codec: Codec, u: Upstream)
    requires ComplaintOf(codec, u).Some?
    ensures !u.Untranslatable?
  {
  }

  /**
   * Over the attempt loop: upstream `i`, failing before any upstream works, leaves its own row and its own failure, at
   * the place its turn gives it.
   */
  lemma {:induction false} FailureKept(codec: Codec, targets: seq<Target>, life: Lifetime, ups: seq<Upstream>, n: nat,
                                       i: nat, why: Complaint)
    requires i < n <= |targets| == |ups|
    requires forall j | 0 <= j < i :: !Works(codec, ups[j])
    requires ComplaintOf(codec, ups[i]) == Some(why)
    ensures var k := Sent(ups, i);
            && k < |RowsUpTo(codec, targets, life, ups, n)| && k < |FailuresUpTo(codec, targets, life, ups, n)|
            && RowsUpTo(codec, targets, life, ups, n)[k] == RowAgainst(targets[i].entry, why)
            && FailuresUpTo(codec, targets, life, ups, n)[k] == FailureAgainst(targets[i].entry, why)
    decreases n
  {
    hide RowsOf, FailuresIn, Works, ComplaintOf, RowAgainst, FailureAgainst, SentBy;
    if i + 1 < n {
      FailureKept(codec, targets, life, ups, n - 1, i, why);
    } else {
      FailuresCounted(codec, targets, life, ups, i);
      FailedAttempt(codec, targets[i], life, ups[i], why);
    }
  }

  /**
   * When the loop has tried `n` upstreams, every one of them that failed left exactly one failed row and one failure,
   * and nothing else was left but what the last left if it works.
   */
  lemma LoopLogsFailures(codec: Codec, targets: seq<Target>, life: Lifetime, ups: seq<Upstream>, n: nat)
    requires |targets| == |ups| && TriedCount(codec, ups, n)
    ensures forall i, why | 0 <= i < n && ComplaintOf(codec, ups[i]) == Some(why) ::
              var k := Sent(ups, i);
              && k < |RowsUpTo(codec, targets, life, ups, n)| && k < |FailuresUpTo(codec, targets, life, ups, n)|
              && RowsUpTo(codec, targets, life, ups, n)[k] == RowAgainst(targets[i].entry, why)
              && FailuresUpTo(codec, targets, life, ups, n)[k] == FailureAgainst(targets[i].entry, why)
    ensures var m := if n > 0 && Works(codec, ups[n - 1]) then n - 1 else n;
            && |RowsUpTo(codec, targets, life, ups, m)| == |FailuresUpTo(codec, targets, life, ups, m)| == Sent(ups, m)
  {
    hide RowsUpTo, FailuresUpTo, Works, ComplaintOf, RowAgainst, FailureAgainst;
    forall i, why | 0 <= i < n && ComplaintOf(codec, ups[i]) == Some(why)
      ensures var k := Sent(ups, i);
              && k < |RowsUpTo(codec, targets, life, ups, n)| && k < |FailuresUpTo(codec, targets, life, ups, n)|
              && RowsUpTo(codec, targets, life, ups, n)[k] == RowAgainst(targets[i].entry, why)
              && FailuresUpTo(codec, targets, life, ups, n)[k] == FailureAgainst(targets[i].entry, why)
    {
      FailureKept(codec, targets, life, ups, n, i, why);
    }
    FailuresCounted(codec, targets, life, ups, if n > 0 && Works(codec, ups[n - 1]) then n - 1 else n);
  }

  /** A single upstream that rejects the request without a marker: 429 leaves its entry Degraded, 500 Unhealthy. */
  lemma SoleRejection(codec: Codec, target: Target, life: Lifetime, code: int, message: string, es: Entries, n: nat)
    requires TriedCount(codec, [Rejected(code, message)], n)
    requires target.entry.id in es && !Marked(message) && (code == 429 || code == 500)
    ensures AppliedAll(codec.imageRejection, es, FailuresUpTo(codec, [target], life, [Rejected(code, message)], n))
         == es[target.entry.id := es[target.entry.id].(status := if code == 429 then Degraded else Unhealthy)]
  {
    var why, ups := Complaint(Some(code), message), [Rejected(code, message)];
    FailedAttempt(codec, target, life, ups[0], why);
    assert n == 1;
    hide RowsOf, FailuresIn, Contains;
    var none := FailuresUpTo(codec, [target], life, ups, 0);
    assert none == [] && FailuresUpTo(codec, [target], life, ups, 1) == none + [FailureAgainst(target.entry, why)];
    assert none + [FailureAgainst(target.entry, why)] == [FailureAgainst(target.entry, why)];
    AppliedOne(codec.imageRejection, es, FailureAgainst(target.entry, why));
  }
}
