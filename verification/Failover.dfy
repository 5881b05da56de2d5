/** Buffered priority failover (src/router/mod.rs). */
module Failover {
  import opened Base
  import opened Domain
  import opened Health

  /** How one upstream attempt ends. */
  datatype Attempt =
    | Answered(bytes: Bytes)
    | ProviderError(status: int, body: string, retryAfter: Option<int>)
    | Broken(message: string)
    | TimedOut

  datatype Outcome = Answer(bytes: Bytes) | NoTargets | AllFailed(last: Attempt)

  /** What the failover loop remembers of an attempt that did not answer. */
  function FailureOf(target: Target, a: Attempt): Failure
    requires !a.Answered?
  {
    match a
    case ProviderError(status, body, retryAfter) => Failure(target.entry, Some(status), body, retryAfter)
    case Broken(message) => Failure(target.entry, None, message, None)
    case TimedOut => Failure(target.entry, None, "upstream timeout", None)
  }

  /** The failures of a list of attempts none of which answered. */
  function FailuresOf(targets: seq<Target>, attempts: seq<Attempt>): (fs: seq<Failure>)
    requires |targets| == |attempts|
    requires forall a | a in attempts :: !a.Answered?
    ensures |fs| == |targets|
    ensures forall i | 0 <= i < |fs| :: fs[i] == FailureOf(targets[i], attempts[i])
  {
    seq(|targets|, i requires 0 <= i < |targets| => FailureOf(targets[i], attempts[i]))
  }

  /** Target `k` is the first whose attempt answers. */
  predicate FirstAnswer(attempts: seq<Attempt>, k: int) {
    && 0 <= k < |attempts| && attempts[k].Answered?
    && forall j | 0 <= j < k :: !attempts[j].Answered?
  }

  /** Acts on the failures of a request that no target answered, in order. */
  method SettleFailures(imageRejection: string -> bool, setting: Option<int>, store: Store,
                        failures: seq<Failure>, clock: seq<int>)
    requires |clock| == |failures|
    modifies store`entries
    ensures store.entries == SettledAll(imageRejection, setting, old(store.entries), failures, clock)
  {
    for i := 0 to |failures|
      invariant store.entries == SettledAll(imageRejection, setting, old(store.entries), failures[..i], clock[..i])
    {
      assert failures[..i + 1][..i] == failures[..i] && clock[..i + 1][..i] == clock[..i];
      var f := failures[i];
      var _ := ApplyFailureAction(imageRejection, store, f);
      if f.status == Some(429) {
        var secs := f.retryAfter.UnwrapOr(RateLimitCooldownSecs(setting));
        store.SetRouteEntryCooldown(f.entry.id, clock[i] + (if secs < 0 then 0 else secs) * 1000);
      }
    }
    assert failures[..|failures|] == failures && clock[..|clock|] == clock;
  }

  /**
   * Tries the targets in order until one answers. `attempts[i]` is how target `i` would end if tried and `clock[i]`
   * the time at which its failure is handled; `tried` lists the positions tried, in the order they were tried.
   */
  method ExecuteWithFailover(imageRejection: string -> bool, setting: Option<int>, store: Store,
                             targets: seq<Target>, attempts: seq<Attempt>, clock: seq<int>)
    returns (outcome: Outcome, tried: seq<nat>)
    requires |attempts| == |targets| == |clock|
    modifies store`entries
    ensures targets == [] ==> outcome == NoTargets
    ensures forall k | FirstAnswer(attempts, k) ::
              outcome == Answer(attempts[k].bytes) && tried == seq(k + 1, i => i) && store.entries == old(store.entries)
    ensures (forall a | a in attempts :: !a.Answered?) ==>
              && tried == seq(|targets|, i => i)
              && (targets != [] ==> outcome == AllFailed(attempts[|attempts| - 1]))
              && store.entries
                 == SettledAll(imageRejection, setting, old(store.entries), FailuresOf(targets, attempts), clock)
  {
    tried := [];
    if targets == [] {
      assert attempts == [];
      return NoTargets, [];
    }
    var last: Option<Attempt> := None;
    var failures: seq<Failure> := [];
    for i := 0 to |targets|
      invariant forall j | 0 <= j < i :: !attempts[j].Answered?
      invariant tried == seq(i, j => j)
      invariant |failures| == i && forall j | 0 <= j < i :: failures[j] == FailureOf(targets[j], attempts[j])
      invariant last == if i == 0 then None else Some(attempts[i - 1])
    {
      tried := tried + [i];
      match attempts[i] {
        case Answered(bytes) =>
          assert FirstAnswer(attempts, i);
          return Answer(bytes), tried;
        case _ =>
          last := Some(attempts[i]);
          failures := failures + [FailureOf(targets[i], attempts[i])];
      }
    }
    assert failures == FailuresOf(targets, attempts);
    SettleFailures(imageRejection, setting, store, failures, clock);
    return AllFailed(last.value), tried;
  }

  // ---------------------------------------------------------------- what a failed request leaves

  /** What each kind of attempt is remembered as. */
  lemma Remembered(target: Target, status: int, body: string, hint: Option<int>, message: string)
    ensures FailureOf(target, ProviderError(status, body, hint)) == Failure(target.entry, Some(status), body, hint)
    ensures FailureOf(target, Broken(message)) == Failure(target.entry, None, message, None)
    ensures FailureOf(target, TimedOut) == Failure(target.entry, None, "upstream timeout", None)
  {
  }

  /** Attempt `i` was refused by a rate limit of entry `id`. */
  predicate LimitedAt(targets: seq<Target>, attempts: seq<Attempt>, id: int, i: int)
    requires |targets| == |attempts|
  {
    0 <= i < |attempts| && targets[i].entry.id == id && attempts[i].ProviderError? && attempts[i].status == 429
  }

  /** How long a rate limit parks, in seconds: as the upstream says, never a negative time; else the fallback. */
  function ParkingSecs(hint: Option<int>, setting: Option<int>): nat {
    match hint
    case Some(h) => if h < 0 then 0 else h
    case None => if setting.Some? && setting.value > 0 then setting.value else 60
  }

  /**
   * After a request that no target answered, an entry is parked from the moment its last rate limit was handled for the
   * time that one's upstream asked for, or for the fallback if it asked for none; never below zero. An entry without a
   * rate limit keeps its cooldown.
   */
  lemma ParkedAsAsked(imageRejection: string -> bool, setting: Option<int>, es: Entries, targets: seq<Target>,
                      attempts: seq<Attempt>, clock: seq<int>, id: int)
    requires Keyed(es) && id in es
    requires |targets| == |attempts| == |clock| && forall a | a in attempts :: !a.Answered?
    ensures id in SettledAll(imageRejection, setting, es, FailuresOf(targets, attempts), clock)
    ensures var after := SettledAll(imageRejection, setting, es, FailuresOf(targets, attempts), clock)[id];
            && (forall i | LimitedAt(targets, attempts, id, i)
                           && forall j | i < j < |attempts| :: !LimitedAt(targets, attempts, id, j) ::
                  var until := clock[i] + 1000 * ParkingSecs(attempts[i].retryAfter, setting);
                  after.cooldownUntil == if until < 0 then 0 else until)
            && ((forall i | 0 <= i < |attempts| :: !LimitedAt(targets, attempts, id, i)) ==>
                  after.cooldownUntil == es[id].cooldownUntil)
  {
    var fs := FailuresOf(targets, attempts);
    SettledAllEffect(imageRejection, setting, es, fs, clock, id);
    forall i | 0 <= i < |fs|
      ensures Parks(fs[i], id) <==> LimitedAt(targets, attempts, id, i)
      ensures LimitedAt(targets, attempts, id, i) ==> fs[i].retryAfter == attempts[i].retryAfter
    {
      LimitedIs(targets[i], attempts[i], id);
    }
    hide SettledAll, StatusAfter, VisionAfter, FailuresOf, FailureOf, Parks;
    forall i | LimitedAt(targets, attempts, id, i)
               && forall j | i < j < |attempts| :: !LimitedAt(targets, attempts, id, j)
      ensures var until := clock[i] + 1000 * ParkingSecs(attempts[i].retryAfter, setting);
              SettledAll(imageRejection, setting, es, fs, clock)[id].cooldownUntil == if until < 0 then 0 else until
    {
      assert LastParking(fs, id, i);
      ParkedFor(setting, fs[i], clock[i]);
    }
  }

  lemma LimitedIs(target: Target, a: Attempt, id: int)
    requires !a.Answered?
    ensures Parks(FailureOf(target, a), id) <==> target.entry.id == id && a.ProviderError? && a.status == 429
    ensures a.ProviderError? ==> FailureOf(target, a).retryAfter == a.retryAfter
  {
  }

  lemma ParkedFor(setting: Option<int>, f: Failure, now: int)
    ensures var until := now + 1000 * ParkingSecs(f.retryAfter, setting);
            ParkedUntil(setting, f, now) == if until < 0 then 0 else until
  {
  }
}
