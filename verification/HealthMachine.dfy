/** Background probes, and everything that may move an entry's health over a whole run (src/health/mod.rs). */
module HealthMachine {
  import opened Base
  import opened Domain
  import opened Health

  /** Status after a probe of an entry. */
  function DecideStatus(current: ModelStatus, success: bool): ModelStatus {
    match (current, success)
    case (Healthy, _) => Healthy
    case (Degraded, true) => Healthy
    case (Degraded, false) => Unhealthy
    case (Unhealthy, true) => Degraded
    case (Unhealthy, false) => Unhealthy
    case (Disabled, _) => Disabled
  }

  /** Direct entries that are neither Healthy nor Disabled; every direct entry's provider exists. */
  predicate NeedsProbe(e: RouteEntry) {
    !e.status.Healthy? && !e.status.Disabled? && e.providerId.Some?
  }

  function Probed(es: Entries, id: int, reachable: bool): Entries {
    if id in es && NeedsProbe(es[id]) then WithStatus(es, id, DecideStatus(es[id].status, reachable)) else es
  }

  /** One probe cycle over the entries that need it, each pinged with the outcome `ping` gives it. */
  method RunOnce(store: Store, ping: int -> bool)
    requires Keyed(store.entries)
    modifies store`entries
    ensures store.entries == map id | id in old(store.entries) ::
              Probed(old(store.entries), id, ping(id))[id]
  {
    var candidates := set id | id in store.entries && NeedsProbe(store.entries[id]);
    var snapshot := store.entries;
    var todo := candidates;
    while todo != {}
      invariant todo <= candidates
      invariant store.entries == map id | id in snapshot ::
                  if id in todo then snapshot[id] else Probed(snapshot, id, ping(id))[id]
      decreases todo
    {
      var id :| id in todo;
      todo := todo - {id};
      var entry := snapshot[id];
      var status := DecideStatus(entry.status, ping(id));
      if status != entry.status {
        store.SetRouteEntryStatus(id, status);
      }
    }
  }

  // ---------------------------------------------------------------- runs

  /** Each step is atomic from the selection of its entries to its last write. */
  datatype Step =
    | Probe(id: int, reachable: bool)
    | Buffered(failures: seq<Failure>, clock: seq<int>)
    | Streaming(failures: seq<Failure>)

  datatype Settings = Settings(imageRejection: string -> bool, cooldown: Option<int>)

  /** A traffic step fails on entries it selected: direct ones in rotation, as they were at that moment. */
  predicate Selected(es: Entries, failures: seq<Failure>) {
    forall f | f in failures ::
      f.entry.id in es && es[f.entry.id] == f.entry && InRotation(f.entry.status) && f.entry.providerId.Some?
  }

  predicate Enabled(es: Entries, step: Step) {
    match step
    case Probe(_, _) => true
    case Buffered(failures, clock) => |clock| == |failures| && Selected(es, failures)
    case Streaming(failures) => Selected(es, failures)
  }

  function After(s: Settings, es: Entries, step: Step): Entries
    requires Enabled(es, step)
  {
    match step
    case Probe(id, reachable) => Probed(es, id, reachable)
    case Buffered(failures, clock) => SettledAll(s.imageRejection, s.cooldown, es, failures, clock)
    case Streaming(failures) => AppliedAll(s.imageRejection, es, failures)
  }

  predicate IsRun(s: Settings, es: Entries, steps: seq<Step>)
    decreases |steps|
  {
    steps == [] || (Enabled(es, steps[0]) && IsRun(s, After(s, es, steps[0]), steps[1..]))
  }

  function Final(s: Settings, es: Entries, steps: seq<Step>): Entries
    requires IsRun(s, es, steps)
    decreases |steps|
  {
    if steps == [] then es else Final(s, After(s, es, steps[0]), steps[1..])
  }

  function Rank(status: ModelStatus): nat {
    match status
    case Healthy => 3
    case Degraded => 2
    case Unhealthy => 1
    case Disabled => 0
  }

  /** What one step may do to one entry. */
  ghost predicate Lawful(step: Step, before: RouteEntry, after: RouteEntry) {
    && SameRow(before, after)
    && (before.status.Disabled? <==> after.status.Disabled?)
    && (after.capabilities.vision ==> before.capabilities.vision)
    && (before.providerId.None? ==> after == before)
    && (step.Probe? ==> after == before.(status := after.status))
    && (step.Probe? ==> Rank(after.status) == if step.id == before.id && NeedsProbe(before)
                                              then (if step.reachable then Rank(before.status) + 1 else Rank(Unhealthy))
                                              else Rank(before.status))
    && (!step.Probe? ==> Rank(after.status) <= Rank(before.status))
    && (!step.Buffered? ==> after.cooldownUntil == before.cooldownUntil)
  }

  /**
   * Every step, from every state: Disabled is neither entered nor left, vision is never regained, nested entries never
   * move, a probe touches only the status of the entry probed (one rank up, or down to Unhealthy), a traffic step never
   * raises the rank, and only buffered traffic parks.
   */
  lemma StepLawful(s: Settings, es: Entries, step: Step, id: int)
    requires Keyed(es) && Enabled(es, step)
    ensures After(s, es, step).Keys == es.Keys && Keyed(After(s, es, step))
    ensures id in es ==> Lawful(step, es[id], After(s, es, step)[id])
  {
    match step
    case Probe(_, _) =>
    case Buffered(failures, clock) =>
      SettledAllEffect(s.imageRejection, s.cooldown, es, failures, clock, id);
      if id in es {
        TrafficLawful(s, es, failures, id, After(s, es, step)[id]);
        if es[id].providerId.None? || es[id].status.Disabled? {
          assert forall i | 0 <= i < |failures| :: failures[i] in failures && !Parks(failures[i], id);
        }
      }
    case Streaming(failures) =>
      AppliedAllEffect(s.imageRejection, es, failures, id);
      if id in es {
        TrafficLawful(s, es, failures, id, After(s, es, step)[id]);
      }
  }

  lemma TrafficLawful(s: Settings, es: Entries, fs: seq<Failure>, id: int, after: RouteEntry)
    requires Keyed(es) && id in es && Selected(es, fs) && SameRow(es[id], after)
    requires StatusAfter(s.imageRejection, fs, id, es[id].status, after.status)
    requires VisionAfter(s.imageRejection, fs, id, es[id].capabilities.vision, after.capabilities.vision)
    ensures es[id].status.Disabled? <==> after.status.Disabled?
    ensures Rank(after.status) <= Rank(es[id].status)
    ensures after.capabilities.vision ==> es[id].capabilities.vision
    ensures es[id].providerId.None? ==> after == es[id].(cooldownUntil := after.cooldownUntil)
  {
    if es[id].providerId.None? {
      NestedSpared(s, es, fs, id);
    }
    var i := DemotedOrKept(s, fs, id, es[id].status, after.status);
    if i >= 0 {
      assert fs[i] in fs && InRotation(es[id].status);
      DemotionLowers(s, fs[i], es[id].status);
    }
  }

  /** No failure of selected entries is about a nested entry. */
  lemma NestedSpared(s: Settings, es: Entries, fs: seq<Failure>, id: int)
    requires id in es && es[id].providerId.None? && Selected(es, fs)
    ensures forall i | 0 <= i < |fs| :: !Demotes(s.imageRejection, fs[i], id)
    ensures forall i | 0 <= i < |fs| :: !Blinds(s.imageRejection, fs[i], id)
  {
    forall i | 0 <= i < |fs|
      ensures fs[i].entry.id != id
    {
      assert fs[i] in fs;
    }
  }

  /** The failure that decided a status, or -1 when none did. */
  lemma DemotedOrKept(s: Settings, fs: seq<Failure>, id: int, before: ModelStatus, after: ModelStatus) returns (i: int)
    requires StatusAfter(s.imageRejection, fs, id, before, after)
    ensures -1 <= i < |fs|
    ensures i == -1 ==> after == before
    ensures i >= 0 ==> Demotes(s.imageRejection, fs[i], id) && after == ActionOf(s.imageRejection, fs[i]).status
  {
    i := -1;
    if k :| 0 <= k < |fs| && Demotes(s.imageRejection, fs[k], id) {
      i := LastDemoting(s.imageRejection, fs, id, k);
    }
  }

  lemma DemotionLowers(s: Settings, f: Failure, before: ModelStatus)
    requires ActionOf(s.imageRejection, f).Demote? && InRotation(before)
    ensures !ActionOf(s.imageRejection, f).status.Disabled?
    ensures Rank(ActionOf(s.imageRejection, f).status) <= Rank(before)
  {
  }

  /**
   * Over every interleaving of probes and traffic: Disabled is neither entered nor left, vision is never regained and
   * nested entries never move. (The last clause holds of every direct entry that is not Disabled, run or no run.)
   */
  lemma {:induction false} RunLawful(s: Settings, es: Entries, steps: seq<Step>, id: int)
    requires Keyed(es) && IsRun(s, es, steps)
    ensures var end := Final(s, es, steps);
            && end.Keys == es.Keys && Keyed(end)
            && (id in es ==>
                && SameRow(es[id], end[id])
                && (es[id].status.Disabled? <==> end[id].status.Disabled?)
                && (end[id].capabilities.vision ==> es[id].capabilities.vision)
                && (es[id].providerId.None? ==> end[id] == es[id])
                && (es[id].providerId.Some? && !end[id].status.Disabled? ==>
                      InRotation(end[id].status) || NeedsProbe(end[id])))
    decreases |steps|
  {
    if steps != [] {
      StepLawful(s, es, steps[0], id);
      RunLawful(s, After(s, es, steps[0]), steps[1..], id);
    }
  }

  /** A step in which entry `id` neither fails a probe nor is demoted by traffic. */
  predicate NoFailureOf(s: Settings, step: Step, id: int) {
    match step
    case Probe(p, reachable) => p == id ==> reachable
    case Buffered(failures, _) => forall f | f in failures :: !Demotes(s.imageRejection, f, id)
    case Streaming(failures) => forall f | f in failures :: !Demotes(s.imageRejection, f, id)
  }

  /** Without a failure an entry's rank never drops. */
  lemma {:induction false} RankKept(s: Settings, es: Entries, steps: seq<Step>, id: int)
    requires Keyed(es) && IsRun(s, es, steps) && id in es
    requires forall step | step in steps :: NoFailureOf(s, step, id)
    ensures id in Final(s, es, steps)
    ensures Rank(es[id].status) <= Rank(Final(s, es, steps)[id].status)
    decreases |steps|
  {
    if steps != [] {
      var step := steps[0];
      assert NoFailureOf(s, step, id);
      StepLawful(s, es, step, id);
      match step {
        case Probe(_, _) =>
        case Buffered(failures, clock) =>
          SettledAllEffect(s.imageRejection, s.cooldown, es, failures, clock, id);
          assert forall i | 0 <= i < |failures| :: failures[i] in failures;
        case Streaming(failures) =>
          AppliedAllEffect(s.imageRejection, es, failures, id);
          assert forall i | 0 <= i < |failures| :: failures[i] in failures;
      }
      assert forall st | st in steps[1..] :: st in steps;
      RankKept(s, After(s, es, step), steps[1..], id);
    }
  }

  /** Two successful probes with no failure in between make any direct, enabled entry Healthy, whatever else happens. */
  lemma {:induction false} TwoProbesHeal(s: Settings, es: Entries, between: seq<Step>, id: int)
    requires Keyed(es) && id in es && es[id].providerId.Some? && !es[id].status.Disabled?
    requires IsRun(s, es, [Probe(id, true)] + between + [Probe(id, true)])
    requires forall step | step in between :: NoFailureOf(s, step, id)
    ensures id in Final(s, es, [Probe(id, true)] + between + [Probe(id, true)])
    ensures Final(s, es, [Probe(id, true)] + between + [Probe(id, true)])[id].status == Healthy
  {
    var first, probe := After(s, es, Probe(id, true)), [Probe(id, true)];
    assert (probe + between + probe)[1..] == between + probe;
    RunSplit(s, first, between, probe);
    StepLawful(s, es, Probe(id, true), id);
    RankKept(s, first, between, id);
    RunLawful(s, first, between, id);
    var mid := Final(s, first, between);
    assert probe[1..] == [];
    assert Final(s, mid, probe) == After(s, mid, probe[0]);
  }

  lemma {:induction false} RunSplit(s: Settings, es: Entries, a: seq<Step>, b: seq<Step>)
    requires IsRun(s, es, a + b)
    ensures IsRun(s, es, a) && IsRun(s, Final(s, es, a), b)
    ensures Final(s, es, a + b) == Final(s, Final(s, es, a), b)
    decreases |a|
  {
    if a == [] {
      assert a + b == b;
    } else {
      assert (a + b)[1..] == a[1..] + b;
      RunSplit(s, After(s, es, a[0]), a[1..], b);
    }
  }
}
