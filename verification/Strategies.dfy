/** What each routing strategy does to the order of the targets, in terms of counters, weights and prices. */
module Strategies {
  import opened Base
  import opened Domain
  import opened Routing
  import opened Ordering
  import opened Selection
  import opened Resolution

  /** The summed weights of the first `k` targets. */
  function WeightOf(ts: seq<Target>, k: nat): real
    requires k <= |ts|
  {
    if k == 0 then 0.0 else WeightOf(ts, k - 1) + ts[k - 1].entry.weight
  }

  lemma {:induction false} WeightIs(ts: seq<Target>, k: nat)
    requires k <= |ts|
    ensures SumTo(Weights(ts), k) == WeightOf(ts, k)
  {
    if k > 0 {
      WeightIs(ts, k - 1);
    }
  }

  /** `out` is `ts` begun at position `k` and wrapped around. */
  predicate BegunAt(out: seq<Target>, ts: seq<Target>, k: nat) {
    && k < |ts| && |out| == |ts|
    && forall i | 0 <= i < |ts| :: out[i] == if i + k < |ts| then ts[i + k] else ts[i + k - |ts|]
  }

  /** Priority keeps the order. */
  lemma PriorityKeeps(counters: Counters, routeId: int, draw: real, ts: seq<Target>)
    ensures Ordered(Priority, counters, routeId, draw, ts) == ts
  {
  }

  /** Round robin begins at the route's counter, or at the first target when the route has none yet. */
  lemma RoundRobinBegins(counters: Counters, routeId: int, draw: real, ts: seq<Target>)
    requires ts != []
    ensures BegunAt(Ordered(RoundRobin, counters, routeId, draw, ts), ts,
                    (if routeId in counters then counters[routeId] else 0) % |ts|)
  {
    var n := CounterOf(counters, routeId);
    if |ts| == 1 {
      assert n % 1 == 0;
      RotatedBegins(ts, 0);
    } else {
      RotatedBegins(ts, n % |ts|);
      hide BegunAt;
    }
  }

  lemma RotatedBegins(ts: seq<Target>, k: nat)
    requires k < |ts|
    ensures BegunAt(RotateLeft(ts, k), ts, k)
    ensures k == 0 ==> RotateLeft(ts, k) == ts
  {
  }

  /**
   * The weighted order begins at the target into whose share of the total weight the draw falls; without weights, or
   * with one target, nothing moves.
   */
  lemma WeightedBegins(counters: Counters, routeId: int, draw: real, ts: seq<Target>, k: nat)
    requires (forall t | t in ts :: t.entry.weight >= 0.0) && k < |ts|
    ensures var out, total := Ordered(Weighted, counters, routeId, draw, ts), WeightOf(ts, |ts|);
            && (total <= 0.0 ==> out == ts)
            && (WeightOf(ts, k) < draw <= WeightOf(ts, k + 1) && draw <= total ==> BegunAt(out, ts, k))
  {
    var ws := Weights(ts);
    WeightIs(ts, |ts|);
    WeightIs(ts, k);
    WeightIs(ts, k + 1);
    forall w | w in ws
      ensures w >= 0.0
    {
      var i :| 0 <= i < |ws| && ws[i] == w;
      assert ts[i] in ts;
    }
    hide Weights, Pick, WeightOf;
    if SumTo(ws, k) < draw <= SumTo(ws, k + 1) && draw <= SumTo(ws, |ts|) {
      SumMonotone(ws, 0, k);
      PickInterval(ws, draw, k);
    }
  }

  /** Economy puts known prices, ascending, before unknown ones, and keeps the order among equals. */
  lemma EconomyAscends(counters: Counters, routeId: int, draw: real, ts: seq<Target>)
    ensures var out := Ordered(Economy, counters, routeId, draw, ts);
            && multiset(out) == multiset(ts)
            && (forall i, j | 0 <= i < j < |out| ::
                  out[j].entry.pricePer1m > 0.0 ==> 0.0 < out[i].entry.pricePer1m <= out[j].entry.pricePer1m)
            && forall r :: Class(NoDearer, out, r) == Class(NoDearer, ts, r)
  {
    var out := Ordered(Economy, counters, routeId, draw, ts);
    EconomyOrder(ts);
    forall i, j | 0 <= i < j < |out|
      ensures out[j].entry.pricePer1m > 0.0 ==> 0.0 < out[i].entry.pricePer1m <= out[j].entry.pricePer1m
    {
      EconomyByPrice(ts, i, j);
    }
  }
}
