/** Choosing the order in which a route's targets are tried (src/router/mod.rs). */
module Selection {
  import opened Base
  import opened Domain
  import opened Routing
  import opened Ordering

  // ---------------------------------------------------------------- cooldown

  predicate Warm(now: int, t: Target) {
    t.entry.cooldownUntil <= now
  }

  /** The targets that are warm, or those that are not, in order. */
  function Part(now: int, warm: bool, xs: seq<Target>): seq<Target> {
    if xs == [] then []
    else Part(now, warm, xs[..|xs| - 1]) + if Warm(now, xs[|xs| - 1]) == warm then [xs[|xs| - 1]] else []
  }

  predicate WarmsNoLater(a: Target, b: Target) {
    a.entry.cooldownUntil <= b.entry.cooldownUntil
  }

  /** Warm targets in their order; if there is none, all of them, soonest to warm first. */
  function WarmFirst(now: int, items: seq<Target>): seq<Target> {
    if Part(now, true, items) == [] then StableSort(WarmsNoLater, Part(now, false, items)) else Part(now, true, items)
  }

  lemma {:induction false} PartMembers(now: int, warm: bool, xs: seq<Target>)
    ensures forall x :: multiset(Part(now, warm, xs))[x] == if Warm(now, x) == warm then multiset(xs)[x] else 0
  {
    if xs != [] {
      var front, last := xs[..|xs| - 1], xs[|xs| - 1];
      PartMembers(now, warm, front);
      assert xs == front + [last];
      forall x
        ensures multiset(Part(now, warm, xs))[x] == if Warm(now, x) == warm then multiset(xs)[x] else 0
      {
        assert multiset(xs)[x] == multiset(front)[x] + if x == last then 1 else 0;
      }
    }
  }

  lemma {:induction false} PartAll(now: int, warm: bool, xs: seq<Target>)
    requires forall x | x in xs :: Warm(now, x) == warm
    ensures Part(now, warm, xs) == xs
  {
    if xs != [] {
      PartAll(now, warm, xs[..|xs| - 1]);
    }
  }

  /**
   * No request is stranded and none is spent on a parked target while a warm one is left: the result holds exactly the
   * warm targets in their order, or, when none is warm, all of them in the order in which they warm up.
   */
  lemma WarmFirstNeverStrands(now: int, items: seq<Target>)
    ensures var result := WarmFirst(now, items);
            if exists t | t in items :: Warm(now, t)
            then && result == Part(now, true, items)
                 && forall x :: multiset(result)[x] == if Warm(now, x) then multiset(items)[x] else 0
            else && result == StableSort(WarmsNoLater, items)
                 && multiset(result) == multiset(items)
                 && Sorted(WarmsNoLater, result)
    ensures WarmFirst(now, items) == [] <==> items == []
  {
    PartMembers(now, true, items);
    PartMembers(now, false, items);
    if t :| t in items && Warm(now, t) {
      assert multiset(items)[t] > 0;
      assert multiset(Part(now, true, items))[t] > 0;
    } else {
      if Part(now, true, items) != [] {
        assert multiset(Part(now, true, items))[Part(now, true, items)[0]] > 0;
      }
      PartAll(now, false, items);
      StableSortCorrect(WarmsNoLater, items);
      assert |WarmFirst(now, items)| == |multiset(WarmFirst(now, items))| == |multiset(items)| == |items|;
    }
  }

  // ---------------------------------------------------------------- price

  predicate PriceKnown(t: Target) {
    t.entry.pricePer1m > 0.0
  }

  /** Cheap first; a price that is not positive is unknown and ranks after every known one. */
  predicate NoDearer(a: Target, b: Target) {
    !PriceKnown(b) || (PriceKnown(a) && a.entry.pricePer1m <= b.entry.pricePer1m)
  }

  /** Economy order: every known price before every unknown one, known prices ascending, ties as they were. */
  lemma EconomyOrder(xs: seq<Target>)
    ensures var sorted := StableSort(NoDearer, xs);
            && multiset(sorted) == multiset(xs)
            && (forall i, j | 0 <= i < j < |sorted| && PriceKnown(sorted[j]) ::
                  PriceKnown(sorted[i]) && sorted[i].entry.pricePer1m <= sorted[j].entry.pricePer1m)
            && (forall r :: Class(NoDearer, sorted, r) == Class(NoDearer, xs, r))
  {
    StableSortCorrect(NoDearer, xs);
    var sorted := StableSort(NoDearer, xs);
    forall i, j | 0 <= i < j < |sorted| && PriceKnown(sorted[j])
      ensures PriceKnown(sorted[i]) && sorted[i].entry.pricePer1m <= sorted[j].entry.pricePer1m
    {
      assert NoDearer(sorted[i], sorted[j]);
    }
  }

  // ---------------------------------------------------------------- weights

  function SumTo(ws: seq<real>, n: nat): real
    requires n <= |ws|
  {
    if n == 0 then 0.0 else SumTo(ws, n - 1) + ws[n - 1]
  }

  /** Position `i` is the first at which the weights so far reach the draw. */
  predicate Reaches(ws: seq<real>, draw: real, i: nat) {
    && i < |ws| && draw <= SumTo(ws, i + 1)
    && forall j | 1 <= j <= i :: draw > SumTo(ws, j)
  }

  function Pick(ws: seq<real>, draw: real, from: nat): (k: nat)
    requires from <= |ws|
    ensures ws != [] ==> k < |ws|
    decreases |ws| - from
  {
    if from == |ws| then 0
    else if draw - SumTo(ws, from + 1) <= 0.0 then from
    else Pick(ws, draw, from + 1)
  }

  lemma {:induction false} PickReaches(ws: seq<real>, draw: real, from: nat, i: nat)
    requires from <= i && Reaches(ws, draw, i)
    ensures Pick(ws, draw, from) == i
    decreases i - from
  {
    if from < i {
      PickReaches(ws, draw, from + 1, i);
    }
  }

  predicate NonNegative(ws: seq<real>) {
    forall w | w in ws :: w >= 0.0
  }

  lemma {:induction false} SumMonotone(ws: seq<real>, m: nat, n: nat)
    requires NonNegative(ws) && m <= n <= |ws|
    ensures SumTo(ws, m) <= SumTo(ws, n)
    decreases n - m
  {
    if m < n {
      SumMonotone(ws, m, n - 1);
      assert ws[n - 1] in ws;
    }
  }

  /**
   * Weighted choice is proportional: a positive draw below the total picks position `i` exactly when it falls into the
   * half-open interval of length `ws[i]` that starts at the weights before `i`.
   */
  lemma PickInterval(ws: seq<real>, draw: real, i: nat)
    requires NonNegative(ws) && i < |ws|
    requires 0.0 < draw <= SumTo(ws, |ws|)
    ensures Pick(ws, draw, 0) == i <==> SumTo(ws, i) < draw <= SumTo(ws, i + 1)
    ensures SumTo(ws, i + 1) - SumTo(ws, i) == ws[i]
  {
    var k := FirstReaching(ws, draw, 0);
    PickReaches(ws, draw, 0, k);
    if k > 0 {
      assert draw > SumTo(ws, k);
    }
    if i < k {
      assert draw > SumTo(ws, i + 1);
    } else if i > k {
      SumMonotone(ws, k + 1, i);
    }
  }

  lemma {:induction false} FirstReaching(ws: seq<real>, draw: real, from: nat) returns (k: nat)
    requires from < |ws| && draw <= SumTo(ws, |ws|)
    requires forall j | 1 <= j <= from :: draw > SumTo(ws, j)
    ensures Reaches(ws, draw, k)
    decreases |ws| - from
  {
    if draw <= SumTo(ws, from + 1) {
      k := from;
    } else {
      k := FirstReaching(ws, draw, from + 1);
    }
  }

  /** A weightless target leads exactly when it comes first and the draw is exactly zero. */
  lemma ZeroWeightLeads(ws: seq<real>, draw: real)
    requires NonNegative(ws) && ws != [] && 0.0 <= draw < SumTo(ws, |ws|)
    ensures Pick(ws, draw, 0) < |ws|
    ensures ws[Pick(ws, draw, 0)] == 0.0 <==> draw == 0.0 && ws[0] == 0.0
  {
    assert ws[0] in ws && SumTo(ws, 1) == SumTo(ws, 0) + ws[0];
    if draw > 0.0 {
      var k := FirstReaching(ws, draw, 0);
      PickReaches(ws, draw, 0, k);
      PickInterval(ws, draw, k);
    }
  }

  /** It does happen: the draw is taken from a range that includes zero. */
  lemma ZeroWeightCanLead()
    ensures var ws := [0.0, 1.0];
            NonNegative(ws) && 0.0 < SumTo(ws, |ws|) && Pick(ws, 0.0, 0) == 0 && ws[0] == 0.0
  {
    var ws := [0.0, 1.0];
    assert SumTo(ws, 1) == SumTo(ws, 0) + ws[0];
    assert SumTo(ws, 2) == SumTo(ws, 1) + ws[1];
  }

  function Weights(targets: seq<Target>): (ws: seq<real>)
    ensures |ws| == |targets|
    ensures forall i | 0 <= i < |ws| :: ws[i] == targets[i].entry.weight
  {
    seq(|targets|, i requires 0 <= i < |targets| => targets[i].entry.weight)
  }

  function TotalOf(targets: seq<Target>): real {
    SumTo(Weights(targets), |targets|)
  }

  /** The list with a target chosen by weight in the lead; unchanged without a choice or without weight. */
  function WeightedOrder(targets: seq<Target>, draw: real): seq<Target> {
    if |targets| <= 1 || TotalOf(targets) <= 0.0 then targets
    else RotateLeft(targets, Pick(Weights(targets), draw, 0))
  }

  // ---------------------------------------------------------------- turns

  type Counters = map<int, nat>

  function CounterOf(counters: Counters, routeId: int): nat {
    if routeId in counters then counters[routeId] else 0
  }

  /** Which of `len` targets leads the next request to a route. */
  function LeaderOf(counters: Counters, routeId: int, len: nat): nat
    requires len > 0
  {
    CounterOf(counters, routeId) % len
  }

  function AfterTurn(counters: Counters, routeId: int, len: nat): Counters {
    if len <= 1 then counters else counters[routeId := (CounterOf(counters, routeId) + 1) % len]
  }

  class RoutingState {
    var counters: Counters

    constructor ()
      ensures counters == map[]
    {
      counters := map[];
    }

    method RotateRoundRobin(routeId: int, targets: array<Target>)
      modifies this, targets
      ensures counters == AfterTurn(old(counters), routeId, targets.Length)
      ensures targets[..] == if targets.Length <= 1 then old(targets[..])
                             else RotateLeft(old(targets[..]), LeaderOf(old(counters), routeId, targets.Length))
    {
      if targets.Length <= 1 {
        return;
      }
      if routeId !in counters {
        counters := counters[routeId := 0];
      }
      var idx := counters[routeId];
      var len := targets.Length;
      var split := idx % len;
      RotateArray(targets, split);
      counters := counters[routeId := (idx + 1) % len];
    }

    /** `draw` is a random share of the total weight: at least 0 and below it. */
    method ShuffleWeighted(targets: array<Target>, draw: real)
      modifies targets
      ensures targets[..] == WeightedOrder(old(targets[..]), draw)
    {
      if targets.Length <= 1 {
        return;
      }
      var total := TotalWeight(targets);
      if total <= 0.0 {
        return;
      }
      ghost var before := targets[..];
      var chosen := Choose(targets, draw);
      assert WeightedOrder(before, draw) == RotateLeft(before, chosen);
      RotateArray(targets, chosen);
    }

    method TotalWeight(targets: array<Target>) returns (total: real)
      ensures total == TotalOf(targets[..])
    {
      ghost var ws := Weights(targets[..]);
      total := 0.0;
      for i := 0 to targets.Length
        invariant total == SumTo(ws, i)
      {
        total := total + targets[i].entry.weight;
      }
    }

    /** Subtracts the weights from the draw until it is used up. */
    method Choose(targets: array<Target>, draw: real) returns (chosen: nat)
      requires targets.Length > 0
      ensures chosen == Pick(Weights(targets[..]), draw, 0) && chosen < targets.Length
    {
      ghost var ws := Weights(targets[..]);
      var pick := draw;
      chosen := 0;
      for i := 0 to targets.Length
        invariant chosen == 0 && pick == draw - SumTo(ws, i)
        invariant Pick(ws, draw, 0) == Pick(ws, draw, i)
      {
        pick := pick - targets[i].entry.weight;
        assert pick == draw - SumTo(ws, i + 1);
        if pick <= 0.0 {
          return i;
        }
      }
    }
  }

  /** One request: the route it goes to and how many targets that route then has. */
  datatype Turn = Turn(routeId: int, len: nat)

  function AfterTurns(counters: Counters, turns: seq<Turn>): Counters
    decreases |turns|
  {
    if turns == [] then counters else AfterTurns(AfterTurn(counters, turns[0].routeId, turns[0].len), turns[1..])
  }

  /** Who leads the requests to one route, in order, whatever else is requested in between. */
  function Leaders(counters: Counters, turns: seq<Turn>, routeId: int): seq<nat>
    requires forall t | t in turns :: t.routeId == routeId ==> t.len > 0
    decreases |turns|
  {
    if turns == [] then []
    else
      assert forall t | t in turns[1..] :: t in turns;
      (if turns[0].routeId == routeId then [LeaderOf(counters, routeId, turns[0].len)] else [])
      + Leaders(AfterTurn(counters, turns[0].routeId, turns[0].len), turns[1..], routeId)
  }

  lemma MulPositive(a: int, b: nat)
    requires a >= 1
    ensures a * b >= b
  {
    if a > 1 {
      MulPositive(a - 1, b);
      assert a * b == (a - 1) * b + b;
    }
  }

  /** Quotient and remainder are what their defining equation says. */
  lemma DivMod(a: nat, q: int, r: nat, len: nat)
    requires len > 0 && r < len && a == q * len + r
    ensures a % len == r && a / len == q
  {
    var q', r' := a / len, a % len;
    assert a == q' * len + r';
    assert (q - q') * len == r' - r;
    if q > q' {
      MulPositive(q - q', len);
    } else if q < q' {
      MulPositive(q' - q, len);
    }
  }

  /** Counting up by one. */
  lemma DivStep(a: nat, len: nat)
    requires len > 0
    ensures a % len + 1 < len ==> (a + 1) / len == a / len && (a + 1) % len == a % len + 1
    ensures a % len + 1 == len ==> (a + 1) / len == a / len + 1 && (a + 1) % len == 0
  {
    var q, r := a / len, a % len;
    assert a == q * len + r;
    if r + 1 < len {
      DivMod(a + 1, q, r + 1, len);
    } else {
      assert a + 1 == (q + 1) * len;
      DivMod(a + 1, q + 1, 0, len);
    }
  }

  /** The requests to a route with a constant number of targets are led in strict rotation. */
  lemma {:induction false} LeadersRotate(counters: Counters, turns: seq<Turn>, routeId: int, len: nat, k: nat)
    requires len >= 2 && forall t | t in turns :: t.routeId == routeId ==> t.len == len
    requires k < |Leaders(counters, turns, routeId)|
    ensures Leaders(counters, turns, routeId)[k] == (CounterOf(counters, routeId) + k) % len
    decreases |turns|
  {
    var turn := turns[0];
    var next := AfterTurn(counters, turn.routeId, turn.len);
    assert turn in turns && forall t | t in turns[1..] :: t in turns;
    if turn.routeId != routeId {
      LeadersRotate(next, turns[1..], routeId, len, k);
    } else if k > 0 {
      LeadersRotate(next, turns[1..], routeId, len, k - 1);
      var c := CounterOf(counters, routeId);
      ModAdd(c + 1, k - 1, len);
    }
  }

  lemma {:induction false} ModAdd(a: nat, k: nat, len: nat)
    requires len > 0
    ensures (a % len + k) % len == (a + k) % len
  {
    var q, r := a / len, a % len;
    var q2, r2 := (r + k) / len, (r + k) % len;
    assert a + k == (q + q2) * len + r2;
    DivMod(a + k, q + q2, r2, len);
  }

  /** How often `who` occurs. */
  function Count(xs: seq<nat>, who: nat): nat {
    if xs == [] then 0 else Count(xs[..|xs| - 1], who) + if xs[|xs| - 1] == who then 1 else 0
  }

  /** `m` consecutive turns starting at counter value `start`. */
  function Window(start: nat, m: nat, len: nat): seq<nat>
    requires len > 0
  {
    seq(m, i requires 0 <= i < m => (start + i) % len)
  }

  /** Position of `who` in the rotation that starts at `start`. */
  function Ahead(start: nat, who: nat, len: nat): nat
    requires who < len
  {
    (who + len - start % len) % len
  }

  /** In a rotation, target `who` leads at exactly the turns that are its distance from the start modulo the length. */
  lemma TurnOf(start: nat, i: nat, who: nat, len: nat)
    requires who < len
    ensures (start + i) % len == who <==> i % len == Ahead(start, who, len)
  {
    var s := start % len;
    ModAdd(start, i, len);
    var q, r := i / len, i % len;
    assert i == q * len + r;
    ModAdd(i, s, len);
    assert (s + i) % len == (r + s) % len;
    if s + r < len {
      DivMod(s + r, 0, s + r, len);
    } else {
      DivMod(s + r, 1, s + r - len, len);
    }
    var d := who + len - s;
    if d < len {
      DivMod(d, 0, d, len);
    } else {
      DivMod(d, 1, d - len, len);
    }
  }

  /** `who` has led exactly the turns of its residue: a floor, plus one if the last round already reached it. */
  lemma {:induction false} WindowCount(start: nat, m: nat, who: nat, len: nat)
    requires who < len
    ensures Count(Window(start, m, len), who) == m / len + if Ahead(start, who, len) < m % len then 1 else 0
  {
    if m == 0 {
      DivMod(0, 0, 0, len);
      assert 0 / len == 0;
    } else {
      var w := Window(start, m, len);
      assert w[..m - 1] == Window(start, m - 1, len);
      WindowCount(start, m - 1, who, len);
      TurnOf(start, m - 1, who, len);
      DivStep(m - 1, len);
    }
  }

  /**
   * Round robin is fair: over any consecutive requests to a route with a constant number of targets, every target leads
   * either the floor or the ceiling of its even share, whatever requests to other routes come in between.
   */
  lemma RoundRobinFair(counters: Counters, turns: seq<Turn>, routeId: int, len: nat, a: nat, b: nat, who: nat)
    requires len >= 2 && who < len && forall t | t in turns :: t.routeId == routeId ==> t.len == len
    requires a <= b <= |Leaders(counters, turns, routeId)|
    ensures var led := Count(Leaders(counters, turns, routeId)[a..b], who);
            led == (b - a) / len || (led == (b - a) / len + 1 && (b - a) % len != 0)
  {
    var leaders, start := Leaders(counters, turns, routeId), CounterOf(counters, routeId) + a;
    forall i | 0 <= i < b - a
      ensures leaders[a..b][i] == (start + i) % len
    {
      LeadersRotate(counters, turns, routeId, len, a + i);
    }
    assert leaders[a..b] == Window(start, b - a, len);
    WindowCount(start, b - a, who, len);
  }

  // ---------------------------------------------------------------- cooldown, by the clock

  /** Positions of a list in increasing order. */
  predicate Positions(at: seq<nat>, n: nat) {
    && (forall i | 0 <= i < |at| :: at[i] < n)
    && forall i, j | 0 <= i < j < |at| :: at[i] < at[j]
  }

  lemma {:induction false} PartInOrder(now: int, warm: bool, xs: seq<Target>) returns (at: seq<nat>)
    ensures Positions(at, |xs|) && |at| == |Part(now, warm, xs)|
    ensures forall i | 0 <= i < |at| :: Part(now, warm, xs)[i] == xs[at[i]]
    ensures forall k | 0 <= k < |xs| :: k in at <==> (xs[k].entry.cooldownUntil <= now <==> warm)
  {
    at := [];
    if xs != [] {
      var n := |xs| - 1;
      var front := xs[..n];
      var before := PartInOrder(now, warm, front);
      assert Part(now, warm, xs) == Part(now, warm, front) + if Warm(now, xs[n]) == warm then [xs[n]] else [];
      hide Part;
      if Warm(now, xs[n]) == warm {
        at := before + [n];
        assert Part(now, warm, xs) == Part(now, warm, front) + [xs[n]];
      } else {
        at := before;
        assert n !in at;
      }
      forall k | 0 <= k < |xs|
        ensures k in at <==> (Warm(now, xs[k]) == warm)
      {
        assert k < n ==> front[k] == xs[k];
      }
    }
  }

  /**
   * If some target's cooldown is over, the result is exactly those whose cooldown is over, in their order; otherwise it
   * is all targets, those whose cooldown ends sooner first.
   */
  lemma WarmFirstByClock(now: int, items: seq<Target>) returns (at: seq<nat>)
    ensures Positions(at, |items|)
    ensures forall k | 0 <= k < |items| :: k in at <==> items[k].entry.cooldownUntil <= now
    ensures at != [] ==> |WarmFirst(now, items)| == |at|
                         && forall i | 0 <= i < |at| :: WarmFirst(now, items)[i] == items[at[i]]
    ensures at == [] ==>
              var result := WarmFirst(now, items);
              && multiset(result) == multiset(items)
              && forall i, j | 0 <= i < j < |result| :: result[i].entry.cooldownUntil <= result[j].entry.cooldownUntil
  {
    at := PartInOrder(now, true, items);
    WarmFirstNeverStrands(now, items);
    hide WarmFirst, Part;
    if at == [] {
      NoneWarm(now, items, at);
      var result := WarmFirst(now, items);
      forall i, j | 0 <= i < j < |result|
        ensures result[i].entry.cooldownUntil <= result[j].entry.cooldownUntil
      {
        assert WarmsNoLater(result[i], result[j]);
      }
    } else {
      assert at[0] in at && Warm(now, items[at[0]]) && items[at[0]] in items;
    }
  }

  lemma NoneWarm(now: int, items: seq<Target>, at: seq<nat>)
    requires at == [] && forall k | 0 <= k < |items| :: k in at <==> items[k].entry.cooldownUntil <= now
    ensures !(exists t | t in items :: Warm(now, t))
  {
    forall t | t in items
      ensures !Warm(now, t)
    {
      var k :| 0 <= k < |items| && items[k] == t;
      assert k !in at;
    }
  }

  /** Economy: known prices, which are positive, come before unknown ones and ascend. */
  lemma EconomyByPrice(xs: seq<Target>, i: nat, j: nat)
    requires i < j < |StableSort(NoDearer, xs)|
    ensures var a, b := StableSort(NoDearer, xs)[i].entry.pricePer1m, StableSort(NoDearer, xs)[j].entry.pricePer1m;
            b > 0.0 ==> 0.0 < a <= b
  {
    EconomyOrder(xs);
  }
}
