/** The per-profile sliding-window rate limiter (src/server/ratelimit.rs). Times are in milliseconds. */
module RateLimit {
  import opened Base

  /** How far back the sliding window reaches. */
  const WINDOW := 60_000

  type Windows = map<string, seq<int>>

  function WindowOf(ws: Windows, key: string): seq<int> {
    if key in ws then ws[key] else []
  }

  /** The window after dropping expired hits from its front. */
  function Evicted(w: seq<int>, now: int): seq<int> {
    if w != [] && now - w[0] >= WINDOW then Evicted(w[1..], now) else w
  }

  /** The hits younger than `age`, in order. */
  function Younger(w: seq<int>, now: int, age: int): seq<int> {
    if w == [] then []
    else Younger(w[..|w| - 1], now, age) + if now - w[|w| - 1] < age then [w[|w| - 1]] else []
  }

  function Admits(ws: Windows, key: string, limit: int, now: int): bool {
    |Evicted(WindowOf(ws, key), now)| < limit
  }

  function Checked(ws: Windows, key: string, limit: int, now: int): Windows {
    var w := Evicted(WindowOf(ws, key), now);
    ws[key := if |w| < limit then w + [now] else w]
  }

  function Pruned(ws: Windows, now: int, age: int): Windows {
    map k | k in ws && Younger(ws[k], now, age) != [] :: Younger(ws[k], now, age)
  }

  class RateLimiter {
    var windows: Windows

    constructor ()
      ensures windows == map[]
    {
      windows := map[];
    }

    /** Records a hit unless the window is full; a refused hit is not recorded. */
    method Check(key: string, limit: int, now: int) returns (ok: bool)
      modifies this
      ensures ok == Admits(old(windows), key, limit, now)
      ensures windows == Checked(old(windows), key, limit, now)
    {
      if key !in windows {
        windows := windows[key := []];
      }
      var window := windows[key];
      while window != []
        invariant Evicted(window, now) == Evicted(WindowOf(old(windows), key), now)
      {
        if now - window[0] >= WINDOW {
          window := window[1..];
        } else {
          break;
        }
      }
      windows := windows[key := window];
      if |window| >= limit {
        return false;
      }
      windows := windows[key := window + [now]];
      return true;
    }

    /** Drops hits of at least `age`, and keys left without any. */
    method Prune(age: int, now: int)
      modifies this
      ensures windows == Pruned(old(windows), now, age)
    {
      var kept: Windows := map[];
      var todo := windows.Keys;
      while todo != {}
        invariant todo <= windows.Keys
        invariant kept == map k | k in windows && k !in todo && Younger(windows[k], now, age) != [] ::
                            Younger(windows[k], now, age)
        decreases todo
      {
        var k :| k in todo;
        todo := todo - {k};
        var deque := Younger(windows[k], now, age);
        if deque != [] {
          kept := kept[k := deque];
        }
      }
      windows := kept;
    }
  }

  // ---------------------------------------------------------------- the limiter against one that forgets nothing

  datatype Op = Check(key: string, limit: int, now: int) | Prune(now: int, age: int)

  function After(ws: Windows, op: Op): Windows {
    match op
    case Check(key, limit, now) => Checked(ws, key, limit, now)
    case Prune(now, age) => Pruned(ws, now, age)
  }

  /** The limiter's decisions for one key over a run. */
  function Decisions(ws: Windows, ops: seq<Op>, key: string): seq<bool>
    decreases |ops|
  {
    if ops == [] then []
    else
      (if ops[0].Check? && ops[0].key == key then [Admits(ws, key, ops[0].limit, ops[0].now)] else [])
      + Decisions(After(ws, ops[0]), ops[1..], key)
  }

  /** Hits of a full history that still count. */
  function Fresh(history: seq<int>, now: int): seq<int> {
    Younger(history, now, WINDOW)
  }

  /** Whether a key with this history is admitted when nothing is ever forgotten. */
  predicate Entitled(history: seq<int>, limit: int, now: int) {
    |Fresh(history, now)| < limit
  }

  /** The decisions of a limiter that keeps one key's whole history and knows nothing of other keys. */
  function Ideal(history: seq<int>, ops: seq<Op>, key: string): seq<bool>
    decreases |ops|
  {
    if ops == [] then []
    else match ops[0]
         case Check(k, limit, now) =>
           if k != key then Ideal(history, ops[1..], key)
           else if Entitled(history, limit, now) then [true] + Ideal(history + [now], ops[1..], key)
           else [false] + Ideal(history, ops[1..], key)
         case Prune(_, _) => Ideal(history, ops[1..], key)
  }

  /** Calls come in time order, and pruning spares everything inside the window. */
  predicate Timely(start: int, ops: seq<Op>)
    decreases |ops|
  {
    ops == [] || (start <= ops[0].now && (ops[0].Prune? ==> ops[0].age >= WINDOW) && Timely(ops[0].now, ops[1..]))
  }

  predicate Ascending(w: seq<int>) {
    forall i, j | 0 <= i < j < |w| :: w[i] <= w[j]
  }

  lemma AscendingSnoc(w: seq<int>, x: int)
    requires Ascending(w) && forall t | t in w :: t <= x
    ensures Ascending(w + [x])
  {
    var v := w + [x];
    forall i, j | 0 <= i < j < |v|
      ensures v[i] <= v[j]
    {
      assert v[i] == w[i] && w[i] in w;
    }
  }

  lemma {:induction false} YoungerAscends(w: seq<int>, now: int, age: int)
    requires Ascending(w)
    ensures Ascending(Younger(w, now, age)) && forall t | t in Younger(w, now, age) :: t in w
  {
    if w != [] {
      var front, last := w[..|w| - 1], w[|w| - 1];
      assert forall i | 0 <= i < |front| :: front[i] == w[i];
      YoungerAscends(front, now, age);
      forall t | t in front
        ensures t <= last && t in w
      {
        var i :| 0 <= i < |front| && front[i] == t;
      }
      AscendingSnoc(Younger(front, now, age), last);
    }
  }

  lemma {:induction false} AllYounger(w: seq<int>, now: int, age: int)
    requires forall t | t in w :: now - t < age
    ensures Younger(w, now, age) == w
  {
    if w != [] {
      var front := w[..|w| - 1];
      assert w[|w| - 1] in w && forall t | t in front :: t in w;
      AllYounger(front, now, age);
    }
  }

  lemma YoungerSnoc(w: seq<int>, t: int, now: int, age: int)
    ensures Younger(w + [t], now, age) == Younger(w, now, age) + if now - t < age then [t] else []
  {
    assert (w + [t])[..|w + [t]| - 1] == w;
  }

  /** Looking twice, the second time later and no further back, is like looking once. */
  lemma {:induction false} YoungerTwice(w: seq<int>, now: int, age: int, later: int)
    requires now <= later && WINDOW <= age
    ensures Fresh(Younger(w, now, age), later) == Fresh(w, later)
  {
    if w != [] {
      var front, t := w[..|w| - 1], w[|w| - 1];
      YoungerTwice(front, now, age, later);
      if now - t < age {
        YoungerSnoc(Younger(front, now, age), t, later, WINDOW);
      } else {
        assert Younger(w, now, age) == Younger(front, now, age);
      }
    }
  }

  /** In a window in time order, dropping from the front leaves exactly the hits that count. */
  lemma {:induction false} EvictedIsFresh(w: seq<int>, now: int)
    requires Ascending(w)
    ensures Evicted(w, now) == Fresh(w, now)
  {
    if w != [] && now - w[0] >= WINDOW {
      EvictedIsFresh(w[1..], now);
      DropExpired(w, now);
    } else if w != [] {
      assert forall t | t in w :: t >= w[0];
      AllYounger(w, now, WINDOW);
    }
  }

  lemma {:induction false} DropExpired(w: seq<int>, now: int)
    requires w != [] && now - w[0] >= WINDOW
    ensures Fresh(w, now) == Fresh(w[1..], now)
  {
    if |w| > 1 {
      DropExpired(w[..|w| - 1], now);
      assert w[1..][..|w[1..]| - 1] == w[..|w| - 1][1..];
    }
  }

  /** A key's window stands for its history: in time order, and with the same hits that still count. */
  predicate StandsFor(w: seq<int>, history: seq<int>, last: int) {
    && Ascending(w)
    && (forall t | t in w :: t <= last)
    && Fresh(w, last) == Fresh(history, last)
  }

  lemma StandsLater(w: seq<int>, history: seq<int>, last: int, now: int)
    requires StandsFor(w, history, last) && last <= now
    ensures Fresh(w, now) == Fresh(history, now)
    ensures Evicted(w, now) == Fresh(history, now)
    ensures StandsFor(w, history, now)
  {
    YoungerTwice(w, last, WINDOW, now);
    YoungerTwice(history, last, WINDOW, now);
    EvictedIsFresh(w, now);
  }

  lemma StandsAdded(e: seq<int>, history: seq<int>, now: int)
    requires StandsFor(e, history, now)
    ensures StandsFor(e + [now], history + [now], now)
  {
    YoungerSnoc(e, now, now, WINDOW);
    YoungerSnoc(history, now, now, WINDOW);
    AscendingSnoc(e, now);
  }

  lemma StandsChecked(ws: Windows, history: seq<int>, last: int, key: string, limit: int, now: int)
    requires StandsFor(WindowOf(ws, key), history, last) && last <= now
    ensures Admits(ws, key, limit, now) == Entitled(history, limit, now)
    ensures StandsFor(WindowOf(Checked(ws, key, limit, now), key),
                      if Entitled(history, limit, now) then history + [now] else history, now)
  {
    var w := WindowOf(ws, key);
    StandsLater(w, history, last, now);
    YoungerAscends(w, now, WINDOW);
    var e := Evicted(w, now);
    EvictedIsFresh(w, now);
    YoungerTwice(w, now, WINDOW, now);
    if Entitled(history, limit, now) {
      StandsAdded(e, history, now);
    }
  }

  lemma StandsPruned(ws: Windows, history: seq<int>, last: int, key: string, now: int, age: int)
    requires StandsFor(WindowOf(ws, key), history, last) && last <= now && age >= WINDOW
    ensures StandsFor(WindowOf(Pruned(ws, now, age), key), history, now)
  {
    var w := WindowOf(ws, key);
    StandsLater(w, history, last, now);
    YoungerAscends(w, now, age);
    YoungerTwice(w, now, age, now);
    assert WindowOf(Pruned(ws, now, age), key) == Younger(w, now, age);
  }

  lemma {:induction false} DecidesIdeally(ws: Windows, history: seq<int>, last: int, ops: seq<Op>, key: string)
    requires StandsFor(WindowOf(ws, key), history, last) && Timely(last, ops)
    ensures Decisions(ws, ops, key) == Ideal(history, ops, key)
    decreases |ops|
  {
    if ops != [] {
      match ops[0]
      case Check(k, limit, now) =>
        if k == key {
          StandsChecked(ws, history, last, key, limit, now);
          DecidesIdeally(After(ws, ops[0]), if Entitled(history, limit, now) then history + [now] else history,
                         now, ops[1..], key);
        } else {
          StandsLater(WindowOf(ws, key), history, last, now);
          DecidesIdeally(After(ws, ops[0]), history, now, ops[1..], key);
        }
      case Prune(now, age) =>
        StandsPruned(ws, history, last, key, now, age);
        DecidesIdeally(After(ws, ops[0]), history, now, ops[1..], key);
    }
  }

  /**
   * From the start, over any interleaving of checks of all keys and of prunings, the limiter decides for each key like
   * one that never forgets a hit and never sees another key.
   */
  lemma ForgetsNothing(ops: seq<Op>, start: int, key: string)
    requires Timely(start, ops)
    ensures Decisions(map[], ops, key) == Ideal([], ops, key)
  {
    DecidesIdeally(map[], [], start, ops, key);
  }

  /** Pruning with a shorter age would break this, whatever the age: the run admits a hit it should refuse. */
  lemma ShortPruneForgets(key: string, age: int)
    requires 0 <= age < WINDOW
    ensures var ops := [Check(key, 1, 0), Prune(age, age), Check(key, 1, age)];
            Decisions(map[], ops, key) == [true, true] && Ideal([], ops, key) == [true, false]
  {
    var ops := [Check(key, 1, 0), Prune(age, age), Check(key, 1, age)];
    var ws0: Windows := map[];
    var ws1 := After(ws0, ops[0]);
    var ws2 := After(ws1, ops[1]);
    var empty: seq<int> := [];
    YoungerSnoc(empty, 0, age, age);
    YoungerSnoc(empty, 0, age, WINDOW);
    assert empty + [0] == [0];
    assert WindowOf(ws1, key) == [0] && Younger([0], age, age) == [] && key !in ws2;
    assert Fresh([0], age) == [0];
    assert Admits(ws0, key, 1, 0) && Admits(ws2, key, 1, age);
    hide After, Admits, Younger, Fresh;
    var rest: seq<Op> := ops[3..];
    assert rest == [] && ops[1..][0] == ops[1] && ops[1..][1..] == ops[2..];
    assert ops[2..][0] == ops[2] && ops[2..][1..] == rest;
    assert Decisions(ws2, ops[2..], key) == [true] + Decisions(After(ws2, ops[2]), rest, key);
    assert Ideal([0], ops[2..], key) == [false] + Ideal([0], rest, key);
  }

  // ---------------------------------------------------------------- the promise to the upstream

  /** The times of the requests a run admits for a key. */
  function Admitted(history: seq<int>, ops: seq<Op>, key: string): seq<int>
    decreases |ops|
  {
    if ops == [] then history else Admitted(WithHit(history, ops[0], key), ops[1..], key)
  }

  function WithHit(history: seq<int>, op: Op, key: string): seq<int> {
    if op.Check? && op.key == key && Entitled(history, op.limit, op.now) then history + [op.now] else history
  }

  /** How many hits fall into the half-open interval of a minute, in milliseconds, from `x`. */
  function InInterval(history: seq<int>, x: int): nat {
    if history == [] then 0
    else InInterval(history[..|history| - 1], x) + if x <= history[|history| - 1] < x + 60_000 then 1 else 0
  }

  /** Every hit was admitted with room to spare. */
  predicate Earned(history: seq<int>, limit: int) {
    history == []
    || (var front, t := history[..|history| - 1], history[|history| - 1];
        Earned(front, limit) && Entitled(front, limit, t))
  }

  /** Hits of an interval that ends no earlier than `now` still count at `now`. */
  lemma {:induction false} IntervalIsFresh(history: seq<int>, x: int, now: int)
    requires x <= now < x + WINDOW
    ensures InInterval(history, x) <= |Fresh(history, now)|
  {
    if history != [] {
      IntervalIsFresh(history[..|history| - 1], x, now);
    }
  }

  lemma {:induction false} EarnedInterval(history: seq<int>, limit: int, x: int)
    requires Earned(history, limit)
    ensures InInterval(history, x) <= if limit < 0 then 0 else limit
  {
    if history != [] {
      var front, t := history[..|history| - 1], history[|history| - 1];
      EarnedInterval(front, limit, x);
      if x <= t < x + WINDOW {
        IntervalIsFresh(front, x, t);
      }
    }
  }

  lemma {:induction false} AdmittedEarned(history: seq<int>, ops: seq<Op>, key: string, limit: int)
    requires Earned(history, limit)
    requires forall op | op in ops :: op.Check? && op.key == key ==> op.limit == limit
    ensures Earned(Admitted(history, ops, key), limit)
    decreases |ops|
  {
    if ops != [] {
      var next := history + [ops[0].now];
      assert next[..|next| - 1] == history;
      assert ops[0] in ops && forall op | op in ops[1..] :: op in ops;
      AdmittedEarned(WithHit(history, ops[0], key), ops[1..], key, limit);
    }
  }

  /** The times of the requests the limiter itself admits for a key. */
  function Hits(ws: Windows, ops: seq<Op>, key: string): seq<int>
    decreases |ops|
  {
    if ops == [] then [] else HitOf(ws, ops[0], key) + Hits(After(ws, ops[0]), ops[1..], key)
  }

  function HitOf(ws: Windows, op: Op, key: string): seq<int> {
    if op.Check? && op.key == key && Admits(ws, key, op.limit, op.now) then [op.now] else []
  }

  /** One operation, seen from one key. */
  lemma StandsStep(ws: Windows, history: seq<int>, last: int, op: Op, key: string)
    requires StandsFor(WindowOf(ws, key), history, last) && Timely(last, [op])
    ensures StandsFor(WindowOf(After(ws, op), key), WithHit(history, op, key), op.now)
    ensures WithHit(history, op, key) == history + HitOf(ws, op, key)
  {
    match op
    case Check(k, limit, now) =>
      StandsLater(WindowOf(ws, key), history, last, now);
      if k == key {
        StandsChecked(ws, history, last, key, limit, now);
      }
    case Prune(now, age) =>
      StandsPruned(ws, history, last, key, now, age);
  }

  lemma {:induction false} HitsAreAdmitted(ws: Windows, history: seq<int>, last: int, ops: seq<Op>, key: string)
    requires StandsFor(WindowOf(ws, key), history, last) && Timely(last, ops)
    ensures history + Hits(ws, ops, key) == Admitted(history, ops, key)
    decreases |ops|
  {
    if ops != [] {
      StandsStep(ws, history, last, ops[0], key);
      HitsAreAdmitted(After(ws, ops[0]), WithHit(history, ops[0], key), ops[0].now, ops[1..], key);
      Assoc(history, HitOf(ws, ops[0], key), Hits(After(ws, ops[0]), ops[1..], key));
    } else {
      assert history + [] == history;
    }
  }

  /** No half-open interval of 60 seconds ever holds more admitted requests of a key than its fixed limit. */
  lemma NeverOverLimit(ops: seq<Op>, start: int, key: string, limit: int, x: int)
    requires Timely(start, ops)
    requires forall op | op in ops :: op.Check? && op.key == key ==> op.limit == limit
    ensures InInterval(Hits(map[], ops, key), x) <= if limit < 0 then 0 else limit
  {
    HitsAreAdmitted(map[], [], start, ops, key);
    AdmittedEarned([], ops, key, limit);
    EarnedInterval(Admitted([], ops, key), limit, x);
    assert [] + Hits(map[], ops, key) == Hits(map[], ops, key);
  }

  // ---------------------------------------------------------------- sixty seconds

  lemma {:induction false} FreshCounted(history: seq<int>, now: int)
    ensures |Fresh(history, now)| == |set i | 0 <= i < |history| && now - history[i] < 60_000|
  {
    var counted := set i | 0 <= i < |history| && now - history[i] < 60_000;
    if history == [] {
      assert counted == {};
    } else {
      var k := |history| - 1;
      var front := history[..k];
      var before := set i | 0 <= i < |front| && now - front[i] < 60_000;
      FreshCounted(front, now);
      assert counted == before + if now - history[k] < 60_000 then {k} else {};
    }
  }

  lemma {:induction false} AdmitsFrom(ws: Windows, history: seq<int>, last: int, ops: seq<Op>, key: string, limit: int,
                                       now: int)
    requires StandsFor(WindowOf(ws, key), history, last) && Timely(last, ops + [Check(key, limit, now)])
    ensures var hits := history + Hits(ws, ops, key);
            Admits(AfterAll(ws, ops), key, limit, now)
            <==> |set i | 0 <= i < |hits| && now - hits[i] < 60_000| < limit
    decreases |ops|
  {
    var check := Check(key, limit, now);
    if ops == [] {
      assert ops + [check] == [check] && history + Hits(ws, ops, key) == history;
      StandsLater(WindowOf(ws, key), history, last, now);
      FreshCounted(history, now);
    } else {
      assert (ops + [check])[1..] == ops[1..] + [check];
      StandsStep(ws, history, last, ops[0], key);
      AdmitsFrom(After(ws, ops[0]), WithHit(history, ops[0], key), ops[0].now, ops[1..], key, limit, now);
      Assoc(history, HitOf(ws, ops[0], key), Hits(After(ws, ops[0]), ops[1..], key));
    }
  }

  function AfterAll(ws: Windows, ops: seq<Op>): Windows
    decreases |ops|
  {
    if ops == [] then ws else AfterAll(After(ws, ops[0]), ops[1..])
  }

  /**
   * After any run a request of a key is admitted exactly when fewer requests than the limit were admitted for that key
   * in the last sixty seconds, one exactly sixty seconds ago no longer among them.
   */
  lemma AdmitsIff(start: int, ops: seq<Op>, key: string, limit: int, now: int)
    requires Timely(start, ops + [Check(key, limit, now)])
    ensures var hits := Hits(map[], ops, key);
            Admits(AfterAll(map[], ops), key, limit, now)
            <==> |set i | 0 <= i < |hits| && now - hits[i] < 60_000| < limit
  {
    var none: seq<int> := [];
    AdmitsFrom(map[], none, start, ops, key, limit, now);
    assert none + Hits(map[], ops, key) == Hits(map[], ops, key);
  }
}
