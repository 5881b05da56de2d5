/** The exact-response cache (src/storage/mod.rs) and its use by buffered requests (src/server/handlers.rs). */
module ResponseCache {
  import opened Base

  datatype Key = Key(routeId: int, hash: string)

  datatype Hit = Hit(body: Bytes, promptTokens: Option<int>, completionTokens: Option<int>)

  datatype Row = Row(hit: Hit, createdAt: int, expiresAt: int)

  type Rows = map<Key, Row>

  function Unexpired(rows: Rows, now: int): Rows {
    map k | k in rows && rows[k].expiresAt > now :: rows[k]
  }

  /** What a lookup at `now` answers. */
  function Answer(rows: Rows, key: Key, now: int): Option<Hit> {
    if key in rows && rows[key].expiresAt > now then Some(rows[key].hit) else None
  }

  function Stored(rows: Rows, key: Key, hit: Hit, now: int, ttl: int): Rows {
    if ttl <= 0 then rows else rows[key := Row(hit, now, now + ttl * 1000)]
  }

  class Cache {
    var rows: Rows

    constructor ()
      ensures rows == map[]
    {
      rows := map[];
    }

    /** Drops every expired row, then looks the key up. */
    method Get(key: Key, now: int) returns (hit: Option<Hit>)
      modifies this
      ensures rows == Unexpired(old(rows), now)
      ensures hit == Answer(old(rows), key, now)
    {
      rows := map k | k in rows && !(rows[k].expiresAt <= now) :: rows[k];
      if key in rows && rows[key].expiresAt > now {
        return Some(rows[key].hit);
      }
      return None;
    }

    /** Stores a response, replacing any earlier one of the same key. */
    method Put(key: Key, hit: Hit, now: int, ttl: int)
      modifies this
      ensures rows == Stored(old(rows), key, hit, now, ttl)
    {
      if ttl <= 0 {
        return;
      }
      rows := rows[key := Row(hit, now, now + ttl * 1000)];
    }

    method Prune(now: int) returns (deleted: nat)
      modifies this
      ensures rows == Unexpired(old(rows), now)
      ensures deleted == |old(rows)| - |rows|
    {
      var before := rows;
      rows := map k | k in rows && !(rows[k].expiresAt <= now) :: rows[k];
      assert rows.Keys <= before.Keys;
      Cardinality(rows.Keys, before.Keys);
      deleted := |before| - |rows|;
    }
  }

  lemma {:induction false} Cardinality<T>(a: set<T>, b: set<T>)
    requires a <= b
    ensures |a| <= |b|
  {
    assert b == a + (b - a);
  }

  // ---------------------------------------------------------------- the cache against one that never deletes

  datatype Op =
    | Get(key: Key, now: int)
    | Put(key: Key, hit: Hit, now: int, ttl: int)
    | Prune(now: int)

  function After(rows: Rows, op: Op): Rows {
    match op
    case Get(_, now) => Unexpired(rows, now)
    case Put(key, hit, now, ttl) => Stored(rows, key, hit, now, ttl)
    case Prune(now) => Unexpired(rows, now)
  }

  /** The rows left by a run, from an empty table. */
  function AfterAll(ops: seq<Op>): Rows {
    if ops == [] then map[] else After(AfterAll(ops[..|ops| - 1]), ops[|ops| - 1])
  }

  /** Operation `op` stores something under `key`. */
  predicate Stores(op: Op, key: Key) {
    op.Put? && op.key == key && op.ttl > 0
  }

  /** The last operation of a run that stored something under `key`. */
  function LastPut(ops: seq<Op>, key: Key): Option<Op> {
    if ops == [] then None
    else if Stores(ops[|ops| - 1], key) then Some(ops[|ops| - 1])
    else LastPut(ops[..|ops| - 1], key)
  }

  /** What a cache that keeps everything would answer: the last response stored, until it expires. */
  function IdealAnswer(ops: seq<Op>, key: Key, now: int): Option<Hit> {
    match LastPut(ops, key)
    case Some(Put(_, hit, at, ttl)) => if now < at + ttl * 1000 then Some(hit) else None
    case _ => None
  }

  /** The operations of a run come in time order. */
  predicate Timely(ops: seq<Op>) {
    forall i, j | 0 <= i < j < |ops| :: ops[i].now <= ops[j].now
  }

  /**
   * With a clock that never goes back, eager deletion is invisible: every lookup, after any run of stores, lookups and
   * prunings, answers like a cache that keeps everything.
   */
  lemma {:induction false} DeletionInvisible(ops: seq<Op>, key: Key, now: int)
    requires Timely(ops) && (ops != [] ==> ops[|ops| - 1].now <= now)
    ensures Answer(AfterAll(ops), key, now) == IdealAnswer(ops, key, now)
  {
    if ops != [] {
      var front, op := ops[..|ops| - 1], ops[|ops| - 1];
      assert forall i | 0 <= i < |front| :: front[i] == ops[i];
      DeletionInvisible(front, key, now);
    }
  }

  /** Every hit is a response stored earlier for that very route and request, none newer was stored, and it is fresh. */
  lemma {:induction false} HitWasStored(ops: seq<Op>, key: Key, now: int) returns (i: nat)
    requires Timely(ops) && (ops != [] ==> ops[|ops| - 1].now <= now)
    requires Answer(AfterAll(ops), key, now).Some?
    ensures i < |ops| && Stores(ops[i], key)
    ensures ops[i].hit == Answer(AfterAll(ops), key, now).value
    ensures now < ops[i].now + ops[i].ttl * 1000
    ensures forall j | i < j < |ops| :: !Stores(ops[j], key)
  {
    DeletionInvisible(ops, key, now);
    i := LastPutAt(ops, key);
  }

  lemma {:induction false} LastPutAt(ops: seq<Op>, key: Key) returns (i: nat)
    requires LastPut(ops, key).Some?
    ensures i < |ops| && Stores(ops[i], key) && LastPut(ops, key) == Some(ops[i])
    ensures forall j | i < j < |ops| :: !Stores(ops[j], key)
  {
    if Stores(ops[|ops| - 1], key) {
      i := |ops| - 1;
    } else {
      i := LastPutAt(ops[..|ops| - 1], key);
    }
  }

  /** A clock that goes back does show: a lookup in between has deleted a row that is fresh again. */
  lemma ClockMustNotGoBack(key: Key, hit: Hit)
    ensures var ops := [Put(key, hit, 0, 1), Get(key, 1000)];
            Answer(AfterAll(ops), key, 500) == None && IdealAnswer(ops, key, 500) == Some(hit)
  {
    var ops := [Put(key, hit, 0, 1), Get(key, 1000)];
    var one: seq<Op> := ops[..1];
    assert one == [ops[0]];
    var none: seq<Op> := one[..0];
    assert none == [];
    assert AfterAll(one) == After(AfterAll(none), ops[0]);
    assert LastPut(one, key) == Some(ops[0]);
  }

  /** When what an operation stored expires. */
  function ExpiryOf(op: Op): int
    requires op.Put?
  {
    op.now + op.ttl * 1000
  }

  /** Operation `i` is the last of a run that stored something under `key`. */
  predicate LastStore(ops: seq<Op>, key: Key, i: nat) {
    i < |ops| && Stores(ops[i], key) && forall k | i < k < |ops| :: !Stores(ops[k], key)
  }

  /** A lookup or pruning that deletes what expires at `expiry`. */
  predicate Sweeps(op: Op, expiry: int) {
    !op.Put? && expiry <= op.now
  }

  predicate SweptFrom(ops: seq<Op>, i: nat)
    requires i < |ops| && ops[i].Put?
  {
    exists j | i < j < |ops| :: Sweeps(ops[j], ExpiryOf(ops[i]))
  }

  /** Since the last response was stored under `key`, a lookup or pruning ran at or past its expiry. */
  predicate Swept(ops: seq<Op>, key: Key) {
    exists i | 0 <= i < |ops| :: LastStore(ops, key, i) && SweptFrom(ops, i)
  }

  /** The same, operation by operation. */
  predicate SweptSoFar(ops: seq<Op>, key: Key) {
    ops != []
    && (var front, op := ops[..|ops| - 1], ops[|ops| - 1];
        && !Stores(op, key)
        && (|| SweptSoFar(front, key)
            || (LastPut(front, key).Some? && LastPut(front, key).value.Put?
                && Sweeps(op, ExpiryOf(LastPut(front, key).value)))))
  }

  /** What a table holds under a key, with any clock: the last response stored, unless it was deleted since. */
  lemma {:induction false} RowLeft(ops: seq<Op>, key: Key)
    ensures LastPut(ops, key).Some? ==> Stores(LastPut(ops, key).value, key)
    ensures key in AfterAll(ops) <==> LastPut(ops, key).Some? && !SweptSoFar(ops, key)
    ensures key in AfterAll(ops) ==>
              var put := LastPut(ops, key).value;
              AfterAll(ops)[key] == Row(put.hit, put.now, ExpiryOf(put))
  {
    if ops != [] {
      RowLeft(ops[..|ops| - 1], key);
    }
  }

  lemma {:induction false} SweptAfter(ops: seq<Op>, key: Key, i: nat)
    requires LastStore(ops, key, i)
    ensures LastPut(ops, key) == Some(ops[i])
    ensures SweptSoFar(ops, key) <==> SweptFrom(ops, i)
    decreases |ops|
  {
    var last := |ops| - 1;
    if i < last {
      var front := ops[..last];
      assert forall k | 0 <= k < last :: front[k] == ops[k];
      SweptAfter(front, key, i);
    }
  }

  lemma {:induction false} NothingSwept(ops: seq<Op>, key: Key)
    requires LastPut(ops, key).None?
    ensures !SweptSoFar(ops, key)
    ensures forall i | 0 <= i < |ops| :: !Stores(ops[i], key)
  {
    if ops != [] {
      NothingSwept(ops[..|ops| - 1], key);
    }
  }

  lemma SweptIs(ops: seq<Op>, key: Key)
    ensures SweptSoFar(ops, key) <==> Swept(ops, key)
  {
    hide SweptSoFar, SweptFrom, Stores, LastPut;
    if LastPut(ops, key).None? {
      NothingSwept(ops, key);
    } else {
      var i := LastPutAt(ops, key);
      SweptAfter(ops, key, i);
    }
  }

  /**
   * With any clock, a lookup answers like a cache that keeps everything if and only if that cache has no answer, or no
   * lookup or pruning ran at or past the expiry of the last response stored for the key since it was stored.
   */
  lemma AnswersIdeallyIff(ops: seq<Op>, key: Key, now: int)
    ensures Answer(AfterAll(ops), key, now) == IdealAnswer(ops, key, now)
       <==> IdealAnswer(ops, key, now).None? || !Swept(ops, key)
  {
    hide AfterAll, LastPut, Swept, SweptSoFar;
    RowLeft(ops, key);
    SweptIs(ops, key);
  }

  // ---------------------------------------------------------------- buffered requests

  datatype Served = FromCache(body: Bytes) | Computed(body: Bytes) | Failed

  /** The operations a buffered request performs on the cache. */
  function Performed(key: Option<Key>, ttl: int, asked: int, answer: Option<Bytes>, answered: int,
                     tokens: Bytes -> (Option<int>, Option<int>), cached: Option<Hit>): seq<Op> {
    if key.None? then []
    else if cached.Some? || answer.None? then [Get(key.value, asked)]
    else [Get(key.value, asked),
          Put(key.value, Hit(answer.value, tokens(answer.value).0, tokens(answer.value).1), answered, ttl)]
  }

  /**
   * Serves a buffered request: from the cache if it holds an answer, else from the upstreams (whose answer, if any, is
   * `answer`), storing what they say. Requests that may not be cached have no key.
   */
  method ServeBuffered(cache: Cache, ghost past: seq<Op>, key: Option<Key>, ttl: int, asked: int,
                       answer: Option<Bytes>, answered: int, tokens: Bytes -> (Option<int>, Option<int>))
    returns (served: Served)
    requires cache.rows == AfterAll(past)
    requires Timely(past + [Get(Key(0, ""), asked), Get(Key(0, ""), answered)])
    modifies cache
    ensures var cached := if key.Some? then IdealAnswer(past, key.value, asked) else None;
            && served == (if cached.Some? then FromCache(cached.value.body)
                          else if answer.Some? then Computed(answer.value) else Failed)
            && cache.rows == AfterAll(past + Performed(key, ttl, asked, answer, answered, tokens, cached))
  {
    ghost var probes := past + [Get(Key(0, ""), asked), Get(Key(0, ""), answered)];
    assert forall i | 0 <= i < |past| :: probes[i] == past[i];
    assert probes[|past|].now == asked;
    var cached: Option<Hit> := None;
    if key.Some? {
      DeletionInvisible(past, key.value, asked);
      cached := cache.Get(key.value, asked);
      AfterSnoc(past, Op.Get(key.value, asked));
      if cached.Some? {
        return FromCache(cached.value.body);
      }
    } else {
      assert past + [] == past;
    }
    if answer.None? {
      return Failed;
    }
    if key.Some? {
      var (p, c) := tokens(answer.value);
      cache.Put(key.value, Hit(answer.value, p, c), answered, ttl);
      AfterSnoc(past + [Op.Get(key.value, asked)], Op.Put(key.value, Hit(answer.value, p, c), answered, ttl));
      assert past + [Op.Get(key.value, asked)] + [Op.Put(key.value, Hit(answer.value, p, c), answered, ttl)]
          == past + Performed(key, ttl, asked, answer, answered, tokens, None);
    }
    return Computed(answer.value);
  }

  lemma AfterSnoc(ops: seq<Op>, op: Op)
    ensures AfterAll(ops + [op]) == After(AfterAll(ops), op)
  {
    assert (ops + [op])[..|ops + [op]| - 1] == ops;
  }

  lemma TimelySnoc(ops: seq<Op>, op: Op)
    requires Timely(ops) && (ops != [] ==> ops[|ops| - 1].now <= op.now)
    ensures Timely(ops + [op])
  {
  }

  lemma LastPutSnoc(ops: seq<Op>, op: Op, key: Key)
    ensures LastPut(ops + [op], key) == if Stores(op, key) then Some(op) else LastPut(ops, key)
  {
    assert (ops + [op])[..|ops + [op]| - 1] == ops;
  }

  /**
   * What a buffered request leaves for those that ask later, for its own key or any other: a new answer is found until
   * its lifetime is over, and a request that was served from the cache, failed or may not be cached changes nothing.
   */
  lemma AskedAgain(past: seq<Op>, key: Option<Key>, ttl: int, asked: int, answer: Option<Bytes>, answered: int,
                   tokens: Bytes -> (Option<int>, Option<int>), cached: Option<Hit>, other: Key, later: int)
    requires Timely(past) && (past != [] ==> past[|past| - 1].now <= asked) && asked <= answered <= later
    ensures Answer(AfterAll(past + Performed(key, ttl, asked, answer, answered, tokens, cached)), other, later)
         == if key == Some(other) && cached.None? && answer.Some? && ttl > 0 then
              if later < answered + 1000 * ttl
              then Some(Hit(answer.value, tokens(answer.value).0, tokens(answer.value).1))
              else None
            else IdealAnswer(past, other, later)
  {
    hide AfterAll, Answer, Timely, LastPut;
    var ops := past + Performed(key, ttl, asked, answer, answered, tokens, cached);
    if key.None? {
      assert ops == past;
    } else {
      var get := Op.Get(key.value, asked);
      TimelySnoc(past, get);
      LastPutSnoc(past, get, other);
      if cached.Some? || answer.None? {
        assert ops == past + [get];
      } else {
        var put := Put(key.value, Hit(answer.value, tokens(answer.value).0, tokens(answer.value).1), answered, ttl);
        TimelySnoc(past + [get], put);
        LastPutSnoc(past + [get], put, other);
        assert ops == past + [get] + [put];
      }
    }
    DeletionInvisible(ops, other, later);
  }
}
