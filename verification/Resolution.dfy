/** From a model string to the ordered list of targets to try (src/router/mod.rs). */
module Resolution {
  import opened Base
  import opened Domain
  import opened Routing
  import opened Ordering
  import opened Selection

  datatype ResolveError = BadModel | NoProxy(name: string) | NoRoute(name: string) | Unexpandable(error: RouteError)

  datatype Resolved = Targets(targets: seq<Target>) | Unresolved(error: ResolveError)

  /** The text before and after the first `sep`. */
  function SplitOnce(text: string, sep: char): (r: Option<(string, string)>)
    ensures r.None? <==> sep !in text
    ensures r.Some? ==> text == r.value.0 + [sep] + r.value.1 && sep !in r.value.0
  {
    if text == "" then None
    else if text[0] == sep then Some(("", text[1..]))
    else match SplitOnce(text[1..], sep)
         case None => None
         case Some((front, back)) => Some(([text[0]] + front, back))
  }

  datatype Named = Found(routeId: int) | Unknown(error: ResolveError)

  /** The route a model string names under the caller's own profile. */
  function ResolveRoute(c: Catalog, profile: string, model: string): Named {
    match SplitOnce(model, '/')
    case None => Unknown(BadModel)
    case Some((proxy, route)) =>
      if (profile, proxy) !in c.proxyNamed then Unknown(NoProxy(proxy))
      else if (c.proxyNamed[(profile, proxy)], route) !in c.routeNamed then Unknown(NoRoute(route))
      else Found(c.routeNamed[(c.proxyNamed[(profile, proxy)], route)])
  }

  /** Every named route has a row. */
  predicate Consistent(c: Catalog) {
    forall k | k in c.routeNamed :: c.routeNamed[k] in c.routes
  }

  function WithIdentity(identity: Option<string>, ts: seq<Target>): seq<Target> {
    seq(|ts|, i requires 0 <= i < |ts| => ts[i].(identity := identity))
  }

  /** The warm candidates of a route, before its strategy orders them. */
  function Candidates(c: Catalog, needs: RequestNeeds, routeId: int, now: int): seq<Target>
    requires routeId in c.routes
  {
    WarmFirst(now, WithIdentity(c.routes[routeId].identity, Leaves(c, needs, routeId, MAX_ROUTE_DEPTH)))
  }

  /** The order a strategy gives its candidates. */
  function Ordered(strategy: RoutingStrategy, counters: Counters, routeId: int, draw: real,
                   ts: seq<Target>): seq<Target> {
    match strategy
    case Priority => ts
    case RoundRobin => if |ts| <= 1 then ts else RotateLeft(ts, LeaderOf(counters, routeId, |ts|))
    case Weighted => WeightedOrder(ts, draw)
    case Economy => StableSort(NoDearer, ts)
  }

  /**
   * Resolves a model string. The result is every warm leaf of the expansion (every leaf, when none is warm), in the
   * order of the route's strategy; only a round-robin route moves its counter.
   */
  method ResolveTargetsWithStrategy(c: Catalog, profile: string, model: string, needs: RequestNeeds,
                                    state: RoutingState, now: int, draw: real)
    returns (r: Resolved)
    requires Consistent(c)
    modifies state
    ensures match ResolveRoute(c, profile, model)
            case Unknown(error) => r == Unresolved(error) && state.counters == old(state.counters)
            case Found(id) =>
              match Expand(c, profile, needs, id, 0, [])
              case Refused(error) => r == Unresolved(Unexpandable(error)) && state.counters == old(state.counters)
              case Expanded(_) =>
                var candidates := Candidates(c, needs, id, now);
                && r == Targets(Ordered(c.routes[id].strategy, old(state.counters), id, draw, candidates))
                && state.counters == if c.routes[id].strategy.RoundRobin?
                                     then AfterTurn(old(state.counters), id, |candidates|)
                                     else old(state.counters)
  {
    hide Leaves, Expand, WithIdentity, WarmFirst, WeightedOrder, StableSort, RotateLeft;
    var named := ResolveRoute(c, profile, model);
    if named.Unknown? {
      return Unresolved(named.error);
    }
    var id := named.routeId;
    var route := c.routes[id];
    var stack := new PathStack();
    var expansion := ExpandInner(c, profile, id, needs, 0, stack);
    if expansion.Refused? {
      return Unresolved(Unexpandable(expansion.error));
    }
    ExpansionIsLeaves(c, profile, needs, id, 0, []);
    var targets := WarmFirst(now, WithIdentity(route.identity, expansion.targets));
    match route.strategy
    case Priority =>
      return Targets(targets);
    case RoundRobin =>
      var slots := new Target[|targets|](i requires 0 <= i < |targets| => targets[i]);
      assert slots[..] == targets;
      state.RotateRoundRobin(id, slots);
      return Targets(slots[..]);
    case Weighted =>
      var slots := new Target[|targets|](i requires 0 <= i < |targets| => targets[i]);
      assert slots[..] == targets;
      state.ShuffleWeighted(slots, draw);
      return Targets(slots[..]);
    case Economy =>
      return Targets(StableSort(NoDearer, targets));
  }

  /** No strategy adds, drops or changes a candidate. */
  lemma OrderingPermutes(strategy: RoutingStrategy, counters: Counters, routeId: int, draw: real, ts: seq<Target>)
    ensures multiset(Ordered(strategy, counters, routeId, draw, ts)) == multiset(ts)
  {
    match strategy
    case Priority =>
    case RoundRobin =>
      if |ts| > 1 {
        RotationPermutes(ts, LeaderOf(counters, routeId, |ts|));
      }
    case Weighted =>
      if |ts| > 1 && TotalOf(ts) > 0.0 {
        RotationPermutes(ts, Pick(Weights(ts), draw, 0));
      }
    case Economy =>
      StableSortCorrect(NoDearer, ts);
  }

  lemma {:induction false} LeavesUncached(c: Catalog, needs: RequestNeeds, routeId: int, levels: nat)
    ensures forall t | t in Leaves(c, needs, routeId, levels) ::
              t.promptCache == Auto && t.identity == None && Eligible(needs, t.entry) && t.entry.providerId.Some?
  {
    forall t | t in Leaves(c, needs, routeId, levels)
      ensures t.promptCache == Auto && t.identity == None && Eligible(needs, t.entry) && t.entry.providerId.Some?
    {
      LeavesAreReached(c, needs, routeId, levels, t);
      var p :| Walk(c, needs, routeId, p) && |p| <= levels && LeafOf(c, needs, p[|p| - 1], t);
    }
  }

  /**
   * Whatever the strategy, a resolved list holds the warm candidates or, when none is warm, all of them: it is empty
   * only if the expansion has no leaf. Each target is eligible, carries the identity of the route that was asked for,
   * and the default prompt-cache policy, whatever policy that route has.
   */
  lemma ResolutionKeepsEveryone(c: Catalog, needs: RequestNeeds, routeId: int, now: int,
                                counters: Counters, draw: real)
    requires routeId in c.routes
    ensures var route := c.routes[routeId];
            var leaves := WithIdentity(route.identity, Leaves(c, needs, routeId, MAX_ROUTE_DEPTH));
            var result := Ordered(route.strategy, counters, routeId, draw, Candidates(c, needs, routeId, now));
            && (result == [] <==> leaves == [])
            && (if exists t | t in leaves :: Warm(now, t)
                then forall x :: multiset(result)[x] == if Warm(now, x) then multiset(leaves)[x] else 0
                else multiset(result) == multiset(leaves))
            && forall t | t in result ::
                 t.identity == route.identity && t.promptCache == Auto && Eligible(needs, t.entry)
  {
    hide Leaves, Ordered, WarmFirst;
    var route := c.routes[routeId];
    var raw := Leaves(c, needs, routeId, MAX_ROUTE_DEPTH);
    var leaves := WithIdentity(route.identity, raw);
    var candidates := Candidates(c, needs, routeId, now);
    var result := Ordered(route.strategy, counters, routeId, draw, candidates);
    WarmFirstNeverStrands(now, leaves);
    OrderingPermutes(route.strategy, counters, routeId, draw, candidates);
    LeavesUncached(c, needs, routeId, MAX_ROUTE_DEPTH);
    SameEmptiness(result, candidates);
    forall t | t in result
      ensures t.identity == route.identity && t.promptCache == Auto && Eligible(needs, t.entry)
    {
      assert multiset(result)[t] > 0;
      assert multiset(leaves)[t] > 0;
      var i :| 0 <= i < |leaves| && leaves[i] == t;
      assert raw[i] in raw;
    }
  }

  /**
   * The targets carry the policy of the route that was asked for exactly when that is the default, or the route has no
   * leaf.
   */
  lemma PolicyReachesTargetsIff(c: Catalog, needs: RequestNeeds, routeId: int, now: int, counters: Counters, draw: real)
    requires routeId in c.routes
    ensures var route := c.routes[routeId];
            var result := Ordered(route.strategy, counters, routeId, draw, Candidates(c, needs, routeId, now));
            (forall t | t in result :: t.promptCache == route.promptCache)
                <==> Leaves(c, needs, routeId, MAX_ROUTE_DEPTH) == [] || route.promptCache == Auto
  {
    hide Ordered, Candidates, Leaves;
    ResolutionKeepsEveryone(c, needs, routeId, now, counters, draw);
    var result := Ordered(c.routes[routeId].strategy, counters, routeId, draw, Candidates(c, needs, routeId, now));
    var leaves := Leaves(c, needs, routeId, MAX_ROUTE_DEPTH);
    assert |WithIdentity(c.routes[routeId].identity, leaves)| == |leaves|;
    if result != [] {
      assert result[0] in result;
    }
  }

  /** A route with one entry whose policy is to leave prompt caching off. */
  function Uncached(owner: string): Catalog {
    Catalog(map[], map[], map[1 := owner], map[10 := Route(1, Priority, None, false, Off)], map[10 := [Only()]],
            map[1 := Provider(1, owner, false, Anthropic)])
  }

  function Only(): RouteEntry {
    RouteEntry(1, Some(1), None, 1.0, Healthy, RouteCapabilities(true, true, true), 0.0, 0)
  }

  /** Its one target is to be marked for caching all the same. */
  lemma OffIsLost(owner: string, now: nat, counters: Counters, draw: real)
    ensures var c, needs := Uncached(owner), RequestNeeds(false, false, false);
            Ordered(c.routes[10].strategy, counters, 10, draw, Candidates(c, needs, 10, now))
            == [Target(Provider(1, owner, false, Anthropic), Only(), None, Auto)]
  {
    var c, needs := Uncached(owner), RequestNeeds(false, false, false);
    var target := Target(Provider(1, owner, false, Anthropic), Only(), None, Auto);
    OnlyLeaf(owner);
    OnlyWarm(now, target);
    hide Leaves, Part, StableSort;
    assert WithIdentity(None, [target]) == [target];
  }

  lemma OnlyLeaf(owner: string)
    ensures Leaves(Uncached(owner), RequestNeeds(false, false, false), 10, MAX_ROUTE_DEPTH)
         == [Target(Provider(1, owner, false, Anthropic), Only(), None, Auto)]
  {
    var c, needs := Uncached(owner), RequestNeeds(false, false, false);
    var none := [Only()][..0];
    assert none == [] && ChainLeaves(c, needs, none, MAX_ROUTE_DEPTH) == [];
    assert EntryLeaves(c, needs, Only(), MAX_ROUTE_DEPTH) == [TargetOf(c, Only())];
    hide EntryLeaves, TargetOf;
    assert c.Chain(10) == [Only()];
  }

  lemma OnlyWarm(now: nat, target: Target)
    requires target.entry.cooldownUntil <= now
    ensures Part(now, true, [target]) == [target]
  {
    var others := [target][..0];
    assert others == [] && Part(now, true, others) == [];
  }

  lemma SameEmptiness(a: seq<Target>, b: seq<Target>)
    requires multiset(a) == multiset(b)
    ensures a == [] <==> b == []
  {
    assert |multiset(a)| == |a| && |multiset(b)| == |b|;
  }

  // ---------------------------------------------------------------- names

  lemma {:induction false} SplitAt(front: string, sep: char, back: string)
    requires sep !in front
    ensures SplitOnce(front + [sep] + back, sep) == Some((front, back))
  {
    var text := front + [sep] + back;
    if front == "" {
      assert text[0] == sep && text[1..] == back;
    } else {
      assert text[1..] == front[1..] + [sep] + back && text[0] == front[0];
      assert front[0] in front && forall ch | ch in front[1..] :: ch in front;
      SplitAt(front[1..], sep, back);
      assert [front[0]] + front[1..] == front;
    }
  }

  /**
   * `proxy/route` names the route of that name under the proxy of that name under the caller's own profile; a missing
   * name is reported as what it is, and a model without a slash is malformed.
   */
  lemma ResolvesByName(c: Catalog, profile: string, proxy: string, route: string)
    requires '/' !in proxy
    ensures ResolveRoute(c, profile, proxy + "/" + route)
         == if (profile, proxy) !in c.proxyNamed then Unknown(NoProxy(proxy))
            else if (c.proxyNamed[(profile, proxy)], route) !in c.routeNamed then Unknown(NoRoute(route))
            else Found(c.routeNamed[(c.proxyNamed[(profile, proxy)], route)])
    ensures ResolveRoute(c, profile, proxy) == Unknown(BadModel)
  {
    assert "/" == ['/'];
    SplitAt(proxy, '/', route);
    assert SplitOnce(proxy, '/').None?;
  }
}
