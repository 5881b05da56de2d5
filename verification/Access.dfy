/**
 * Who may use what when a route is expanded (src/router/mod.rs), in terms of the tables: owners, sharing, statuses and
 * capability flags.
 */
module Access {
  import opened Base
  import opened Domain
  import opened Routing

  /** Selectable by status and by what the request needs. */
  predicate Selectable(needs: RequestNeeds, e: RouteEntry) {
    && (e.status == Healthy || e.status == Degraded)
    && (needs.tools ==> e.capabilities.tools)
    && (needs.vision ==> e.capabilities.vision)
    && (needs.jsonMode ==> e.capabilities.jsonMode)
  }

  /** The provider exists, and is the caller's own or shared. */
  predicate ProviderAllowed(c: Catalog, caller: string, id: int) {
    id in c.providers && (c.providers[id].profileId == caller || c.providers[id].shared)
  }

  /** The route exists, its proxy has an owner, and it is the caller's own or shared. */
  predicate RouteAllowed(c: Catalog, caller: string, id: int) {
    && id in c.routes && c.routes[id].proxyId in c.proxyOwner
    && (c.proxyOwner[c.routes[id].proxyId] == caller || c.routes[id].shared)
  }

  /** What a direct entry names is its provider; what a nested entry names is its route. */
  predicate Allowed(c: Catalog, caller: string, e: RouteEntry) {
    && (e.providerId.Some? ==> ProviderAllowed(c, caller, e.providerId.value))
    && (e.providerId.None? && e.targetRouteId.Some? ==> RouteAllowed(c, caller, e.targetRouteId.value))
  }

  lemma EligibleIs(needs: RequestNeeds, e: RouteEntry)
    ensures Eligible(needs, e) <==> Selectable(needs, e)
  {
  }

  lemma NoObjectionIs(c: Catalog, caller: string, e: RouteEntry)
    ensures Objection(c, caller, e).None? <==> Allowed(c, caller, e)
  {
  }

  /**
   * Expansion succeeds if and only if no path of the unfolding has more than eight routes, and every selectable entry
   * of every route on one names a provider or route that exists and is the caller's own or shared.
   */
  lemma ExpandsWhenAllowed(c: Catalog, caller: string, needs: RequestNeeds, root: int)
    ensures Expand(c, caller, needs, root, 0, []).Expanded? <==>
            forall p | Walk(c, needs, root, p) ::
              |p| <= 8 && forall e | e in c.Chain(p[|p| - 1]) && Selectable(needs, e) :: Allowed(c, caller, e)
  {
    ExpandsWithoutCycleCheck(c, caller, needs, root);
    hide Expand, Walk, Objection, Eligible, Selectable, Allowed;
    forall p | Walk(c, needs, root, p)
      ensures p != []
      ensures Open(c, caller, needs, p[|p| - 1])
         <==> forall e | e in c.Chain(p[|p| - 1]) && Selectable(needs, e) :: Allowed(c, caller, e)
    {
      WalkNonEmpty(c, needs, root, p);
      OpenIs(c, caller, needs, p[|p| - 1]);
    }
  }

  lemma WalkNonEmpty(c: Catalog, needs: RequestNeeds, root: int, p: seq<int>)
    requires Walk(c, needs, root, p)
    ensures p != []
  {
  }

  lemma OpenIs(c: Catalog, caller: string, needs: RequestNeeds, routeId: int)
    ensures Open(c, caller, needs, routeId)
       <==> forall e | e in c.Chain(routeId) && Selectable(needs, e) :: Allowed(c, caller, e)
  {
    hide Objection, Eligible, Selectable, Allowed;
    forall e
      ensures Eligible(needs, e) <==> Selectable(needs, e)
      ensures Objection(c, caller, e).None? <==> Allowed(c, caller, e)
    {
      EligibleIs(needs, e);
      NoObjectionIs(c, caller, e);
    }
  }

  /** Every target of a successful expansion is a selectable entry with its own provider, the caller's or shared. */
  lemma TargetsAllowed(c: Catalog, caller: string, needs: RequestNeeds, root: int, t: Target)
    requires Expand(c, caller, needs, root, 0, []).Expanded?
    requires t in Expand(c, caller, needs, root, 0, []).targets
    ensures t.provider.profileId == caller || t.provider.shared
    ensures Selectable(needs, t.entry)
    ensures t.entry.providerId.Some? && t.entry.providerId.value in c.providers
    ensures t.provider == c.providers[t.entry.providerId.value]
  {
    ExpandsWhenAllowed(c, caller, needs, root);
    ExpansionIsLeaves(c, caller, needs, root, 0, []);
    LeavesAreReached(c, needs, root, MAX_ROUTE_DEPTH, t);
    var p :| Walk(c, needs, root, p) && |p| <= MAX_ROUTE_DEPTH && LeafOf(c, needs, p[|p| - 1], t);
    EligibleIs(needs, t.entry);
    assert t.entry in c.Chain(p[|p| - 1]);
  }

  /** Every route a path enters below the root exists and is the caller's or shared. */
  lemma RoutesAllowed(c: Catalog, caller: string, needs: RequestNeeds, root: int, p: seq<int>, i: nat)
    requires Expand(c, caller, needs, root, 0, []).Expanded?
    requires Walk(c, needs, root, p) && 1 <= i < |p|
    ensures RouteAllowed(c, caller, p[i])
  {
    ExpandsWhenAllowed(c, caller, needs, root);
    var front := p[..i];
    forall k | 0 <= k < |front| - 1
      ensures Link(c, needs, front[k], front[k + 1])
    {
      assert Link(c, needs, p[k], p[k + 1]);
    }
    assert Walk(c, needs, root, front) && front[|front| - 1] == p[i - 1];
    assert Link(c, needs, p[i - 1], p[i - 1 + 1]);
    var e :| e in c.Chain(p[i - 1]) && Eligible(needs, e) && Nested(e) && e.targetRouteId == Some(p[i]);
    EligibleIs(needs, e);
  }

  /** The selectable direct entries of the root itself are always among the targets, in their order. */
  lemma OwnEntriesServe(c: Catalog, caller: string, needs: RequestNeeds, root: int, e: RouteEntry)
    requires Expand(c, caller, needs, root, 0, []).Expanded?
    requires root in c.chains && e in c.chains[root] && Selectable(needs, e) && e.providerId.Some?
    ensures e.providerId.value in c.providers
    ensures Target(c.providers[e.providerId.value], e, None, Auto) in Expand(c, caller, needs, root, 0, []).targets
  {
    ExpandsWhenAllowed(c, caller, needs, root);
    assert Walk(c, needs, root, [root]) && [root][|[root]| - 1] == root;
    EligibleIs(needs, e);
    ExpansionIsLeaves(c, caller, needs, root, 0, []);
    LeavesAreReached(c, needs, root, MAX_ROUTE_DEPTH, TargetOf(c, e));
    assert LeafOf(c, needs, root, TargetOf(c, e));
  }

  // ---------------------------------------------------------------- refusals name their reason

  /** What an error says is true of an entry met on a walk. */
  predicate SaysOfEntry(c: Catalog, caller: string, error: RouteError, e: RouteEntry) {
    match error
    case ProviderMissing(id) => e.providerId == Some(id) && id !in c.providers
    case ProviderForeign(id) =>
      e.providerId == Some(id) && id in c.providers && c.providers[id].profileId != caller && !c.providers[id].shared
    case RouteMissing(id) =>
      && e.providerId == None && e.targetRouteId == Some(id)
      && !(id in c.routes && c.routes[id].proxyId in c.proxyOwner)
    case RouteForeign(id) =>
      && e.providerId == None && e.targetRouteId == Some(id)
      && id in c.routes && c.routes[id].proxyId in c.proxyOwner
      && c.proxyOwner[c.routes[id].proxyId] != caller && !c.routes[id].shared
    case _ => false
  }

  /** What an error says is true of the walk that led to it, entered at `depth` below the routes `visited`. */
  ghost predicate SaysOfWalk(c: Catalog, caller: string, needs: RequestNeeds, root: int, depth: nat, visited: seq<int>,
                             error: RouteError, p: seq<int>)
  {
    && Walk(c, needs, root, p)
    && match error
       case TooDeep => depth + |p| > 8
       case Circular(id) => p[|p| - 1] == id && id in visited + p[..|p| - 1]
       case _ => exists e | e in c.Chain(p[|p| - 1]) :: Selectable(needs, e) && SaysOfEntry(c, caller, error, e)
  }

  lemma ObjectionSays(c: Catalog, caller: string, e: RouteEntry)
    requires Objection(c, caller, e).Some?
    ensures SaysOfEntry(c, caller, Objection(c, caller, e).value, e)
    ensures !Objection(c, caller, e).value.TooDeep? && !Objection(c, caller, e).value.Circular?
  {
  }

  /** Every refusal names a true reason, found at the end of a walk. */
  lemma {:induction false} RefusalIsTrue(c: Catalog, caller: string, needs: RequestNeeds, root: int, depth: nat,
                                         visited: seq<int>) returns (p: seq<int>)
    requires Expand(c, caller, needs, root, depth, visited).Refused?
    ensures SaysOfWalk(c, caller, needs, root, depth, visited, Expand(c, caller, needs, root, depth, visited).error, p)
    decreases if depth < MAX_ROUTE_DEPTH then MAX_ROUTE_DEPTH - depth else 0, 1, 0
  {
    p := [root];
    if depth < MAX_ROUTE_DEPTH && root !in visited {
      p := ChainRefusalIsTrue(c, caller, needs, root, c.Chain(root), depth, visited);
    }
  }

  lemma {:induction false} ChainRefusalIsTrue(c: Catalog, caller: string, needs: RequestNeeds, root: int,
                                              entries: seq<RouteEntry>, depth: nat, visited: seq<int>)
    returns (p: seq<int>)
    requires depth < MAX_ROUTE_DEPTH
    requires forall e | e in entries :: e in c.Chain(root)
    requires ExpandChain(c, caller, needs, entries, depth, visited + [root]).Refused?
    ensures SaysOfWalk(c, caller, needs, root, depth, visited,
                       ExpandChain(c, caller, needs, entries, depth, visited + [root]).error, p)
    decreases MAX_ROUTE_DEPTH - depth, 0, |entries|
  {
    var k := |entries| - 1;
    var before, e := ExpandChain(c, caller, needs, entries[..k], depth, visited + [root]), entries[k];
    EligibleIs(needs, e);
    if before.Refused? || !Eligible(needs, e) {
      p := ChainRefusalIsTrue(c, caller, needs, root, entries[..k], depth, visited);
    } else if Objection(c, caller, e).Some? {
      ObjectionSays(c, caller, e);
      p := [root];
      assert e in c.Chain(p[|p| - 1]);
    } else {
      var next := e.targetRouteId.value;
      var tail := RefusalIsTrue(c, caller, needs, next, depth + 1, visited + [root]);
      assert Link(c, needs, root, next);
      WalkCons(c, needs, root, tail);
      p := [root] + tail;
      SaysAbove(c, caller, needs, root, depth, visited, next,
                Expand(c, caller, needs, next, depth + 1, visited + [root]).error, tail);
    }
  }

  lemma SaysAbove(c: Catalog, caller: string, needs: RequestNeeds, root: int, depth: nat, visited: seq<int>, next: int,
                  error: RouteError, tail: seq<int>)
    requires SaysOfWalk(c, caller, needs, next, depth + 1, visited + [root], error, tail)
    requires Walk(c, needs, root, [root] + tail)
    ensures SaysOfWalk(c, caller, needs, root, depth, visited, error, [root] + tail)
  {
    hide Walk;
    WalkNonEmpty(c, needs, next, tail);
    var p := [root] + tail;
    assert p[|p| - 1] == tail[|tail| - 1];
    assert visited + p[..|p| - 1] == visited + [root] + tail[..|tail| - 1];
  }
}
