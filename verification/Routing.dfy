/** Expansion of a route into concrete targets, through a possibly cyclic graph of nested routes (src/router/mod.rs). */
module Routing {
  import opened Base
  import opened Domain

  datatype Route = Route(
    proxyId: int,
    strategy: RoutingStrategy,
    identity: Option<string>,
    shared: bool,
    promptCache: PromptCachePolicy)

  /** The tables resolution reads; `chains` holds each route's entries in priority order. */
  datatype Catalog = Catalog(
    proxyNamed: map<(string, string), int>,
    routeNamed: map<(int, string), int>,
    proxyOwner: map<int, string>,
    routes: map<int, Route>,
    chains: map<int, seq<RouteEntry>>,
    providers: map<int, Provider>)
  {
    function Chain(routeId: int): seq<RouteEntry> {
      if routeId in chains then chains[routeId] else []
    }

    /** The profile that owns a route, through its proxy. */
    function OwnerOf(routeId: int): Option<string> {
      if routeId in routes && routes[routeId].proxyId in proxyOwner
      then Some(proxyOwner[routes[routeId].proxyId])
      else None
    }

    predicate IsShared(routeId: int) {
      routeId in routes && routes[routeId].shared
    }
  }

  /** How deep a route may reference other routes. */
  const MAX_ROUTE_DEPTH: nat := 8

  datatype RouteError =
    | TooDeep
    | Circular(routeId: int)
    | ProviderMissing(id: int)
    | ProviderForeign(id: int)
    | RouteMissing(id: int)
    | RouteForeign(id: int)

  datatype Expansion = Expanded(targets: seq<Target>) | Refused(error: RouteError)

  function TargetOf(c: Catalog, e: RouteEntry): Target
    requires e.providerId.Some? && e.providerId.value in c.providers
  {
    Target(c.providers[e.providerId.value], e, None, Auto)
  }

  /** Why an eligible entry may not be used by `caller`, if it may not. */
  function Objection(c: Catalog, caller: string, e: RouteEntry): Option<RouteError> {
    if e.providerId.Some? then
      var id := e.providerId.value;
      if id !in c.providers then Some(ProviderMissing(id))
      else if c.providers[id].profileId == caller || c.providers[id].shared then None
      else Some(ProviderForeign(id))
    else if e.targetRouteId.Some? then
      var id := e.targetRouteId.value;
      if c.OwnerOf(id).None? then Some(RouteMissing(id))
      else if c.IsShared(id) || c.OwnerOf(id).value == caller then None
      else Some(RouteForeign(id))
    else None
  }

  /** Entries that lead into another route. */
  predicate Nested(e: RouteEntry) {
    e.providerId.None? && e.targetRouteId.Some?
  }

  // ---------------------------------------------------------------- the search, as a function

  function Expand(c: Catalog, caller: string, needs: RequestNeeds, routeId: int, depth: nat,
                  visited: seq<int>): Expansion
    decreases if depth < MAX_ROUTE_DEPTH then MAX_ROUTE_DEPTH - depth else 0, 1, 0
  {
    if depth >= MAX_ROUTE_DEPTH then Refused(TooDeep)
    else if routeId in visited then Refused(Circular(routeId))
    else ExpandChain(c, caller, needs, c.Chain(routeId), depth, visited + [routeId])
  }

  function ExpandChain(c: Catalog, caller: string, needs: RequestNeeds, entries: seq<RouteEntry>, depth: nat,
                       path: seq<int>): Expansion
    requires depth < MAX_ROUTE_DEPTH
    decreases MAX_ROUTE_DEPTH - depth, 0, |entries|
  {
    if entries == [] then Expanded([])
    else
      var k := |entries| - 1;
      var before, e := ExpandChain(c, caller, needs, entries[..k], depth, path), entries[k];
      if before.Refused? || !Eligible(needs, e) then before
      else if Objection(c, caller, e).Some? then Refused(Objection(c, caller, e).value)
      else if e.providerId.Some? then Expanded(before.targets + [TargetOf(c, e)])
      else if e.targetRouteId.None? then before
      else match Expand(c, caller, needs, e.targetRouteId.value, depth + 1, path)
           case Refused(error) => Refused(error)
           case Expanded(targets) => Expanded(before.targets + targets)
  }

  /** The stack of routes on the current path. */
  class PathStack {
    var routes: seq<int>

    constructor ()
      ensures routes == []
    {
      routes := [];
    }
  }

  /**
   * Depth-first expansion. On success the path stack is as it was; on failure it holds the chain that failed.
   */
  method ExpandInner(c: Catalog, caller: string, routeId: int, needs: RequestNeeds, depth: nat, visited: PathStack)
    returns (r: Expansion)
    modifies visited
    ensures r == Expand(c, caller, needs, routeId, depth, old(visited.routes))
    ensures r.Expanded? ==> visited.routes == old(visited.routes)
    ensures r.Refused? ==> old(visited.routes) <= visited.routes
    decreases if depth < MAX_ROUTE_DEPTH then MAX_ROUTE_DEPTH - depth else 0
  {
    if depth >= MAX_ROUTE_DEPTH {
      return Refused(TooDeep);
    }
    if routeId in visited.routes {
      return Refused(Circular(routeId));
    }
    visited.routes := visited.routes + [routeId];
    ghost var path := visited.routes;

    var targets: seq<Target> := [];
    var entries := c.Chain(routeId);
    for i := 0 to |entries|
      invariant visited.routes == path
      invariant ExpandChain(c, caller, needs, entries[..i], depth, path) == Expanded(targets)
    {
      var entry := entries[i];
      assert entries[..i + 1][..i] == entries[..i];
      if !InRotation(entry.status) {
        continue;
      }
      if !needs.Satisfies(entry.capabilities) {
        continue;
      }
      if entry.providerId.Some? {
        var id := entry.providerId.value;
        if id !in c.providers {
          ChainRefuses(c, caller, needs, entries, depth, path, i);
          return Refused(ProviderMissing(id));
        }
        var provider := c.providers[id];
        if !(provider.profileId == caller || provider.shared) {
          ChainRefuses(c, caller, needs, entries, depth, path, i);
          return Refused(ProviderForeign(id));
        }
        targets := targets + [Target(provider, entry, None, Auto)];
      } else if entry.targetRouteId.Some? {
        var id := entry.targetRouteId.value;
        var owner := c.OwnerOf(id);
        if owner.None? {
          ChainRefuses(c, caller, needs, entries, depth, path, i);
          return Refused(RouteMissing(id));
        }
        var shared := id in c.routes && c.routes[id].shared;
        if !(shared || owner.value == caller) {
          ChainRefuses(c, caller, needs, entries, depth, path, i);
          return Refused(RouteForeign(id));
        }
        var sub := ExpandInner(c, caller, id, needs, depth + 1, visited);
        if sub.Refused? {
          ChainRefuses(c, caller, needs, entries, depth, path, i);
          return sub;
        }
        targets := targets + sub.targets;
      }
    }
    assert entries[..|entries|] == entries;
    visited.routes := visited.routes[..|visited.routes| - 1];
    return Expanded(targets);
  }

  /** The first refusal of a chain is the refusal of the whole chain. */
  lemma {:induction false} ChainRefuses(c: Catalog, caller: string, needs: RequestNeeds, entries: seq<RouteEntry>,
                                        depth: nat, path: seq<int>, i: nat)
    requires depth < MAX_ROUTE_DEPTH && i < |entries|
    requires ExpandChain(c, caller, needs, entries[..i + 1], depth, path).Refused?
    ensures ExpandChain(c, caller, needs, entries, depth, path)
         == ExpandChain(c, caller, needs, entries[..i + 1], depth, path)
    decreases |entries|
  {
    if i + 1 == |entries| {
      assert entries[..i + 1] == entries;
    } else {
      var front := entries[..|entries| - 1];
      assert front[..i + 1] == entries[..i + 1];
      ChainRefuses(c, caller, needs, front, depth, path, i);
    }
  }

  // ---------------------------------------------------------------- walks through the route graph

  /** Route `a` has an eligible nested entry that leads to route `b`. */
  predicate Link(c: Catalog, needs: RequestNeeds, a: int, b: int) {
    exists e | e in c.Chain(a) :: Eligible(needs, e) && Nested(e) && e.targetRouteId == Some(b)
  }

  /** A path of the unfolding that starts at `root`. */
  predicate Walk(c: Catalog, needs: RequestNeeds, root: int, p: seq<int>) {
    && p != [] && p[0] == root
    && forall i | 0 <= i < |p| - 1 :: Link(c, needs, p[i], p[i + 1])
  }

  predicate Distinct(p: seq<int>) {
    forall i, j | 0 <= i < j < |p| :: p[i] != p[j]
  }

  /** Every eligible entry of a route may be used by the caller. */
  predicate Open(c: Catalog, caller: string, needs: RequestNeeds, routeId: int) {
    forall e | e in c.Chain(routeId) && Eligible(needs, e) :: Objection(c, caller, e).None?
  }

  /** A walk that, entered at `depth` with `visited` routes above it, raises no objection. */
  predicate Sound(c: Catalog, caller: string, needs: RequestNeeds, depth: nat, visited: seq<int>, p: seq<int>)
    requires p != []
  {
    && depth + |p| <= MAX_ROUTE_DEPTH
    && Distinct(p)
    && (forall x | x in p :: x !in visited)
    && Open(c, caller, needs, p[|p| - 1])
  }

  ghost predicate AllWalksSound(c: Catalog, caller: string, needs: RequestNeeds, routeId: int, depth: nat,
                                visited: seq<int>) {
    forall p | Walk(c, needs, routeId, p) :: Sound(c, caller, needs, depth, visited, p)
  }

  /** A chain expands exactly when each of its eligible entries does. */
  lemma {:induction false} ChainExpands(c: Catalog, caller: string, needs: RequestNeeds, entries: seq<RouteEntry>,
                                        depth: nat, path: seq<int>)
    requires depth < MAX_ROUTE_DEPTH
    ensures ExpandChain(c, caller, needs, entries, depth, path).Expanded? <==>
            forall e | e in entries && Eligible(needs, e) ::
              && Objection(c, caller, e).None?
              && (Nested(e) ==> Expand(c, caller, needs, e.targetRouteId.value, depth + 1, path).Expanded?)
  {
    if entries != [] {
      var k := |entries| - 1;
      ChainExpands(c, caller, needs, entries[..k], depth, path);
      assert entries == entries[..k] + [entries[k]];
    }
  }

  lemma WalkTail(c: Catalog, needs: RequestNeeds, root: int, p: seq<int>)
    requires |p| > 1 && Walk(c, needs, root, p)
    ensures Link(c, needs, root, p[1]) && Walk(c, needs, p[1], p[1..])
  {
    forall i | 0 <= i < |p[1..]| - 1
      ensures Link(c, needs, p[1..][i], p[1..][i + 1])
    {
      assert Link(c, needs, p[i + 1], p[i + 1 + 1]);
    }
    assert Link(c, needs, p[0], p[0 + 1]);
  }

  lemma WalkCons(c: Catalog, needs: RequestNeeds, root: int, p: seq<int>)
    requires p != [] && Walk(c, needs, p[0], p) && Link(c, needs, root, p[0])
    ensures Walk(c, needs, root, [root] + p)
  {
    var q := [root] + p;
    forall i | 0 <= i < |q| - 1
      ensures Link(c, needs, q[i], q[i + 1])
    {
      if i > 0 {
        assert q[i] == p[i - 1] && q[i + 1] == p[i];
      }
    }
  }

  /**
   * Expansion succeeds exactly when the unfolding of the route graph through eligible entries has no path that repeats
   * a route, none of more than eight routes, and only entries the caller may use.
   */
  lemma {:induction false} ExpandsIff(c: Catalog, caller: string, needs: RequestNeeds, routeId: int, depth: nat,
                                      visited: seq<int>)
    ensures Expand(c, caller, needs, routeId, depth, visited).Expanded?
       <==> AllWalksSound(c, caller, needs, routeId, depth, visited)
    decreases if depth < MAX_ROUTE_DEPTH then MAX_ROUTE_DEPTH - depth else 0
  {
    assert Walk(c, needs, routeId, [routeId]);
    if depth < MAX_ROUTE_DEPTH && routeId !in visited {
      var path := visited + [routeId];
      ChainExpands(c, caller, needs, c.Chain(routeId), depth, path);
      forall e | e in c.Chain(routeId) && Eligible(needs, e) && Nested(e)
        ensures Expand(c, caller, needs, e.targetRouteId.value, depth + 1, path).Expanded?
           <==> AllWalksSound(c, caller, needs, e.targetRouteId.value, depth + 1, path)
      {
        ExpandsIff(c, caller, needs, e.targetRouteId.value, depth + 1, path);
      }
      if Expand(c, caller, needs, routeId, depth, visited).Expanded? {
        forall p | Walk(c, needs, routeId, p)
          ensures Sound(c, caller, needs, depth, visited, p)
        {
          if |p| > 1 {
            WalkTail(c, needs, routeId, p);
            SoundCons(c, caller, needs, depth, visited, routeId, p);
          }
        }
      } else if AllWalksSound(c, caller, needs, routeId, depth, visited) {
        assert Sound(c, caller, needs, depth, visited, [routeId]);
        forall e | e in c.Chain(routeId) && Eligible(needs, e) && Nested(e)
          ensures AllWalksSound(c, caller, needs, e.targetRouteId.value, depth + 1, path)
        {
          SoundBelow(c, caller, needs, routeId, depth, visited, e.targetRouteId.value);
        }
      }
    }
  }

  lemma SoundCons(c: Catalog, caller: string, needs: RequestNeeds, depth: nat, visited: seq<int>, root: int,
                  p: seq<int>)
    requires |p| > 1 && p[0] == root && root !in visited
    requires Sound(c, caller, needs, depth + 1, visited + [root], p[1..])
    ensures Sound(c, caller, needs, depth, visited, p)
  {
    var tail := p[1..];
    forall i, j | 0 <= i < j < |p|
      ensures p[i] != p[j]
    {
      assert p[j] == tail[j - 1] && tail[j - 1] in tail;
      if i > 0 {
        assert p[i] == tail[i - 1];
      }
    }
    forall x | x in p
      ensures x !in visited
    {
      if x != root {
        var i :| 0 <= i < |p| && p[i] == x;
        assert tail[i - 1] == x && x in tail && x !in visited + [root];
      }
    }
  }

  lemma SoundBelow(c: Catalog, caller: string, needs: RequestNeeds, root: int, depth: nat, visited: seq<int>, next: int)
    requires AllWalksSound(c, caller, needs, root, depth, visited) && Link(c, needs, root, next)
    ensures AllWalksSound(c, caller, needs, next, depth + 1, visited + [root])
  {
    hide Link, Open;
    forall p | Walk(c, needs, next, p)
      ensures Sound(c, caller, needs, depth + 1, visited + [root], p)
    {
      var q := [root] + p;
      WalkCons(c, needs, root, p);
      assert Sound(c, caller, needs, depth, visited, q);
      assert forall i | 0 <= i < |p| :: p[i] == q[i + 1];
      assert forall x | x in p :: x in q;
    }
  }

  // ---------------------------------------------------------------- the leaves

  /** The leaves of the unfolding of a route, left to right, down to `levels` routes deep. */
  function Leaves(c: Catalog, needs: RequestNeeds, routeId: int, levels: nat): seq<Target>
    decreases levels, 1, 0
  {
    if levels == 0 then [] else ChainLeaves(c, needs, c.Chain(routeId), levels)
  }

  function ChainLeaves(c: Catalog, needs: RequestNeeds, entries: seq<RouteEntry>, levels: nat): seq<Target>
    requires levels > 0
    decreases levels, 0, |entries|
  {
    if entries == [] then []
    else ChainLeaves(c, needs, entries[..|entries| - 1], levels) + EntryLeaves(c, needs, entries[|entries| - 1], levels)
  }

  function EntryLeaves(c: Catalog, needs: RequestNeeds, e: RouteEntry, levels: nat): seq<Target>
    requires levels > 0
    decreases levels, 0, 0
  {
    if !Eligible(needs, e) then []
    else if e.providerId.Some? then
      if e.providerId.value in c.providers then [TargetOf(c, e)] else []
    else if e.targetRouteId.Some? then Leaves(c, needs, e.targetRouteId.value, levels - 1)
    else []
  }

  /** A successful expansion is the list of leaves of the unfolding, whatever was visited before. */
  lemma {:induction false} ExpansionIsLeaves(c: Catalog, caller: string, needs: RequestNeeds, routeId: int,
                                             depth: nat, visited: seq<int>)
    requires Expand(c, caller, needs, routeId, depth, visited).Expanded?
    ensures depth < MAX_ROUTE_DEPTH
    ensures Expand(c, caller, needs, routeId, depth, visited).targets
         == Leaves(c, needs, routeId, MAX_ROUTE_DEPTH - depth)
    decreases if depth < MAX_ROUTE_DEPTH then MAX_ROUTE_DEPTH - depth else 0, 1, 0
  {
    ChainIsLeaves(c, caller, needs, c.Chain(routeId), depth, visited + [routeId]);
  }

  lemma {:induction false} ChainIsLeaves(c: Catalog, caller: string, needs: RequestNeeds, entries: seq<RouteEntry>,
                                         depth: nat, path: seq<int>)
    requires depth < MAX_ROUTE_DEPTH
    requires ExpandChain(c, caller, needs, entries, depth, path).Expanded?
    ensures ExpandChain(c, caller, needs, entries, depth, path).targets
         == ChainLeaves(c, needs, entries, MAX_ROUTE_DEPTH - depth)
    decreases MAX_ROUTE_DEPTH - depth, 0, |entries|
  {
    if entries != [] {
      var k := |entries| - 1;
      var e := entries[k];
      ChainIsLeaves(c, caller, needs, entries[..k], depth, path);
      if Eligible(needs, e) && Nested(e) {
        ExpansionIsLeaves(c, caller, needs, e.targetRouteId.value, depth + 1, path);
      }
    }
  }

  /** A target made from an eligible direct entry of some route. */
  predicate LeafOf(c: Catalog, needs: RequestNeeds, routeId: int, t: Target) {
    exists e | e in c.Chain(routeId) ::
      Eligible(needs, e) && e.providerId.Some? && e.providerId.value in c.providers && t == TargetOf(c, e)
  }

  /**
   * Within the depth limit the leaves are exactly the eligible direct entries of the routes that walks reach.
   */
  lemma {:induction false} LeavesAreReached(c: Catalog, needs: RequestNeeds, routeId: int, levels: nat, t: Target)
    ensures t in Leaves(c, needs, routeId, levels) <==>
            exists p | Walk(c, needs, routeId, p) :: |p| <= levels && LeafOf(c, needs, p[|p| - 1], t)
  {
    if t in Leaves(c, needs, routeId, levels) {
      var p := WalkToLeaf(c, needs, routeId, levels, t);
    }
    if p :| Walk(c, needs, routeId, p) && |p| <= levels && LeafOf(c, needs, p[|p| - 1], t) {
      LeafOfWalk(c, needs, routeId, levels, t, p);
    }
  }

  lemma {:induction false} WalkToLeaf(c: Catalog, needs: RequestNeeds, routeId: int, levels: nat, t: Target)
    returns (p: seq<int>)
    requires t in Leaves(c, needs, routeId, levels)
    ensures Walk(c, needs, routeId, p) && |p| <= levels && LeafOf(c, needs, p[|p| - 1], t)
    decreases levels
  {
    ChainMembers(c, needs, c.Chain(routeId), levels, t);
    var e :| e in c.Chain(routeId) && t in EntryLeaves(c, needs, e, levels);
    if e.providerId.Some? {
      p := [routeId];
    } else {
      var tail := WalkToLeaf(c, needs, e.targetRouteId.value, levels - 1, t);
      WalkCons(c, needs, routeId, tail);
      p := [routeId] + tail;
      assert p[|p| - 1] == tail[|tail| - 1];
    }
  }

  lemma {:induction false} LeafOfWalk(c: Catalog, needs: RequestNeeds, routeId: int, levels: nat, t: Target,
                                      p: seq<int>)
    requires Walk(c, needs, routeId, p) && |p| <= levels && LeafOf(c, needs, p[|p| - 1], t)
    ensures t in Leaves(c, needs, routeId, levels)
    decreases levels
  {
    ChainMembers(c, needs, c.Chain(routeId), levels, t);
    if |p| == 1 {
      var e :| e in c.Chain(routeId) && Eligible(needs, e) && e.providerId.Some?
               && e.providerId.value in c.providers && t == TargetOf(c, e);
      assert t in EntryLeaves(c, needs, e, levels);
    } else {
      WalkTail(c, needs, routeId, p);
      var e :| e in c.Chain(routeId) && Eligible(needs, e) && Nested(e) && e.targetRouteId == Some(p[1]);
      LeafOfWalk(c, needs, p[1], levels - 1, t, p[1..]);
      assert t in EntryLeaves(c, needs, e, levels);
    }
  }

  lemma {:induction false} ChainMembers(c: Catalog, needs: RequestNeeds, entries: seq<RouteEntry>, levels: nat,
                                        t: Target)
    requires levels > 0
    ensures t in ChainLeaves(c, needs, entries, levels)
         <==> exists e | e in entries :: t in EntryLeaves(c, needs, e, levels)
  {
    if entries != [] {
      var k := |entries| - 1;
      ChainMembers(c, needs, entries[..k], levels, t);
      if e :| e in entries && t in EntryLeaves(c, needs, e, levels) {
        assert e in entries[..k] || e == entries[k];
      }
      if e :| e in entries[..k] && t in EntryLeaves(c, needs, e, levels) {
        assert e in entries;
      }
      assert entries[k] in entries;
    }
  }

  // ---------------------------------------------------------------- the order of the leaves

  /** What a path of entry positions, continued by `rest`, comes to after entry `e`. */
  function AfterEntry(c: Catalog, needs: RequestNeeds, e: RouteEntry, rest: seq<nat>): Option<Target>
    decreases |rest|, 1
  {
    if !Eligible(needs, e) then None
    else if e.providerId.Some? then
      if rest == [] && e.providerId.value in c.providers then Some(TargetOf(c, e)) else None
    else if e.targetRouteId.Some? then LeafAt(c, needs, c.Chain(e.targetRouteId.value), rest)
    else None
  }

  /** The leaf at a path of entry positions, if it leads to one. */
  function LeafAt(c: Catalog, needs: RequestNeeds, entries: seq<RouteEntry>, path: seq<nat>): Option<Target>
    decreases |path|, 0
  {
    if path == [] || path[0] >= |entries| then None else AfterEntry(c, needs, entries[path[0]], path[1..])
  }

  /** Path `p` branches off to the left of path `q`. */
  predicate LeftOf(p: seq<nat>, q: seq<nat>) {
    p != [] && q != [] && (p[0] < q[0] || (p[0] == q[0] && LeftOf(p[1..], q[1..])))
  }

  predicate LeftToRight(paths: seq<seq<nat>>) {
    forall i, j | 0 <= i < j < |paths| :: LeftOf(paths[i], paths[j])
  }

  /**
   * `paths` lists, from left to right, all paths of at most `levels` positions that lead to a leaf, and `leaves`
   * these.
   */
  ghost predicate Lists(c: Catalog, needs: RequestNeeds, entries: seq<RouteEntry>, levels: nat,
                        paths: seq<seq<nat>>, leaves: seq<Target>)
  {
    && |paths| == |leaves|
    && LeftToRight(paths)
    && (forall i | 0 <= i < |paths| :: LeafAt(c, needs, entries, paths[i]) == Some(leaves[i]) && |paths[i]| <= levels)
    && (forall p | LeafAt(c, needs, entries, p).Some? && |p| <= levels :: p in paths)
  }

  /** The same for the continuations after one entry. */
  ghost predicate ListsAfter(c: Catalog, needs: RequestNeeds, e: RouteEntry, levels: nat,
                             rests: seq<seq<nat>>, leaves: seq<Target>)
  {
    && |rests| == |leaves|
    && LeftToRight(rests)
    && (forall i | 0 <= i < |rests| :: AfterEntry(c, needs, e, rests[i]) == Some(leaves[i]) && |rests[i]| < levels)
    && (forall p | AfterEntry(c, needs, e, p).Some? && |p| < levels :: p in rests)
  }

  function Under(k: nat, rests: seq<seq<nat>>): seq<seq<nat>> {
    seq(|rests|, i requires 0 <= i < |rests| => [k] + rests[i])
  }

  lemma UnderLeftToRight(k: nat, rests: seq<seq<nat>>)
    requires LeftToRight(rests)
    ensures LeftToRight(Under(k, rests))
  {
    forall i, j | 0 <= i < j < |rests|
      ensures LeftOf(Under(k, rests)[i], Under(k, rests)[j])
    {
      assert ([k] + rests[i])[1..] == rests[i] && ([k] + rests[j])[1..] == rests[j];
    }
  }

  lemma LeafAtSnoc(c: Catalog, needs: RequestNeeds, entries: seq<RouteEntry>, e: RouteEntry, p: seq<nat>)
    ensures LeafAt(c, needs, entries + [e], p)
         == if p != [] && p[0] == |entries| then AfterEntry(c, needs, e, p[1..]) else LeafAt(c, needs, entries, p)
    ensures LeafAt(c, needs, entries, p).Some? ==> p != [] && p[0] < |entries|
  {
    hide AfterEntry;
  }

  lemma OrderSnoc(paths: seq<seq<nat>>, k: nat, rests: seq<seq<nat>>)
    requires LeftToRight(paths) && LeftToRight(rests)
    requires forall i | 0 <= i < |paths| :: paths[i] != [] && paths[i][0] < k
    ensures LeftToRight(paths + Under(k, rests))
  {
    var all := paths + Under(k, rests);
    UnderLeftToRight(k, rests);
    forall i, j | 0 <= i < j < |all|
      ensures LeftOf(all[i], all[j])
    {
      if i < |paths| <= j {
        assert all[j] == [k] + rests[j - |paths|];
      } else if i >= |paths| {
        assert all[i] == Under(k, rests)[i - |paths|] && all[j] == Under(k, rests)[j - |paths|];
      }
    }
  }

  /** The continuation at position `i` below entry `k`. */
  lemma UnderAt(k: nat, rests: seq<seq<nat>>, i: nat)
    requires i < |rests|
    ensures Under(k, rests)[i] == [k] + rests[i] && Under(k, rests)[i][0] == k && Under(k, rests)[i][1..] == rests[i]
  {
  }

  lemma FoundSnoc(c: Catalog, needs: RequestNeeds, entries: seq<RouteEntry>, e: RouteEntry, levels: nat,
                  paths: seq<seq<nat>>, leaves: seq<Target>, rests: seq<seq<nat>>, more: seq<Target>, i: nat)
    requires Lists(c, needs, entries, levels, paths, leaves) && ListsAfter(c, needs, e, levels, rests, more)
    requires i < |paths| + |rests|
    ensures |Under(|entries|, rests)| == |rests| && |leaves + more| == |paths| + |rests|
    ensures var p := (paths + Under(|entries|, rests))[i];
            && LeafAt(c, needs, entries + [e], p) == Some((leaves + more)[i]) && |p| <= levels
            && (i < |paths| ==> p != [] && p[0] < |entries|)
  {
    hide LeafAt, AfterEntry, LeftToRight, Under;
    UnderCount(|entries|, rests);
    LeafAtSnoc(c, needs, entries, e, (paths + Under(|entries|, rests))[i]);
    if i >= |paths| {
      UnderAt(|entries|, rests, i - |paths|);
    }
  }

  lemma CompleteSnoc(c: Catalog, needs: RequestNeeds, entries: seq<RouteEntry>, e: RouteEntry, levels: nat,
                     paths: seq<seq<nat>>, leaves: seq<Target>, rests: seq<seq<nat>>, more: seq<Target>, p: seq<nat>)
    requires Lists(c, needs, entries, levels, paths, leaves) && ListsAfter(c, needs, e, levels, rests, more)
    requires LeafAt(c, needs, entries + [e], p).Some? && |p| <= levels
    ensures p in paths + Under(|entries|, rests)
  {
    hide LeafAt, AfterEntry, LeftToRight, Under;
    UnderCount(|entries|, rests);
    LeafAtSnoc(c, needs, entries, e, p);
    if p != [] && p[0] == |entries| {
      assert p[1..] in rests;
      var i :| 0 <= i < |rests| && rests[i] == p[1..];
      UnderAt(|entries|, rests, i);
      assert [|entries|] + p[1..] == p;
      assert (paths + Under(|entries|, rests))[|paths| + i] == p;
    } else {
      assert p in paths;
    }
  }

  lemma ListsSnoc(c: Catalog, needs: RequestNeeds, entries: seq<RouteEntry>, e: RouteEntry, levels: nat,
                  paths: seq<seq<nat>>, leaves: seq<Target>, rests: seq<seq<nat>>, more: seq<Target>)
    requires Lists(c, needs, entries, levels, paths, leaves) && ListsAfter(c, needs, e, levels, rests, more)
    ensures Lists(c, needs, entries + [e], levels, paths + Under(|entries|, rests), leaves + more)
  {
    hide LeafAt, AfterEntry, LeftToRight, Under;
    var all := paths + Under(|entries|, rests);
    UnderCount(|entries|, rests);
    forall i | 0 <= i < |all|
      ensures LeafAt(c, needs, entries + [e], all[i]) == Some((leaves + more)[i]) && |all[i]| <= levels
      ensures i < |paths| ==> paths[i] != [] && paths[i][0] < |entries|
    {
      FoundSnoc(c, needs, entries, e, levels, paths, leaves, rests, more, i);
    }
    OrderSnoc(paths, |entries|, rests);
    forall p | LeafAt(c, needs, entries + [e], p).Some? && |p| <= levels
      ensures p in all
    {
      CompleteSnoc(c, needs, entries, e, levels, paths, leaves, rests, more, p);
    }
  }

  lemma UnderCount(k: nat, rests: seq<seq<nat>>)
    ensures |Under(k, rests)| == |rests|
  {
  }

  lemma {:induction false} ChainLists(c: Catalog, needs: RequestNeeds, entries: seq<RouteEntry>, levels: nat)
    returns (paths: seq<seq<nat>>)
    requires levels > 0
    ensures Lists(c, needs, entries, levels, paths, ChainLeaves(c, needs, entries, levels))
    decreases levels, 1, |entries|
  {
    hide AfterEntry, EntryLeaves;
    if entries == [] {
      paths := [];
    } else {
      var front, last := entries[..|entries| - 1], entries[|entries| - 1];
      var before := ChainLists(c, needs, front, levels);
      var rests := EntryLists(c, needs, last, levels);
      hide Lists, ListsAfter;
      ListsSnoc(c, needs, front, last, levels, before, ChainLeaves(c, needs, front, levels), rests,
                EntryLeaves(c, needs, last, levels));
      assert entries == front + [last];
      paths := before + Under(|front|, rests);
    }
  }

  lemma EntryLists(c: Catalog, needs: RequestNeeds, e: RouteEntry, levels: nat) returns (rests: seq<seq<nat>>)
    requires levels > 0
    ensures ListsAfter(c, needs, e, levels, rests, EntryLeaves(c, needs, e, levels))
    decreases levels, 0, 0
  {
    if Eligible(needs, e) && Nested(e) {
      rests := LeavesInOrder(c, needs, e.targetRouteId.value, levels - 1);
    } else if EntryLeaves(c, needs, e, levels) == [] {
      rests := [];
    } else {
      rests := [[]];
    }
  }

  /**
   * The leaves come in order and each as often as it is reached: there is a list of paths of entry positions, from
   * left to right, that holds every path within the depth that leads to a leaf exactly once, and the leaves are those
   * it leads to.
   */
  lemma LeavesInOrder(c: Catalog, needs: RequestNeeds, routeId: int, levels: nat) returns (paths: seq<seq<nat>>)
    ensures Lists(c, needs, c.Chain(routeId), levels, paths, Leaves(c, needs, routeId, levels))
    decreases levels, 2, 0
  {
    if levels == 0 {
      paths := [];
    } else {
      paths := ChainLists(c, needs, c.Chain(routeId), levels);
    }
  }

  // ---------------------------------------------------------------- what the cycle check is for

  /** A walk that repeats a route can be pumped beyond any length. */
  lemma {:induction false} PumpedWalk(c: Catalog, needs: RequestNeeds, root: int, p: seq<int>, i: nat, j: nat, n: nat)
    returns (q: seq<int>)
    requires Walk(c, needs, root, p) && i < j < |p| && p[i] == p[j]
    ensures Walk(c, needs, root, q) && |q| >= n
    decreases n - |p|
  {
    if |p| >= n {
      q := p;
    } else {
      var longer := p[..j] + p[i..];
      forall k | 0 <= k < |longer| - 1
        ensures Link(c, needs, longer[k], longer[k + 1])
      {
        if k < j - 1 {
          assert longer[k] == p[k] && longer[k + 1] == p[k + 1];
        } else if k == j - 1 {
          assert longer[k] == p[j - 1] && longer[k + 1] == p[i] == p[j] == p[j - 1 + 1];
        } else {
          var m := k - j + i;
          assert longer[k] == p[m] && longer[k + 1] == p[m + 1];
        }
      }
      assert longer[0] == root;
      assert longer[i] == p[i] && longer[j] == p[i];
      q := PumpedWalk(c, needs, root, longer, i, j, n);
    }
  }

  /** The depth cap alone refuses every cycle; the cycle check only decides which error is reported. */
  lemma CapImpliesNoCycle(c: Catalog, needs: RequestNeeds, root: int)
    requires forall p | Walk(c, needs, root, p) :: |p| <= MAX_ROUTE_DEPTH
    ensures forall p | Walk(c, needs, root, p) :: Distinct(p)
  {
    forall p | Walk(c, needs, root, p)
      ensures Distinct(p)
    {
      if i, j :| 0 <= i < j < |p| && p[i] == p[j] {
        var q := PumpedWalk(c, needs, root, p, i, j, MAX_ROUTE_DEPTH + 1);
      }
    }
  }

  /** So a request expands exactly when all its walks are short enough and open to the caller. */
  lemma ExpandsWithoutCycleCheck(c: Catalog, caller: string, needs: RequestNeeds, root: int)
    ensures Expand(c, caller, needs, root, 0, []).Expanded? <==>
            forall p | Walk(c, needs, root, p) :: |p| <= MAX_ROUTE_DEPTH && Open(c, caller, needs, p[|p| - 1])
  {
    ExpandsIff(c, caller, needs, root, 0, []);
    if forall p | Walk(c, needs, root, p) :: |p| <= MAX_ROUTE_DEPTH && Open(c, caller, needs, p[|p| - 1]) {
      CapImpliesNoCycle(c, needs, root);
    } else {
      var p :| Walk(c, needs, root, p) && !(|p| <= MAX_ROUTE_DEPTH && Open(c, caller, needs, p[|p| - 1]));
      assert !Sound(c, caller, needs, 0, [], p);
    }
  }
}
