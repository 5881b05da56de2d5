/**
 * The capability flags of nested entries (src/router/mod.rs). The expansion filters nested entries on the flags stored
 * with them, as it filters direct ones; it does not recompute them from the route they lead to.
 */
module NestedFlags {
  import opened Base
  import opened Domain
  import opened Routing

  // ---------------------------------------------------------------- a fresh nested entry

  predicate Asks(needs: RequestNeeds) {
    needs.tools || needs.vision || needs.jsonMode
  }

  /** Every nested entry has all its flags off, as it has when it is added. */
  predicate AllFlagsOff(c: Catalog) {
    forall r, e | r in c.chains && e in c.chains[r] && Nested(e) ::
      e.capabilities == RouteCapabilities(false, false, false)
  }

  lemma NoLinks(c: Catalog, needs: RequestNeeds, a: int, b: int)
    requires AllFlagsOff(c) && Asks(needs)
    ensures !Link(c, needs, a, b)
  {
    forall e | e in c.Chain(a) && Nested(e)
      ensures !Eligible(needs, e)
    {
      assert a in c.chains && e in c.chains[a];
    }
  }

  /** Then a request that needs anything reaches the direct entries of the route it names, and nothing below. */
  lemma FreshNestedUnused(c: Catalog, needs: RequestNeeds, root: int, levels: nat, t: Target)
    requires AllFlagsOff(c) && Asks(needs) && levels > 0
    ensures t in Leaves(c, needs, root, levels) <==> LeafOf(c, needs, root, t)
  {
    LeavesAreReached(c, needs, root, levels, t);
    if LeafOf(c, needs, root, t) {
      assert Walk(c, needs, root, [root]);
      assert [root][|[root]| - 1] == root;
    }
    forall p | Walk(c, needs, root, p)
      ensures p == [root]
    {
      if |p| > 1 {
        WalkTail(c, needs, root, p);
        NoLinks(c, needs, root, p[1]);
      }
    }
  }

  const TOOLS := RequestNeeds(true, false, false)

  /** A route that holds one fresh nested entry, which leads to a route with one entry that can serve tools. */
  function Example(caller: string): Catalog {
    var direct := RouteEntry(2, Some(1), None, 1.0, Healthy, RouteCapabilities(true, true, true), 0.0, 0);
    var nested := RouteEntry(1, None, Some(20), 1.0, Healthy, RouteCapabilities(false, false, false), 0.0, 0);
    Catalog(map[], map[], map[1 := caller],
            map[10 := Route(1, Priority, None, false, Auto), 20 := Route(1, Priority, None, false, Auto)],
            map[10 := [nested], 20 := [direct]],
            map[1 := Provider(1, caller, false, OpenAI)])
  }

  /** There a request for tools finds nothing through the nested entry, though the route behind it serves tools. */
  lemma FreshNestedHidesTools(caller: string)
    ensures Expand(Example(caller), caller, TOOLS, 10, 0, []) == Expanded([])
    ensures Expand(Example(caller), caller, TOOLS, 20, 0, [])
         == Expanded([TargetOf(Example(caller), Example(caller).Chain(20)[0])])
  {
    var c := Example(caller);
    OneEntry(c, caller, TOOLS, 10, c.Chain(10)[0]);
    OneEntry(c, caller, TOOLS, 20, c.Chain(20)[0]);
  }

  lemma OneEntry(c: Catalog, caller: string, needs: RequestNeeds, routeId: int, e: RouteEntry)
    requires c.Chain(routeId) == [e] && (Nested(e) ==> !Eligible(needs, e))
    ensures Expand(c, caller, needs, routeId, 0, [])
         == (if !Eligible(needs, e) then Expanded([])
             else if Objection(c, caller, e).Some? then Refused(Objection(c, caller, e).value)
             else Expanded(if e.providerId.Some? then [TargetOf(c, e)] else []))
  {
    var path: seq<int> := [] + [routeId];
    var none := [e][..0];
    assert none == [];
    assert ExpandChain(c, caller, needs, none, 0, path) == Expanded([]);
  }

  // ---------------------------------------------------------------- flags that say nothing

  /** Selection if the flags of nested entries were advisory. */
  predicate Advisable(needs: RequestNeeds, e: RouteEntry) {
    InRotation(e.status) && (Nested(e) || needs.Satisfies(e.capabilities))
  }

  /** The leaves of a route if the flags of nested entries were advisory. */
  function AdvisoryLeaves(c: Catalog, needs: RequestNeeds, routeId: int, levels: nat): seq<Target>
    decreases levels, 1, 0
  {
    if levels == 0 then [] else AdvisoryChain(c, needs, c.Chain(routeId), levels)
  }

  function AdvisoryChain(c: Catalog, needs: RequestNeeds, entries: seq<RouteEntry>, levels: nat): seq<Target>
    requires levels > 0
    decreases levels, 0, |entries|
  {
    if entries == [] then []
    else AdvisoryChain(c, needs, entries[..|entries| - 1], levels)
         + AdvisoryEntry(c, needs, entries[|entries| - 1], levels)
  }

  function AdvisoryEntry(c: Catalog, needs: RequestNeeds, e: RouteEntry, levels: nat): seq<Target>
    requires levels > 0
    decreases levels, 0, 0
  {
    if !Advisable(needs, e) then []
    else if e.providerId.Some? then
      if e.providerId.value in c.providers then [TargetOf(c, e)] else []
    else if e.targetRouteId.Some? then AdvisoryLeaves(c, needs, e.targetRouteId.value, levels - 1)
    else []
  }

  /** A nested entry in rotation that is turned down for its own flags although something below it could serve. */
  predicate Hides(c: Catalog, needs: RequestNeeds, e: RouteEntry, levels: nat)
    requires levels > 0
  {
    && Nested(e) && InRotation(e.status) && !needs.Satisfies(e.capabilities)
    && AdvisoryLeaves(c, needs, e.targetRouteId.value, levels - 1) != []
  }

  /** An entry that hides something itself or leads to a route that does. */
  predicate Loses(c: Catalog, needs: RequestNeeds, e: RouteEntry, levels: nat)
    requires levels > 0
    decreases levels, 0
  {
    || Hides(c, needs, e, levels)
    || (Nested(e) && Eligible(needs, e) && LosesIn(c, needs, e.targetRouteId.value, levels - 1))
  }

  predicate LosesIn(c: Catalog, needs: RequestNeeds, routeId: int, levels: nat)
    decreases levels, 1
  {
    levels > 0 && exists e | e in c.Chain(routeId) :: Loses(c, needs, e, levels)
  }

  /** `kept` is all of `wanted`, or shorter. */
  predicate AllOrLess(kept: seq<Target>, wanted: seq<Target>, all: bool) {
    if all then kept == wanted else |kept| < |wanted|
  }

  lemma {:induction false} LeavesLost(c: Catalog, needs: RequestNeeds, routeId: int, levels: nat)
    ensures AllOrLess(Leaves(c, needs, routeId, levels), AdvisoryLeaves(c, needs, routeId, levels),
                      !LosesIn(c, needs, routeId, levels))
    decreases levels, 2, 0
  {
    if levels > 0 {
      ChainLost(c, needs, c.Chain(routeId), levels);
    }
  }

  lemma {:induction false} ChainLost(c: Catalog, needs: RequestNeeds, entries: seq<RouteEntry>, levels: nat)
    requires levels > 0
    ensures AllOrLess(ChainLeaves(c, needs, entries, levels), AdvisoryChain(c, needs, entries, levels),
                      forall e | e in entries :: !Loses(c, needs, e, levels))
    decreases levels, 1, |entries|
  {
    hide Loses, EntryLeaves, AdvisoryEntry;
    if entries != [] {
      var front, last := entries[..|entries| - 1], entries[|entries| - 1];
      ChainLost(c, needs, front, levels);
      EntryLost(c, needs, last, levels);
      assert entries == front + [last];
    }
  }

  lemma EntryLost(c: Catalog, needs: RequestNeeds, e: RouteEntry, levels: nat)
    requires levels > 0
    ensures AllOrLess(EntryLeaves(c, needs, e, levels), AdvisoryEntry(c, needs, e, levels), !Loses(c, needs, e, levels))
    decreases levels, 0, 0
  {
    hide LosesIn, Leaves, AdvisoryLeaves;
    if Nested(e) {
      LeavesLost(c, needs, e.targetRouteId.value, levels - 1);
    }
  }

  predicate HidesIn(c: Catalog, needs: RequestNeeds, routeId: int, levels: nat) {
    levels > 0 && exists e | e in c.Chain(routeId) :: Hides(c, needs, e, levels)
  }

  /** A walk to a route with an entry that hides something within the levels left there. */
  ghost predicate WalkLoses(c: Catalog, needs: RequestNeeds, root: int, levels: nat, p: seq<int>) {
    && Walk(c, needs, root, p) && |p| <= levels
    && HidesIn(c, needs, p[|p| - 1], levels - |p| + 1)
  }

  lemma {:induction false} LossOnWalk(c: Catalog, needs: RequestNeeds, root: int, levels: nat) returns (p: seq<int>)
    requires LosesIn(c, needs, root, levels)
    ensures WalkLoses(c, needs, root, levels, p)
    decreases levels
  {
    var e :| e in c.Chain(root) && Loses(c, needs, e, levels);
    if Hides(c, needs, e, levels) {
      p := [root];
      assert HidesIn(c, needs, root, levels);
    } else {
      var tail := LossOnWalk(c, needs, e.targetRouteId.value, levels - 1);
      WalkCons(c, needs, root, tail);
      p := [root] + tail;
      assert p[|p| - 1] == tail[|tail| - 1];
    }
  }

  lemma {:induction false} WalkLost(c: Catalog, needs: RequestNeeds, root: int, levels: nat, p: seq<int>)
    requires WalkLoses(c, needs, root, levels, p)
    ensures LosesIn(c, needs, root, levels)
    decreases levels
  {
    if |p| == 1 {
      var e :| e in c.Chain(root) && Hides(c, needs, e, levels);
      assert Loses(c, needs, e, levels);
    } else {
      WalkTail(c, needs, root, p);
      var e :| e in c.Chain(root) && Eligible(needs, e) && Nested(e) && e.targetRouteId == Some(p[1]);
      assert p[1..][|p[1..]| - 1] == p[|p| - 1];
      WalkLost(c, needs, p[1], levels - 1, p[1..]);
      assert Loses(c, needs, e, levels);
    }
  }

  /**
   * The stored flags of nested entries are as good as advisory exactly when no walk reaches a nested entry in rotation
   * that lacks a flag the request needs although the route behind it has a leaf for the request.
   */
  lemma FlagsAreAdvisoryIff(c: Catalog, needs: RequestNeeds, root: int, levels: nat)
    ensures Leaves(c, needs, root, levels) == AdvisoryLeaves(c, needs, root, levels)
       <==> forall p :: !WalkLoses(c, needs, root, levels, p)
  {
    LeavesLost(c, needs, root, levels);
    if LosesIn(c, needs, root, levels) {
      var p := LossOnWalk(c, needs, root, levels);
    }
    if p :| WalkLoses(c, needs, root, levels, p) {
      WalkLost(c, needs, root, levels, p);
    }
  }
}
