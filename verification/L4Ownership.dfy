/** Exclusive ownership of a layer-4 listener among the routes that match it, and failover when the owner goes. */
module L4Ownership {
  import opened Text
  import opened Precedence

  type ParentRef = string

  datatype Route = Route(
    key: string, namespace: string, created: int, deleting: bool, parentRefs: seq<ParentRef>, content: string)

  datatype Match = Match(route: Route, key: string, matchedRef: ParentRef)

  /** Whether a parent reference of a route in a namespace selects the listener in question. */
  type ListenerTest = (ParentRef, string) -> bool

  function MatchRank(m: Match): Rank {
    Rank(m.route.created, m.key)
  }

  function FirstRef(refs: seq<ParentRef>, namespace: string, selects: ListenerTest): Option<ParentRef> {
    if refs == [] then None
    else if selects(refs[0], namespace) then Some(refs[0])
    else FirstRef(refs[1..], namespace, selects)
  }

  /** The match of one route: none while it is being deleted, is excluded, or selects another listener. */
  function MatchOf(route: Route, excluded: string, selects: ListenerTest): Option<Match> {
    if route.deleting || route.key == excluded then None
    else
      match FirstRef(route.parentRefs, route.namespace, selects)
      case None => None
      case Some(ref) => Some(Match(route, route.key, ref))
  }

  function Matches(routes: seq<Route>, excluded: string, selects: ListenerTest): seq<Match> {
    if routes == [] then []
    else
      (match MatchOf(routes[0], excluded, selects) case None => [] case Some(m) => [m]) +
      Matches(routes[1..], excluded, selects)
  }

  function MatchingRoutes(routes: seq<Route>, excluded: string, selects: ListenerTest): seq<Match> {
    Sort(Matches(routes, excluded, selects), MatchRank)
  }

  function MatchList(route: Route, excluded: string, selects: ListenerTest): seq<Match> {
    match MatchOf(route, excluded, selects) case None => [] case Some(m) => [m]
  }

  lemma {:induction false} MatchesSnoc(routes: seq<Route>, i: nat, excluded: string, selects: ListenerTest)
    requires i < |routes|
    ensures Matches(routes[..i + 1], excluded, selects) ==
            Matches(routes[..i], excluded, selects) + MatchList(routes[i], excluded, selects)
  {
    if i == 0 {
      assert routes[..1][1..] == [] && routes[..0] == [];
    } else {
      MatchesSnoc(routes[1..], i - 1, excluded, selects);
      assert routes[..i + 1][1..] == routes[1..][..i] && routes[..i][1..] == routes[1..][..i - 1];
    }
  }

  /** The loop over the parent references of one route; the first that selects the listener ends it. */
  method AppendMatch(matches: seq<Match>, route: Route, excluded: string, selects: ListenerTest)
    returns (more: seq<Match>)
    ensures more == matches + MatchList(route, excluded, selects)
  {
    more := matches;
    if route.deleting || route.key == excluded { return; }
    for j := 0 to |route.parentRefs|
      invariant more == matches
      invariant FirstRef(route.parentRefs, route.namespace, selects) ==
                FirstRef(route.parentRefs[j..], route.namespace, selects)
    {
      assert route.parentRefs[j..][1..] == route.parentRefs[j + 1..];
      if selects(route.parentRefs[j], route.namespace) {
        more := matches + [Match(route, route.key, route.parentRefs[j])];
        return;
      }
    }
  }

  method MatchingRoutesForListener(routes: seq<Route>, excluded: string, selects: ListenerTest)
    returns (result: seq<Match>)
    ensures result == MatchingRoutes(routes, excluded, selects)
  {
    var matches: seq<Match> := [];
    for i := 0 to |routes|
      invariant matches == Matches(routes[..i], excluded, selects)
    {
      MatchesSnoc(routes, i, excluded, selects);
      matches := AppendMatch(matches, routes[i], excluded, selects);
    }
    assert routes[..|routes|] == routes;
    result := Sort(matches, MatchRank);
  }

  /** `ensureExclusiveL4ListenerOwner`: true when the route may own the listener. */
  predicate PassesOwnershipCheck(matches: seq<Match>, key: string) {
    matches == [] || matches[0].key == key
  }

  predicate CheckOwner(routes: seq<Route>, key: string, selects: ListenerTest) {
    PassesOwnershipCheck(MatchingRoutes(routes, "", selects), key)
  }

  /** The route that takes over when the route with `leaving` gives the listener up. */
  function NextEligible(routes: seq<Route>, leaving: string, selects: ListenerTest): Option<Route> {
    var matches := MatchingRoutes(routes, leaving, selects);
    if matches == [] then None else Some(matches[0].route)
  }

  // ----- who matches

  ghost predicate UniqueKeys(routes: seq<Route>) {
    (forall i, j :: 0 <= i < j < |routes| ==> routes[i].key != routes[j].key) &&
    (forall i :: 0 <= i < |routes| ==> routes[i].key != "")
  }

  /** A route competes for the listener when it is live and one of its parent references selects it. */
  ghost predicate Competes(route: Route, selects: ListenerTest) {
    !route.deleting && exists ref :: ref in route.parentRefs && selects(ref, route.namespace)
  }

  /** The oldest competitor, by key among equally old ones. */
  ghost predicate IsOwner(route: Route, routes: seq<Route>, selects: ListenerTest) {
    && route in routes && Competes(route, selects)
    && forall other :: other in routes && Competes(other, selects) && other != route ==>
         Before(Rank(route.created, route.key), Rank(other.created, other.key))
  }

  lemma {:induction false} FirstRefExists(refs: seq<ParentRef>, namespace: string, selects: ListenerTest)
    ensures FirstRef(refs, namespace, selects).Some? <==> exists ref :: ref in refs && selects(ref, namespace)
  {
    if refs != [] {
      FirstRefExists(refs[1..], namespace, selects);
      if ref :| ref in refs && selects(ref, namespace) {
        assert ref == refs[0] || ref in refs[1..];
      }
    }
  }

  lemma {:induction false} MatchedRoutes(routes: seq<Route>, excluded: string, selects: ListenerTest)
    ensures forall m :: m in Matches(routes, excluded, selects) ==>
              m.route in routes && m.key == m.route.key != excluded && Competes(m.route, selects)
    ensures forall r :: r in routes && Competes(r, selects) && r.key != excluded ==>
              exists m :: m in Matches(routes, excluded, selects) && m.route == r
  {
    if routes != [] {
      MatchedRoutes(routes[1..], excluded, selects);
      FirstRefExists(routes[0].parentRefs, routes[0].namespace, selects);
      var first := MatchOf(routes[0], excluded, selects);
      var rest := Matches(routes[1..], excluded, selects);
      forall r | r in routes && Competes(r, selects) && r.key != excluded
        ensures exists m :: m in Matches(routes, excluded, selects) && m.route == r
      {
        if r == routes[0] {
          assert first.value in Matches(routes, excluded, selects);
        } else {
          var m :| m in rest && m.route == r;
          assert m in Matches(routes, excluded, selects);
        }
      }
    }
  }

  lemma {:induction false} SortedMembers(routes: seq<Route>, excluded: string, selects: ListenerTest)
    ensures forall m :: m in MatchingRoutes(routes, excluded, selects) <==> m in Matches(routes, excluded, selects)
    ensures Sorted(MatchingRoutes(routes, excluded, selects), MatchRank)
  {
    var matches := Matches(routes, excluded, selects);
    SortSorts(matches, MatchRank);
    SameMembers(matches, Sort(matches, MatchRank));
  }

  lemma {:induction false} SameKeySameRoute(routes: seq<Route>, a: Route, b: Route)
    requires UniqueKeys(routes) && a in routes && b in routes && a.key == b.key
    ensures a == b
  {
    var i :| 0 <= i < |routes| && routes[i] == a;
    var j :| 0 <= j < |routes| && routes[j] == b;
  }

  /** The first match is the oldest competitor other than the excluded one. */
  lemma {:induction false} FirstMatchIsOldest(routes: seq<Route>, excluded: string, selects: ListenerTest)
    requires UniqueKeys(routes)
    ensures var matches := MatchingRoutes(routes, excluded, selects);
            && (matches == [] <==> !exists r :: r in routes && Competes(r, selects) && r.key != excluded)
            && (matches != [] ==>
                  && matches[0].key == matches[0].route.key != excluded
                  && matches[0].route in routes && Competes(matches[0].route, selects)
                  && forall r :: r in routes && Competes(r, selects) && r.key != excluded && r != matches[0].route ==>
                       Before(MatchRank(matches[0]), Rank(r.created, r.key)))
  {
    var matches := MatchingRoutes(routes, excluded, selects);
    MatchedRoutes(routes, excluded, selects);
    SortedMembers(routes, excluded, selects);
    if matches != [] {
      var first := matches[0];
      assert first in matches;
      FirstIsLeast(matches, MatchRank);
      forall r | r in routes && Competes(r, selects) && r.key != excluded && r != first.route
        ensures Before(MatchRank(first), Rank(r.created, r.key))
      {
        var m :| m in Matches(routes, excluded, selects) && m.route == r;
        assert m in matches && m.key == r.key;
        if r.key == first.key { SameKeySameRoute(routes, r, first.route); }
        BeforeIsStrictTotal(MatchRank(first), MatchRank(m));
      }
    }
  }

  /** For any set of routes that compete for a listener, exactly one key passes the check: that of the oldest
      competitor. When nobody competes, every route passes. */
  lemma {:induction false} ExactlyTheOldestPasses(routes: seq<Route>, selects: ListenerTest)
    requires UniqueKeys(routes)
    ensures (exists r :: r in routes && Competes(r, selects)) ==>
              exists owner :: IsOwner(owner, routes, selects) &&
                forall key :: CheckOwner(routes, key, selects) <==> key == owner.key
    ensures (!exists r :: r in routes && Competes(r, selects)) ==>
              forall key :: CheckOwner(routes, key, selects)
  {
    FirstMatchIsOldest(routes, "", selects);
    var matches := MatchingRoutes(routes, "", selects);
    forall r | r in routes ensures r.key != "" {
      var i :| 0 <= i < |routes| && routes[i] == r;
    }
    if matches != [] {
      var owner := matches[0].route;
      assert IsOwner(owner, routes, selects);
      assert forall key :: CheckOwner(routes, key, selects) <==> key == owner.key;
    } else {
      forall key ensures CheckOwner(routes, key, selects) {}
    }
  }

  lemma {:induction false} OwnerIsUnique(routes: seq<Route>, selects: ListenerTest, a: Route, b: Route)
    requires IsOwner(a, routes, selects) && IsOwner(b, routes, selects)
    ensures a == b
  {
    BeforeIsStrictTotal(Rank(a.created, a.key), Rank(b.created, b.key));
  }

  // ----- failover

  /** The routes once the route with this key is marked for deletion. */
  function MarkDeleting(routes: seq<Route>, key: string): (r: seq<Route>)
    ensures |r| == |routes|
    ensures forall i :: 0 <= i < |routes| ==>
              r[i] == if routes[i].key == key then routes[i].(deleting := true) else routes[i]
  {
    if routes == [] then []
    else [if routes[0].key == key then routes[0].(deleting := true) else routes[0]] + MarkDeleting(routes[1..], key)
  }

  /** The routes once the route with this key is gone. */
  function Remove(routes: seq<Route>, key: string): seq<Route> {
    if routes == [] then []
    else (if routes[0].key == key then [] else [routes[0]]) + Remove(routes[1..], key)
  }

  lemma {:induction false} ExcludedLikeDeleting(routes: seq<Route>, key: string, selects: ListenerTest)
    requires forall i :: 0 <= i < |routes| ==> routes[i].key != ""
    requires key != ""
    ensures Matches(MarkDeleting(routes, key), "", selects) == Matches(routes, key, selects)
    ensures Matches(MarkDeleting(routes, key), key, selects) == Matches(routes, key, selects)
    ensures Matches(Remove(routes, key), "", selects) == Matches(routes, key, selects)
  {
    if routes != [] {
      ExcludedLikeDeleting(routes[1..], key, selects);
      assert MarkDeleting(routes, key)[1..] == MarkDeleting(routes[1..], key);
      var rest := Remove(routes[1..], key);
      if routes[0].key == key {
        assert Remove(routes, key) == rest;
      } else {
        assert Remove(routes, key) == [routes[0]] + rest && ([routes[0]] + rest)[1..] == rest;
      }
    }
  }

  /** Failover agrees with the check: the route picked while the owner is being deleted is exactly the one that
      passes the ownership check afterwards, both while the owner still carries its finalizer and once it is
      gone; no route is picked exactly when nobody else competes. */
  lemma {:induction false} FailoverPicksTheNextOwner(routes: seq<Route>, leaving: string, selects: ListenerTest)
    requires UniqueKeys(routes) && leaving != ""
    ensures var next := NextEligible(MarkDeleting(routes, leaving), leaving, selects);
            && (next.None? <==> !exists r :: r in routes && Competes(r, selects) && r.key != leaving)
            && (next.Some? ==>
                  && next.value in routes && next.value.key != leaving && Competes(next.value, selects)
                  && (forall key :: CheckOwner(MarkDeleting(routes, leaving), key, selects) <==> key == next.value.key)
                  && (forall key :: CheckOwner(Remove(routes, leaving), key, selects) <==> key == next.value.key))
  {
    ExcludedLikeDeleting(routes, leaving, selects);
    FirstMatchIsOldest(routes, leaving, selects);
    var matches := MatchingRoutes(routes, leaving, selects);
    if matches != [] {
      forall key ensures CheckOwner(MarkDeleting(routes, leaving), key, selects) <==> key == matches[0].key {}
      forall key ensures CheckOwner(Remove(routes, leaving), key, selects) <==> key == matches[0].key {}
    }
  }
}
