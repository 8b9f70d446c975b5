/** Two facts about compiled conditions that hold for every route: a gRPC condition always carries the marker
    the rule order looks for, and dropping matches without conjuncts is harmless exactly in stated cases. */
module ConditionGuarantees {
  import opened Text
  import opened ConditionText
  import opened ConditionCompiler
  import opened ConditionMeaning
  import RoutingRules

  // ----- the gRPC marker

  lemma {:induction false} ContainsPart(s: string, part: string, sub: string)
    requires Contains(s, part) && Contains(part, sub)
    ensures Contains(s, sub)
    decreases |s|
  {
    if HasPrefix(s, part) {
      assert s == "" + part + s[|part|..];
      ContainsInside("", part, s[|part|..], sub);
    } else {
      ContainsPart(s[1..], part, sub);
    }
  }

  lemma {:induction false} ContainsSelf(s: string)
    ensures Contains(s, s)
  {
    assert s[..|s|] == s;
  }

  lemma {:induction false} JoinContains(parts: seq<string>, sep: string, part: string)
    requires part in parts
    ensures Contains(Join(parts, sep), part)
  {
    ContainsSelf(part);
    if |parts| == 1 {
      assert parts[0] == part;
    } else {
      var rest := Join(parts[1..], sep);
      if parts[0] == part {
        assert Join(parts, sep) == "" + part + (sep + rest);
        ContainsInside("", part, sep + rest, part);
      } else {
        assert part in parts[1..];
        JoinContains(parts[1..], sep, part);
        assert Join(parts, sep) == (parts[0] + sep) + rest + "";
        ContainsInside(parts[0] + sep, rest, "", part);
      }
    }
  }

  lemma {:induction false} AllOfContains(conjuncts: seq<string>, part: string)
    requires part in conjuncts
    ensures Contains(AllOf(conjuncts), part)
  {
    ContainsSelf(part);
    if |conjuncts| == 1 {
      assert conjuncts[0] == part;
    } else {
      JoinContains(conjuncts, ", ", part);
      ContainsInside("all(", Join(conjuncts, ", "), ")", part);
    }
  }

  /** Flattening keeps what was collected and adds every condition that is not itself an `all(...)`. */
  lemma {:induction false} AppendAllKeeps(conditions: seq<string>, more: seq<string>, part: string)
    requires part in conditions || (part in more && part != "" && part[0] != 'a')
    ensures part in AppendAll(conditions, more)
    decreases |more|
  {
    if more != [] {
      AppendPartsKeeps(conditions, more[0], part);
      AppendAllKeeps(AppendParts(conditions, more[0]), more[1..], part);
    }
  }

  lemma {:induction false} AppendPartsKeeps(conditions: seq<string>, condition: string, part: string)
    ensures part in conditions ==> part in AppendParts(conditions, condition)
    ensures part == condition && part != "" && part[0] != 'a' ==> part in AppendParts(conditions, condition)
  {
  }

  lemma {:induction false} ConjunctionContains(conditions: seq<string>, part: string)
    requires part in conditions && part != "" && part[0] != 'a'
    ensures Contains(AllRoutingConditions(conditions), part)
  {
    AppendAllKeeps([], conditions, part);
    AllOfContains(AppendAll([], conditions), part);
  }

  lemma {:induction false} FirstContentType(prefix: seq<string>, suffix: seq<string>)
    ensures var conditions := ForEachContentType(prefix, GRPC_CONTENT_TYPES, suffix);
            conditions != [] && Contains(conditions[0], GRPC_EXACT)
  {
    var combined := prefix + [GRPC_EXACT] + suffix;
    assert combined[|prefix|] == GRPC_EXACT;
    assert GRPC_EXACT[0] == 'h';
    ConjunctionContains(combined, GRPC_EXACT);
  }

  lemma {:induction false} FirstDisjunct(hostConditions: seq<string>, matchConditions: seq<string>)
    requires hostConditions != []
    ensures var conditions := GRPCHostConditions(hostConditions, matchConditions);
            conditions != [] && Contains(conditions[0], GRPC_EXACT)
  {
    if matchConditions == [] {
      FirstContentType([hostConditions[0]], []);
    } else {
      FirstContentType([hostConditions[0]], [matchConditions[0]]);
    }
  }

  lemma {:induction false} AnyOfContains(conditions: seq<string>, part: string)
    requires conditions != [] && Contains(conditions[0], part)
    ensures Contains(AnyOf(conditions), part)
  {
    assert conditions[0] in conditions;
    JoinContains(conditions, ", ", conditions[0]);
    ContainsPart(Join(conditions, ", "), conditions[0], part);
    ContainsInside("any(", Join(conditions, ", "), ")", part);
  }

  lemma {:induction false} ExactHasMarker()
    ensures Contains(GRPC_EXACT, "eq (i 'application/grpc')")
  {
    var marker := "eq (i 'application/grpc')";
    var lead := "http.request.headers[(i 'content-type')][0] ";
    assert GRPC_EXACT == lead + marker + "";
    ContainsSelf(marker);
    ContainsInside(lead, marker, "", marker);
  }

  lemma {:induction false} MarkedWhen(condition: string, marker: string)
    requires marker == RoutingRules.NATIVE_GRPC_MARKERS[0] && Contains(condition, marker)
    ensures RoutingRules.ConditionMatchesNativeGRPC(condition)
  {
  }

  lemma {:induction false} ExactIsMarked(condition: string)
    requires Contains(condition, GRPC_EXACT)
    ensures RoutingRules.ConditionMatchesNativeGRPC(condition)
  {
    ExactHasMarker();
    ContainsPart(condition, GRPC_EXACT, "eq (i 'application/grpc')");
    MarkedWhen(condition, "eq (i 'application/grpc')");
  }

  /** Whatever the hostnames and matches, a compiled gRPC condition is recognized as native gRPC, so its rule is
      sorted into the first tier. */
  lemma {:induction false} GRPCConditionsAreMarked(hostnames: seq<string>, port: nat, matches: seq<GRPCRouteMatch>)
    ensures MapGRPCRoute(hostnames, port, matches).Ok? ==>
              RoutingRules.ConditionMatchesNativeGRPC(MapGRPCRoute(hostnames, port, matches).value)
  {
    if GRPCLists(matches).Ok? {
      CompiledContainsExact(hostnames, port, matches);
      ExactIsMarked(MapGRPCRoute(hostnames, port, matches).value);
    }
  }

  lemma {:induction false} CompiledContainsExact(hostnames: seq<string>, port: nat, matches: seq<GRPCRouteMatch>)
    requires GRPCLists(matches).Ok?
    ensures Contains(MapGRPCRoute(hostnames, port, matches).value, GRPC_EXACT)
  {
    var matchConditions := MatchConditions(GRPCLists(matches).value);
    if hostnames != [] {
      var hosts := AllHostConditions(hostnames, port);
      FirstDisjunct(hosts, matchConditions);
      AnyOfContains(GRPCHostConditions(hosts, matchConditions), GRPC_EXACT);
    } else if matchConditions == [] {
      ContainsSelf(GRPC_EXACT);
      AnyOfContains(GRPC_CONTENT_TYPES, GRPC_EXACT);
    } else {
      FirstContentType([], [matchConditions[0]]);
      AnyOfContains(GRPCForEachMatch([], matchConditions), GRPC_EXACT);
    }
  }

  // ----- dropped matches

  /** What a route asks for when every match counts, also one without conjuncts (which every request meets).
      `worlds` lists the smallest sets of atoms that satisfy the host and content-type part. */
  ghost predicate Intended(worlds: set<set<string>>, lists: seq<seq<string>>, holds: string -> bool) {
    Opens(worlds, holds) && MatchesHold(lists, holds)
  }

  ghost predicate Opens(worlds: set<set<string>>, holds: string -> bool) {
    exists w :: w in worlds && AllIn(w, holds)
  }

  ghost predicate AllIn(w: set<string>, holds: string -> bool) {
    forall a :: a in w ==> holds(a)
  }

  ghost predicate Meets(w: set<string>, lists: seq<seq<string>>) {
    exists l :: l in lists && Within(l, w)
  }

  ghost predicate Within(l: seq<string>, w: set<string>) {
    forall a :: a in l ==> a in w
  }

  /** Every smallest world already meets one of the matches that have conjuncts. */
  ghost predicate Covered(worlds: set<set<string>>, lists: seq<seq<string>>) {
    forall w :: w in worlds ==> Meets(w, lists)
  }

  ghost predicate DropIsHarmless(worlds: set<set<string>>, lists: seq<seq<string>>) {
    [] !in lists || NonEmpty(lists) == [] || Covered(worlds, NonEmpty(lists))
  }

  lemma {:induction false} HarmlessWhen(worlds: set<set<string>>, lists: seq<seq<string>>, holds: string -> bool)
    requires DropIsHarmless(worlds, lists)
    ensures Intended(worlds, lists, holds) <==> Intended(worlds, NonEmpty(lists), holds)
  {
    var kept := NonEmpty(lists);
    if [] !in lists {
      assert lists != [] ==> lists[0] in kept;
    } else if kept == [] {
      assert AllHold([], holds);
    } else if Opens(worlds, holds) {
      var w :| w in worlds && AllIn(w, holds);
      assert Meets(w, kept);
      var l :| l in kept && Within(l, w);
      assert AllHold(l, holds);
    }
  }

  lemma {:induction false} HarmfulOtherwise(worlds: set<set<string>>, lists: seq<seq<string>>)
    returns (holds: string -> bool)
    requires !DropIsHarmless(worlds, lists)
    ensures Intended(worlds, lists, holds) && !Intended(worlds, NonEmpty(lists), holds)
  {
    var w :| w in worlds && !Meets(w, NonEmpty(lists));
    holds := a => a in w;
    assert AllHold([], holds) && AllIn(w, holds);
    forall l | l in NonEmpty(lists) ensures !AllHold(l, holds) {
      assert !Within(l, w);
    }
  }

  function HostWorlds(hostnames: seq<string>, port: nat): set<set<string>> {
    if hostnames == [] then {{}} else set hc | hc in AllHostConditions(hostnames, port) :: {hc}
  }

  function GRPCWorlds(hostnames: seq<string>, port: nat): set<set<string>> {
    set w, ct | w in HostWorlds(hostnames, port) && ct in GRPC_CONTENT_TYPES :: w + {ct}
  }

  lemma {:induction false} HostWorldsOpen(hostnames: seq<string>, port: nat, holds: string -> bool)
    ensures Opens(HostWorlds(hostnames, port), holds) <==>
            hostnames == [] || Any(AllHostConditions(hostnames, port), holds)
  {
    var worlds := HostWorlds(hostnames, port);
    if hostnames == [] {
      var none: set<string> := {};
      assert none in worlds && AllIn(none, holds);
    } else if Any(AllHostConditions(hostnames, port), holds) {
      var hc :| hc in AllHostConditions(hostnames, port) && holds(hc);
      assert {hc} in worlds && AllIn({hc}, holds);
    }
  }

  lemma {:induction false} GRPCWorldsOpen(hostnames: seq<string>, port: nat, holds: string -> bool)
    ensures Opens(GRPCWorlds(hostnames, port), holds) <==>
            Opens(HostWorlds(hostnames, port), holds) && Any(GRPC_CONTENT_TYPES, holds)
  {
    var worlds := GRPCWorlds(hostnames, port);
    if Opens(HostWorlds(hostnames, port), holds) && Any(GRPC_CONTENT_TYPES, holds) {
      var w :| w in HostWorlds(hostnames, port) && AllIn(w, holds);
      var ct :| ct in GRPC_CONTENT_TYPES && holds(ct);
      assert w + {ct} in worlds && AllIn(w + {ct}, holds);
    }
    if Opens(worlds, holds) {
      var v :| v in worlds && AllIn(v, holds);
      var w, ct :| w in HostWorlds(hostnames, port) && ct in GRPC_CONTENT_TYPES && v == w + {ct};
      assert ct in v && AllIn(w, holds);
    }
  }

  /** A non-empty compiled HTTP condition means what the route asks for on every request exactly when no match
      is without conjuncts, or all are, or each host condition alone already meets a match with conjuncts. Atoms are
      uninterpreted here: "only when" speaks of all ways they may hold, not only of those that one request gives. */
  lemma {:induction false} HTTPDroppedMatchesExact(hostnames: seq<string>, port: nat, matches: seq<HTTPRouteMatch>)
    requires forall h :: h in hostnames ==> '\'' !in h
    requires HTTPLists(matches).Ok? && (hostnames != [] || NonEmpty(HTTPLists(matches).value) != [])
    ensures var text, lists := MapHTTPRoute(hostnames, port, matches).value, HTTPLists(matches).value;
            var worlds := HostWorlds(hostnames, port);
            (forall holds: string -> bool :: Eval(text, holds) <==> Intended(worlds, lists, holds)) <==>
            DropIsHarmless(worlds, lists)
  {
    var text, lists := MapHTTPRoute(hostnames, port, matches).value, HTTPLists(matches).value;
    var worlds := HostWorlds(hostnames, port);
    forall holds: string -> bool ensures Eval(text, holds) <==> Intended(worlds, NonEmpty(lists), holds) {
      HTTPConditionMeaning(hostnames, port, matches, holds);
      HostWorldsOpen(hostnames, port, holds);
    }
    DropExact(text, worlds, lists);
  }

  lemma {:induction false} DropExact(text: string, worlds: set<set<string>>, lists: seq<seq<string>>)
    requires forall holds: string -> bool :: Eval(text, holds) <==> Intended(worlds, NonEmpty(lists), holds)
    ensures (forall holds: string -> bool :: Eval(text, holds) <==> Intended(worlds, lists, holds)) <==>
            DropIsHarmless(worlds, lists)
  {
    if DropIsHarmless(worlds, lists) {
      forall holds: string -> bool ensures Eval(text, holds) <==> Intended(worlds, lists, holds) {
        HarmlessWhen(worlds, lists, holds);
      }
    } else {
      var holds := HarmfulOtherwise(worlds, lists);
      assert Eval(text, holds) <==> Intended(worlds, NonEmpty(lists), holds);
    }
  }

  /** The same for gRPC, where a world also holds one native content type. */
  lemma {:induction false} GRPCDroppedMatchesExact(hostnames: seq<string>, port: nat, matches: seq<GRPCRouteMatch>)
    requires forall h :: h in hostnames ==> '\'' !in h
    requires GRPCLists(matches).Ok?
    ensures var text, lists := MapGRPCRoute(hostnames, port, matches).value, GRPCLists(matches).value;
            var worlds := GRPCWorlds(hostnames, port);
            (forall holds: string -> bool :: Eval(text, holds) <==> Intended(worlds, lists, holds)) <==>
            DropIsHarmless(worlds, lists)
  {
    var text, lists := MapGRPCRoute(hostnames, port, matches).value, GRPCLists(matches).value;
    var worlds := GRPCWorlds(hostnames, port);
    forall holds: string -> bool ensures Eval(text, holds) <==> Intended(worlds, NonEmpty(lists), holds) {
      GRPCConditionMeaning(hostnames, port, matches, holds);
      HostWorldsOpen(hostnames, port, holds);
      GRPCWorldsOpen(hostnames, port, holds);
    }
    DropExact(text, worlds, lists);
  }

  const CATCH_ALL := HTTPRouteMatch(None, [], [], None)
  const UNDER_A := HTTPRouteMatch(Some(PathMatch(None, Some("/a"))), [], [], None)
  const UNDER_A_CONDITION := PathCondition("sw", "/a")

  lemma {:induction false} LossyLists()
    ensures HTTPLists([UNDER_A, CATCH_ALL]) == Ok([[UNDER_A_CONDITION], []])
  {
    var none: seq<string> := [];
    assert none + none == none && [UNDER_A_CONDITION] + none == [UNDER_A_CONDITION];
    assert MapHeaders([]) == Ok(none);
    assert HTTPConjuncts(UNDER_A) == Ok([UNDER_A_CONDITION]);
    assert HTTPConjuncts(CATCH_ALL) == Ok(none);
    assert [UNDER_A, CATCH_ALL][1..] == [CATCH_ALL] && [CATCH_ALL][1..] == [];
    assert HTTPLists([CATCH_ALL]) == Ok([none] + []);
    assert HTTPLists([UNDER_A, CATCH_ALL]) == Ok([[UNDER_A_CONDITION]] + ([none] + []));
    assert [[UNDER_A_CONDITION]] + ([none] + []) == [[UNDER_A_CONDITION], none];
  }

  lemma {:induction false} LossyConditions(atom: string)
    requires atom != ""
    ensures MatchConditions([[atom], []]) == [atom] && NonEmpty([[atom], []]) == [[atom]]
  {
    var lists: seq<seq<string>> := [[atom], []];
    assert lists[1..] == [[]] && lists[1..][1..] == [];
    assert MatchConditions(lists[1..]) == [] + MatchConditions(lists[1..][1..]);
    assert NonEmpty(lists[1..]) == [] + NonEmpty(lists[1..][1..]);
    assert [atom] + [] == [atom] && [[atom]] + [] == [[atom]];
  }

  lemma {:induction false} LossIsReal(atom: string)
    requires atom != ""
    ensures !DropIsHarmless(HostWorlds([], 80), [[atom], []])
  {
    LossyConditions(atom);
    var lists: seq<seq<string>> := [[atom], []];
    var w: set<string> := {};
    assert w in HostWorlds([], 80);
    assert atom in [atom] && !Within([atom], w);
    assert !Meets(w, [[atom]]);
    assert lists[1] == [] && [] in lists;
  }

  /** A concrete loss: a route whose second match has no conjuncts asks for every request, yet the compiled
      condition only admits requests under /a. The Gateway API gives an HTTP match without path the prefix "/", so
      this needs a match that reaches the mapper without that default. */
  lemma {:induction false} DroppedMatchLosesRequests()
    ensures HTTPLists([UNDER_A, CATCH_ALL]).Ok?
    ensures MapHTTPRoute([], 80, [UNDER_A, CATCH_ALL]) == Ok(AnyOf([UNDER_A_CONDITION]))
    ensures !DropIsHarmless(HostWorlds([], 80), HTTPLists([UNDER_A, CATCH_ALL]).value)
  {
    LossyLists();
    LossyConditions(UNDER_A_CONDITION);
    LossIsReal(UNDER_A_CONDITION);
  }

  const EVERY_CALL := GRPCRouteMatch(None, [])
  const ONE_SERVICE := GRPCRouteMatch(Some(GRPCMethodMatch(None, Some("s"), None)), [])
  const ONE_SERVICE_CONDITION := PathCondition("sw", "/s/")

  lemma {:induction false} LossyGRPCLists()
    ensures GRPCLists([ONE_SERVICE, EVERY_CALL]) == Ok([[ONE_SERVICE_CONDITION], []])
  {
    var none: seq<string> := [];
    assert none + none == none && [ONE_SERVICE_CONDITION] + none == [ONE_SERVICE_CONDITION];
    assert MapHeaders([]) == Ok(none);
    ServiceMatch();
    assert GRPCConjuncts(ONE_SERVICE) == Ok([ONE_SERVICE_CONDITION]);
    assert GRPCConjuncts(EVERY_CALL) == Ok(none);
    assert [ONE_SERVICE, EVERY_CALL][1..] == [EVERY_CALL] && [EVERY_CALL][1..] == [];
    assert GRPCLists([EVERY_CALL]) == Ok([none] + []);
    assert GRPCLists([ONE_SERVICE, EVERY_CALL]) == Ok([[ONE_SERVICE_CONDITION]] + ([none] + []));
    assert [[ONE_SERVICE_CONDITION]] + ([none] + []) == [[ONE_SERVICE_CONDITION], none];
  }

  lemma {:induction false} ServiceMatch()
    ensures MapMethodMatch(GRPCMethodMatch(None, Some("s"), None)) == Ok(ONE_SERVICE_CONDITION)
  {
    assert "s"[..1][0] == 's' && "."[0] == '.';
    assert "/" + "s" + "/" == "/s/";
  }

  lemma {:induction false} GRPCLossIsReal(atom: string)
    requires atom != "" && atom !in GRPC_CONTENT_TYPES
    ensures !DropIsHarmless(GRPCWorlds([], 80), [[atom], []])
  {
    LossyConditions(atom);
    var none: set<string> := {};
    var w := none + {GRPC_EXACT};
    assert GRPC_CONTENT_TYPES[0] == GRPC_EXACT;
    assert none in HostWorlds([], 80) && w in GRPCWorlds([], 80);
    assert atom in [atom] && atom !in w && !Within([atom], w);
    assert !Meets(w, [[atom]]);
    var lists: seq<seq<string>> := [[atom], []];
    assert lists[1] == [] && [] in lists;
  }

  /** The same loss for gRPC, where an absent method is legitimate: every call is asked for, and only those of one
      service are admitted. */
  lemma {:induction false} DroppedGRPCMatchLosesRequests()
    ensures GRPCLists([ONE_SERVICE, EVERY_CALL]).Ok?
    ensures !DropIsHarmless(GRPCWorlds([], 80), GRPCLists([ONE_SERVICE, EVERY_CALL]).value)
  {
    LossyGRPCLists();
    ServiceIsNoContentType();
    GRPCLossIsReal(ONE_SERVICE_CONDITION);
  }

  lemma {:induction false} ServiceIsNoContentType()
    ensures ONE_SERVICE_CONDITION !in GRPC_CONTENT_TYPES && ONE_SERVICE_CONDITION != ""
  {
    assert ONE_SERVICE_CONDITION[13] == 'u';
    assert GRPC_EXACT[13] == GRPC_PLUS[13] == GRPC_PARAMS[13] == 'h';
  }
}
