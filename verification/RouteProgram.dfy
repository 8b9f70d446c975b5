/** One run of a route as the code performs it, commit by commit, and what is left when it stops half-way. */
module RouteProgram {
  import opened Text
  import opened RoutingRules
  import opened PolicyCommit
  import opened RouteAnnotation
  import opened RouteOwnership
  import opened RoutePlan
  import NameLists

  type Store = map<string, seq<Rule>>

  // ----- the effect of a list of commits

  ghost function CommitOne(store: Store, call: CommitCall): Store {
    With(store, call.listener, CommitOutcome(At(store, call.listener), call.newRules, call.prevNames))
  }

  ghost function Committed(store: Store, calls: seq<CommitCall>): Store
    decreases |calls|
  {
    if calls == [] then store else Committed(CommitOne(store, calls[0]), calls[1..])
  }

  lemma {:induction false} CommittedSnoc(store: Store, calls: seq<CommitCall>, last: CommitCall)
    ensures Committed(store, calls + [last]) == CommitOne(Committed(store, calls), last)
    decreases |calls|
  {
    if calls == [] {
      assert calls + [last] == [last] && [last][1..] == [];
    } else {
      assert (calls + [last])[1..] == calls[1..] + [last];
      CommittedSnoc(CommitOne(store, calls[0]), calls[1..], last);
    }
  }

  // ----- the code

  lemma {:induction false} StringSetSnoc(a: seq<string>, last: string)
    ensures StringSet(a + [last]) == StringSet(a) + {last}
  {
    assert forall x :: x in a + [last] <==> x in a || x == last;
  }

  method ListKeys(byListener: map<string, seq<string>>) returns (list: seq<string>)
    ensures NameLists.ListsSet(list, byListener.Keys)
  {
    list := [];
    var pending := byListener.Keys;
    while pending != {}
      invariant pending <= byListener.Keys
      invariant NameLists.ListsSet(list, byListener.Keys - pending)
      decreases |pending|
    {
      var n :| n in pending;
      list, pending := list + [n], pending - {n};
    }
    assert byListener.Keys - {} == byListener.Keys;
  }

  lemma {:induction false} SortedSet(list: seq<string>, names: set<string>)
    requires NameLists.ListsSet(list, names)
    ensures StringSet(NameLists.SortNames(list)) == names
  {
    var sorted := NameLists.SortNames(list);
    NameLists.SortedMembers(list);
    forall n ensures n in StringSet(sorted) <==> n in names {
      assert n in sorted <==> n in list;
    }
  }

  /** The listeners of the earlier run that are no longer matched, in sorted order. */
  method StaleListeners(byListener: map<string, seq<string>>, current: set<string>) returns (stale: seq<string>)
    ensures StringSet(stale) == byListener.Keys - current
  {
    var list := ListKeys(byListener);
    SortedSet(list, byListener.Keys);
    var sorted := NameLists.SortNames(list);
    stale := [];
    for i := 0 to |sorted|
      invariant StringSet(stale) == StringSet(sorted[..i]) - current
    {
      assert sorted[..i + 1] == sorted[..i] + [sorted[i]];
      StringSetSnoc(sorted[..i], sorted[i]);
      if sorted[i] in current { continue; }
      StringSetSnoc(stale, sorted[i]);
      stale := stale + [sorted[i]];
    }
    assert sorted[..|sorted|] == sorted;
  }

  function NamesFor(byListener: map<string, seq<string>>, listener: string): seq<string> {
    if listener in byListener then byListener[listener] else []
  }

  lemma {:induction false} NamesForIs(
      byListener: map<string, seq<string>>, previous: seq<Programmed>, current: set<string>, listener: string)
    requires Groups(byListener, previous, current)
    ensures NamesFor(byListener, listener) == NamesAt(previous, listener, current)
  {
    if listener !in byListener { NoNamesElsewhere(previous, listener, current); }
  }

  /** Performs one commit; `applied` tells whether it took effect. */
  method PerformCall(oci: PolicyClient, call: CommitCall, faults: Faults) returns (ok: bool, ghost applied: bool)
    modifies oci
    ensures oci.policies == if applied then CommitOne(old(oci.policies), call) else old(oci.policies)
    ensures ok ==> applied
  {
    ghost var before := oci.policies;
    ok := CommitRoutingPolicyLocked(oci, call.listener, call.newRules, call.prevNames, faults);
    applied := ok || !(faults.getFails || faults.writeRejected);
    if ok && faults.writeRejected {
      QuietCommit(before, call);
    }
  }

  /** A commit that needs no write changes nothing. */
  lemma {:induction false} QuietCommit(store: Store, call: CommitCall)
    requires !CommitWrites(At(store, call.listener), call.newRules, call.prevNames)
    ensures CommitOne(store, call) == store
  {
    assert With(store, call.listener, At(store, call.listener)) == store;
  }

  lemma {:induction false} CommittedPrefix(store: Store, calls: seq<CommitCall>, i: nat)
    requires i < |calls|
    ensures Committed(store, calls[..i + 1]) == CommitOne(Committed(store, calls[..i]), calls[i])
  {
    CommittedSnoc(store, calls[..i], calls[i]);
    assert calls[..i + 1] == calls[..i] + [calls[i]];
  }

  method PerformCalls(oci: PolicyClient, calls: seq<CommitCall>, faults: nat -> Faults)
    returns (ok: bool, ghost done: nat)
    modifies oci
    ensures done <= |calls| && oci.policies == Committed(old(oci.policies), calls[..done])
    ensures ok ==> done == |calls|
  {
    ghost var start := oci.policies;
    done := 0;
    for i := 0 to |calls|
      invariant done == i && oci.policies == Committed(start, calls[..i])
    {
      ghost var applied;
      CommittedPrefix(start, calls, i);
      ok, applied := PerformCall(oci, calls[i], faults(i));
      done := if applied then i + 1 else i;
      if !ok { return; }
    }
    ok := true;
  }

  lemma {:induction false} MatchedCallAt(
      targets: seq<Target>, previous: seq<Programmed>, current: set<string>, byListener: map<string, seq<string>>,
      i: nat)
    requires Groups(byListener, previous, current) && i < |targets|
    ensures MatchedCalls(targets, previous, current)[i] ==
            CommitCall(targets[i].listener, targets[i].rules, NamesFor(byListener, targets[i].listener))
  {
    NamesForIs(byListener, previous, current, targets[i].listener);
  }

  method PlanMatched(
      targets: seq<Target>, previous: seq<Programmed>, current: set<string>, byListener: map<string, seq<string>>)
    returns (calls: seq<CommitCall>)
    requires Groups(byListener, previous, current)
    ensures calls == MatchedCalls(targets, previous, current)
  {
    ghost var plan := MatchedCalls(targets, previous, current);
    calls := [];
    for i := 0 to |targets|
      invariant calls == plan[..i]
    {
      MatchedCallAt(targets, previous, current, byListener, i);
      PrefixSnoc(plan, i);
      calls := calls + [CommitCall(targets[i].listener, targets[i].rules, NamesFor(byListener, targets[i].listener))];
    }
    assert plan[..|targets|] == plan;
  }

  lemma {:induction false} PrefixSnoc(plan: seq<CommitCall>, i: nat)
    requires i < |plan|
    ensures plan[..i + 1] == plan[..i] + [plan[i]]
  {
  }

  method PlanStale(
      stale: seq<string>, previous: seq<Programmed>, current: set<string>, byListener: map<string, seq<string>>)
    returns (calls: seq<CommitCall>)
    requires Groups(byListener, previous, current)
    ensures calls == StaleCalls(stale, previous, current)
  {
    calls := [];
    for i := 0 to |stale|
      invariant calls == StaleCalls(stale, previous, current)[..i]
    {
      NamesForIs(byListener, previous, current, stale[i]);
      calls := calls + [CommitCall(stale[i], [], NamesFor(byListener, stale[i]))];
    }
  }

  method MakePlan(targets: seq<Target>, annotation: string) returns (calls: seq<CommitCall>, stale: seq<string>)
    ensures var current := StringSet(TargetListeners(targets));
            StringSet(stale) == Touched(Parse(annotation), current) - current
    ensures calls == Plan(targets, stale, annotation)
  {
    var current := StringSet(TargetListeners(targets));
    var previous := ParseProgrammedPolicyRules(annotation);
    var byListener := PreviousPolicyRulesByListener(previous, current);
    stale := StaleListeners(byListener, current);
    var matched := PlanMatched(targets, previous, current, byListener);
    var withdrawn := PlanStale(stale, previous, current, byListener);
    calls := matched + withdrawn;
  }

  /** One run: the commits of the plan in order, as far as no commit fails, and then the entries to record. */
  method ProgramL7RoutePolicy(oci: PolicyClient, targets: seq<Target>, annotation: string, faults: nat -> Faults)
    returns (ok: bool, entries: seq<string>, ghost staleOrder: seq<string>, ghost done: nat)
    modifies oci
    ensures var current := StringSet(TargetListeners(targets));
            StringSet(staleOrder) == Touched(Parse(annotation), current) - current
    ensures done <= |Plan(targets, staleOrder, annotation)|
    ensures oci.policies == Committed(old(oci.policies), Plan(targets, staleOrder, annotation)[..done])
    ensures ok ==> done == |Plan(targets, staleOrder, annotation)| &&
                   entries == RenderAll(Grid(TargetListeners(targets), AllRuleNames(targets, [])))
  {
    var calls, stale := MakePlan(targets, annotation);
    staleOrder := stale;
    ok, done := PerformCalls(oci, calls, faults);
    var names := PolicyRuleNames(targets);
    entries := ProgrammedPolicyRulesAnnotation(TargetListeners(targets), names);
  }

  // ----- what a run leaves

  ghost predicate AllKept(store: Store) {
    forall l :: WellKept(At(store, l))
  }

  lemma {:induction false} CommitOneKeeps(store: Store, call: CommitCall)
    requires AllKept(store) && UniqueNames(call.newRules)
    ensures AllKept(CommitOne(store, call))
  {
    CommitKeepsOrder(At(store, call.listener), call.newRules, call.prevNames);
    forall l ensures WellKept(At(CommitOne(store, call), l)) { assert WellKept(At(store, l)); }
  }

  predicate Has(store: Store, listener: string, name: string) {
    Lookup(At(store, listener), name).Some?
  }

  /** The effect of commits that agree on what is wanted and what is annotated at a listener. */
  lemma {:induction false} CommittedLookup(
      store: Store, calls: seq<CommitCall>, l: string, name: string, wanted: bool, annotated: bool)
    requires AllKept(store) && forall i :: 0 <= i < |calls| ==> UniqueNames(calls[i].newRules)
    requires forall i :: 0 <= i < |calls| && calls[i].listener == l ==>
               (name in NameSet(calls[i].newRules) <==> wanted) && (name in calls[i].prevNames <==> annotated)
    ensures Has(Committed(store, calls), l, name) <==>
            if HasCall(calls, l) then wanted || (Has(store, l, name) && !annotated) else Has(store, l, name)
    decreases |calls|
  {
    if calls != [] {
      var call := calls[0];
      CommitOneKeeps(store, call);
      OneLookup(store, call, l, name);
      assert forall i :: 0 <= i < |calls[1..]| ==> calls[1..][i] == calls[i + 1];
      CommittedLookup(CommitOne(store, call), calls[1..], l, name, wanted, annotated);
      if call.listener == l {
        assert HasCall(calls, l);
      } else {
        RestHasCall(calls, l);
      }
    }
  }

  lemma {:induction false} OneLookup(store: Store, call: CommitCall, l: string, name: string)
    requires AllKept(store) && UniqueNames(call.newRules)
    ensures Has(CommitOne(store, call), l, name) <==>
            if l == call.listener
            then name in NameSet(call.newRules) || (Has(store, l, name) && name !in call.prevNames)
            else Has(store, l, name)
  {
    assert WellKept(At(store, call.listener));
    CommitLookup(At(store, call.listener), call.newRules, call.prevNames, name);
    if l != call.listener { assert At(CommitOne(store, call), l) == At(store, l); }
  }

  /** A completed run leaves, of the route's names on a listener, those it wants and those it neither wants nor
      knows of from the annotation. */
  lemma {:induction false} CompletedRunLeaves(
      store: Store, targets: seq<Target>, staleOrder: seq<string>, annotation: string, own: set<string>,
      l: string, name: string)
    requires AllKept(store) && ValidTargets(targets, own) && GoodAnnotation(annotation, own) && name in own
    requires StringSet(staleOrder) ==
             Touched(Parse(annotation), StringSet(TargetListeners(targets))) - StringSet(TargetListeners(targets))
    ensures Has(Committed(store, Plan(targets, staleOrder, annotation)), l, name) <==>
            Wanted(targets, l, name) || (Has(store, l, name) && Programmed(l, name) !in Parse(annotation))
  {
    var plan := Plan(targets, staleOrder, annotation);
    var s := Initial(store).(annotation := annotation, running := true, wanted := targets, pending := plan);
    forall k | k in staleOrder ensures k !in TargetListeners(targets) { assert k in StringSet(staleOrder); }
    forall i | 0 <= i < |plan| ensures CallFits(s, plan[i]) { PlanFits(s, targets, staleOrder, own, i); }
    CommittedLookup(store, plan, l, name, Wanted(targets, l, name), Programmed(l, name) in Parse(annotation));
    if Wanted(targets, l, name) { WantedHasCall(targets, staleOrder, annotation, l, name); }
    if Programmed(l, name) in Parse(annotation) {
      AnnotatedHasCall(targets, staleOrder, annotation, Programmed(l, name));
    }
  }

  /** Recovery, exactly: after a completed run the route has what it wants and nothing more if and only if every
      rule it had before, say from a run that stopped before it wrote its annotation, was annotated or is wanted. */
  lemma {:induction false} RecoveryIsExact(
      store: Store, targets: seq<Target>, staleOrder: seq<string>, annotation: string, own: set<string>)
    requires AllKept(store) && ValidTargets(targets, own) && GoodAnnotation(annotation, own)
    requires StringSet(staleOrder) ==
             Touched(Parse(annotation), StringSet(TargetListeners(targets))) - StringSet(TargetListeners(targets))
    ensures var after := Committed(store, Plan(targets, staleOrder, annotation));
            (forall l, name :: name in own ==> (Has(after, l, name) <==> Wanted(targets, l, name))) <==>
            (forall l, name :: name in own && Has(store, l, name) ==>
               Programmed(l, name) in Parse(annotation) || Wanted(targets, l, name))
  {
    forall l, name | name in own
      ensures Has(Committed(store, Plan(targets, staleOrder, annotation)), l, name) <==>
              Wanted(targets, l, name) || (Has(store, l, name) && Programmed(l, name) !in Parse(annotation))
    {
      CompletedRunLeaves(store, targets, staleOrder, annotation, own, l, name);
    }
  }

  /** The annotation a route without one has after a completed run. */
  function FirstAnnotation(targets: seq<Target>): string {
    Join(MergeProgrammed("", RenderAll(Grid(TargetListeners(targets), AllRuleNames(targets, [])))), ",")
  }

  /** A first annotation names no listener that was not matched. */
  lemma {:induction false} FirstAnnotationNames(targets: seq<Target>, own: set<string>, p: Programmed)
    requires ValidTargets(targets, own) && p.listenerName !in TargetListeners(targets)
    ensures p !in Parse(FirstAnnotation(targets))
  {
    var grid := Grid(TargetListeners(targets), AllRuleNames(targets, []));
    GridIsGood(targets, own);
    MergedEntries([], grid);
    GridMembers(TargetListeners(targets), AllRuleNames(targets, []), p);
    KeptMembers([], NamedListeners(grid), p);
  }

  /** A run that stops after its first commit and is followed by a completed one that no longer matches the listener
      leaves a rule behind that the annotation does not name. */
  lemma {:induction false} StoppedRunLeavesOrphan(rule: Rule)
    requires CleanRule(rule.name)
    ensures var stopped := Committed(map[], Plan([Target("a", [rule])], [], "")[..1]);
            Has(stopped, "a", rule.name) &&
            Has(Committed(stopped, Plan([Target("b", [rule])], [], "")), "a", rule.name)
    ensures Programmed("a", rule.name) !in Parse(FirstAnnotation([Target("b", [rule])]))
  {
    var first, second := [Target("a", [rule])], [Target("b", [rule])];
    var own := {rule.name};
    assert Parse("") == [] && GoodAnnotation("", own);
    OneRule(rule);
    NoStale(first);
    NoStale(second);
    CompletedRunLeaves(map[], first, [], "", own, "a", rule.name);
    assert Wanted(first, "a", rule.name);
    FirstCommitIsAll(first);
    CompletedRunLeaves(Committed(map[], Plan(first, [], "")), second, [], "", own, "a", rule.name);
    assert TargetListeners(second) == ["b"] by { assert second[1..] == []; }
    FirstAnnotationNames(second, own, Programmed("a", rule.name));
  }

  lemma {:induction false} FirstCommitIsAll(targets: seq<Target>)
    requires |targets| == 1 && UniqueNames(targets[0].rules)
    ensures Plan(targets, [], "")[..1] == Plan(targets, [], "")
    ensures AllKept(Committed(map[], Plan(targets, [], "")))
  {
    var plan := Plan(targets, [], "");
    CommitOneKeeps(map[], plan[0]);
    assert Committed(map[], plan) == CommitOne(map[], plan[0]) by { assert plan[1..] == []; }
  }

  lemma {:induction false} OneRule(rule: Rule)
    ensures UniqueNames([rule]) && rule in [rule] && rule.name in NameSet([rule])
  {
  }

  lemma {:induction false} NoStale(targets: seq<Target>)
    ensures StringSet([]) ==
            Touched(Parse(""), StringSet(TargetListeners(targets))) - StringSet(TargetListeners(targets))
  {
  }
}
