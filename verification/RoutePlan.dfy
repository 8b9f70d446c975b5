/** What one run of a route sets out to do: the rules it wants on the matched listeners, the commits that bring
    them about and withdraw the former ones, and the entries it will record. */
module RoutePlan {
  import opened Text
  import opened RoutingRules
  import opened PolicyCommit
  import opened RouteAnnotation

  /** The rules a run wants on one matched listener. */
  datatype Target = Target(listener: string, rules: seq<Rule>)

  datatype CommitCall = CommitCall(listener: string, newRules: seq<Rule>, prevNames: seq<string>)

  function TargetListeners(targets: seq<Target>): seq<string> {
    if targets == [] then [] else [targets[0].listener] + TargetListeners(targets[1..])
  }

  /** Rule names in the order they are first met, each once. */
  function RuleNames(rules: seq<Rule>, known: seq<string>): seq<string> {
    if rules == [] then known
    else
      RuleNames(rules[1..],
                if rules[0].name == "" || rules[0].name in known then known else known + [rules[0].name])
  }

  function AllRuleNames(targets: seq<Target>, known: seq<string>): seq<string> {
    if targets == [] then known else AllRuleNames(targets[1..], RuleNames(targets[0].rules, known))
  }

  /** The commits of a run: every matched listener, then the listeners that are no longer matched. */
  function MatchedCalls(targets: seq<Target>, previous: seq<Programmed>, current: set<string>): (calls: seq<CommitCall>)
    ensures |calls| == |targets|
    ensures forall i :: 0 <= i < |targets| ==>
              calls[i] ==
              CommitCall(targets[i].listener, targets[i].rules, NamesAt(previous, targets[i].listener, current))
  {
    if targets == [] then []
    else
      [CommitCall(targets[0].listener, targets[0].rules, NamesAt(previous, targets[0].listener, current))] +
      MatchedCalls(targets[1..], previous, current)
  }

  function StaleCalls(
      staleOrder: seq<string>, previous: seq<Programmed>, current: set<string>): (calls: seq<CommitCall>)
    ensures |calls| == |staleOrder|
    ensures forall i :: 0 <= i < |staleOrder| ==>
              calls[i] == CommitCall(staleOrder[i], [], NamesAt(previous, staleOrder[i], current))
  {
    if staleOrder == [] then []
    else [CommitCall(staleOrder[0], [], NamesAt(previous, staleOrder[0], current))] +
         StaleCalls(staleOrder[1..], previous, current)
  }

  function Plan(targets: seq<Target>, staleOrder: seq<string>, annotation: string): seq<CommitCall> {
    var current := StringSet(TargetListeners(targets));
    var previous := Parse(annotation);
    MatchedCalls(targets, previous, current) + StaleCalls(staleOrder, previous, current)
  }

  /** Usable inputs: names that survive the annotation, rule names distinct within a listener and reserved for
      this route, and one rule list per listener name. */
  ghost predicate ValidTargets(targets: seq<Target>, own: set<string>) {
    && (forall i :: 0 <= i < |targets| ==> CleanListener(targets[i].listener) && UniqueNames(targets[i].rules))
    && (forall i, r :: 0 <= i < |targets| && r in targets[i].rules ==> CleanRule(r.name) && r.name in own)
    && (forall i, j :: 0 <= i < |targets| && 0 <= j < |targets| && targets[i].listener == targets[j].listener ==>
          targets[i].rules == targets[j].rules)
  }

  // ----- what is wanted, and which listeners get a commit

  ghost predicate Wanted(targets: seq<Target>, listener: string, name: string) {
    exists i :: 0 <= i < |targets| && targets[i].listener == listener && name in NameSet(targets[i].rules)
  }

  ghost predicate GoodAnnotation(annotation: string, own: set<string>) {
    && Annotate(Parse(annotation)) == annotation
    && forall p :: p in Parse(annotation) ==> Clean(p) && p.ruleName in own
  }

  ghost predicate HasCall(calls: seq<CommitCall>, listener: string) {
    exists i :: 0 <= i < |calls| && calls[i].listener == listener
  }

  lemma {:induction false} TargetListenersMembers(targets: seq<Target>, l: string)
    ensures l in TargetListeners(targets) <==> exists i :: 0 <= i < |targets| && targets[i].listener == l
  {
    if targets != [] {
      TargetListenersMembers(targets[1..], l);
      if i :| 0 <= i < |targets| && targets[i].listener == l {
        if i > 0 { assert targets[1..][i - 1].listener == l; }
      }
    }
  }

  lemma {:induction false} WantedHasCall(
      targets: seq<Target>, staleOrder: seq<string>, annotation: string, l: string, name: string)
    requires Wanted(targets, l, name)
    ensures HasCall(Plan(targets, staleOrder, annotation), l)
  {
    var i :| 0 <= i < |targets| && targets[i].listener == l && name in NameSet(targets[i].rules);
    assert Plan(targets, staleOrder, annotation)[i].listener == l;
  }

  /** Every listener the annotation names gets a commit. */
  lemma {:induction false} AnnotatedHasCall(
      targets: seq<Target>, staleOrder: seq<string>, annotation: string, p: Programmed)
    requires p in Parse(annotation) && p.listenerName != ""
    requires StringSet(staleOrder) ==
             Touched(Parse(annotation), StringSet(TargetListeners(targets))) - StringSet(TargetListeners(targets))
    ensures HasCall(Plan(targets, staleOrder, annotation), p.listenerName)
  {
    var plan := Plan(targets, staleOrder, annotation);
    TargetListenersMembers(targets, p.listenerName);
    if p.listenerName in TargetListeners(targets) {
      var i :| 0 <= i < |targets| && targets[i].listener == p.listenerName;
      assert plan[i].listener == p.listenerName;
    } else {
      assert p.listenerName in StringSet(staleOrder);
      var k :| 0 <= k < |staleOrder| && staleOrder[k] == p.listenerName;
      assert plan[|targets| + k].listener == p.listenerName;
    }
  }

  lemma {:induction false} RestHasCall(calls: seq<CommitCall>, l: string)
    requires calls != [] && calls[0].listener != l
    ensures HasCall(calls[1..], l) <==> HasCall(calls, l)
  {
    if HasCall(calls, l) {
      var i :| 0 <= i < |calls| && calls[i].listener == l;
      assert calls[1..][i - 1].listener == l;
    }
  }

  lemma {:induction false} RuleNamesMembers(rules: seq<Rule>, known: seq<string>, n: string)
    ensures n in RuleNames(rules, known) <==> n in known || (n != "" && n in NameSet(rules))
  {
    if rules != [] {
      var next := if rules[0].name == "" || rules[0].name in known then known else known + [rules[0].name];
      RuleNamesMembers(rules[1..], next, n);
      assert forall r :: r in rules <==> r == rules[0] || r in rules[1..];
    }
  }

  lemma {:induction false} AllRuleNamesMembers(targets: seq<Target>, known: seq<string>, n: string)
    ensures n in AllRuleNames(targets, known) <==>
            n in known || (n != "" && exists i :: 0 <= i < |targets| && n in NameSet(targets[i].rules))
  {
    if targets != [] {
      AllRuleNamesMembers(targets[1..], RuleNames(targets[0].rules, known), n);
      RuleNamesMembers(targets[0].rules, known, n);
      if i :| 0 <= i < |targets| && n in NameSet(targets[i].rules) {
        if i > 0 { assert n in NameSet(targets[1..][i - 1].rules); }
      }
      if i :| 0 <= i < |targets[1..]| && n in NameSet(targets[1..][i].rules) {
        assert n in NameSet(targets[i + 1].rules);
      }
    }
  }

  /** The entries a run adds are usable, and include everything it wanted. */
  lemma {:induction false} GridIsGood(targets: seq<Target>, own: set<string>)
    requires ValidTargets(targets, own)
    ensures var grid := Grid(TargetListeners(targets), AllRuleNames(targets, []));
            && (forall p :: p in grid ==> Clean(p) && p.ruleName in own)
            && (forall l, name :: Wanted(targets, l, name) ==> Programmed(l, name) in grid)
  {
    var listeners, names := TargetListeners(targets), AllRuleNames(targets, []);
    forall p | p in Grid(listeners, names) ensures Clean(p) && p.ruleName in own {
      GridMembers(listeners, names, p);
      TargetListenersMembers(targets, p.listenerName);
      AllRuleNamesMembers(targets, [], p.ruleName);
    }
    forall l, name | Wanted(targets, l, name) ensures Programmed(l, name) in Grid(listeners, names) {
      GridMembers(listeners, names, Programmed(l, name));
      TargetListenersMembers(targets, l);
      AllRuleNamesMembers(targets, [], name);
      var i :| 0 <= i < |targets| && targets[i].listener == l && name in NameSet(targets[i].rules);
      var r :| r in targets[i].rules && r.name == name;
      assert CleanRule(r.name);
    }
  }

  lemma {:induction false} WantedIsOwn(targets: seq<Target>, own: set<string>, listener: string, name: string)
    requires ValidTargets(targets, own) && Wanted(targets, listener, name)
    ensures name in own
  {
    var i :| 0 <= i < |targets| && targets[i].listener == listener && name in NameSet(targets[i].rules);
    var r :| r in targets[i].rules && r.name == name;
    assert r.name in own;
  }

  // ----- the loop that notes the names

  /** Notes every rule name of every matched listener once. */
  method PolicyRuleNames(targets: seq<Target>) returns (names: seq<string>)
    ensures names == AllRuleNames(targets, [])
  {
    names := [];
    for i := 0 to |targets|
      invariant AllRuleNames(targets[i..], names) == AllRuleNames(targets, [])
    {
      assert targets[i..][0] == targets[i] && targets[i..][1..] == targets[i + 1..];
      names := AddRuleNames(targets[i].rules, names);
    }
    assert targets[|targets|..] == [];
  }

  method AddRuleNames(rules: seq<Rule>, known: seq<string>) returns (names: seq<string>)
    ensures names == RuleNames(rules, known)
  {
    names := known;
    for j := 0 to |rules|
      invariant RuleNames(rules[j..], names) == RuleNames(rules, known)
    {
      assert rules[j..][0] == rules[j] && rules[j..][1..] == rules[j + 1..];
      if rules[j].name == "" || rules[j].name in names { continue; }
      names := names + [rules[j].name];
    }
    assert rules[|rules|..] == [];
  }
}
