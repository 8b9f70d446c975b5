/** What one commit or one default-rule repair does to a stored routing policy, as a function, and the
    code that does it against the OCI client. */
module PolicyCommit {
  import opened Text
  import opened RoutingRules

  type Policy = Option<seq<Rule>>

  function NameSet(rules: seq<Rule>): set<string> {
    set r | r in rules :: r.name
  }

  function StringSet(names: seq<string>): set<string> {
    set n | n in names
  }

  /** The names a commit may add, replace or remove. */
  function Footprint(newRules: seq<Rule>, prevNames: seq<string>): set<string> {
    NameSet(newRules) + StringSet(prevNames)
  }

  function MergedMap(current: map<string, Rule>, newRules: seq<Rule>, prevNames: seq<string>): map<string, Rule> {
    (current + RuleMap(newRules)) - (StringSet(prevNames) - NameSet(newRules))
  }

  lemma {:induction false} MergedMapKeyed(current: map<string, Rule>, newRules: seq<Rule>, prevNames: seq<string>)
    requires KeyedByName(current)
    ensures KeyedByName(MergedMap(current, newRules, prevNames))
  {
    RuleMapKeyed(newRules);
  }

  ghost function Merged(current: seq<Rule>, newRules: seq<Rule>, prevNames: seq<string>): (rules: seq<Rule>)
    ensures ListsSorted(rules, MergedMap(RuleMap(current), newRules, prevNames))
  {
    RuleMapKeyed(current);
    MergedMapKeyed(RuleMap(current), newRules, prevNames);
    Listing(MergedMap(RuleMap(current), newRules, prevNames))
  }

  /** The policy after a commit whose OCI calls succeed. */
  ghost function CommitOutcome(policy: Policy, newRules: seq<Rule>, prevNames: seq<string>): Policy {
    match policy
    case None => if newRules == [] then None else Some(SortRules(newRules))
    case Some(current) =>
      var merged := Merged(current, newRules, prevNames);
      if merged == [] then None
      else if RulesEqual(current, merged) then policy
      else Some(merged)
  }

  /** Whether the commit issues a create, update or delete call at all. */
  ghost predicate CommitWrites(policy: Policy, newRules: seq<Rule>, prevNames: seq<string>) {
    match policy
    case None => newRules != []
    case Some(current) =>
      var merged := Merged(current, newRules, prevNames);
      merged == [] || !RulesEqual(current, merged)
  }

  // ----- the default rule

  function DefaultRule(backendSet: string): Rule {
    Rule(DEFAULT_RULE_NAME, DEFAULT_CONDITION, [ForwardToBackendSet(backendSet)])
  }

  predicate ForwardsTo(rule: Rule, backendSet: string) {
    ForwardToBackendSet(backendSet) in rule.actions
  }

  predicate DefaultRuleMatches(rule: Rule, backendSet: string) {
    && rule.name == DEFAULT_RULE_NAME
    && rule.condition == DEFAULT_CONDITION
    && |rule.actions| == 1
    && ForwardsTo(rule, backendSet)
  }

  predicate DefaultRuleDrifted(rules: seq<Rule>, backendSet: string) {
    if rules == [] then true
    else if rules[0].name == DEFAULT_RULE_NAME then !DefaultRuleMatches(rules[0], backendSet)
    else DefaultRuleDrifted(rules[1..], backendSet)
  }

  predicate HasDefaultRule(rules: seq<Rule>) {
    exists i :: 0 <= i < |rules| && rules[i].name == DEFAULT_RULE_NAME
  }

  function WithDefaultReplaced(rules: seq<Rule>, backendSet: string): (r: seq<Rule>)
    ensures |r| == |rules|
    ensures forall i :: 0 <= i < |rules| ==>
      r[i] == if rules[i].name == DEFAULT_RULE_NAME then DefaultRule(backendSet) else rules[i]
  {
    if rules == [] then []
    else [if rules[0].name == DEFAULT_RULE_NAME then DefaultRule(backendSet) else rules[0]] +
         WithDefaultReplaced(rules[1..], backendSet)
  }

  function RulesWithDefault(rules: seq<Rule>, backendSet: string): seq<Rule> {
    WithDefaultReplaced(rules, backendSet) + if HasDefaultRule(rules) then [] else [DefaultRule(backendSet)]
  }

  /** The policy after a default-rule repair. `known` is the policy as the reconcile listed it before
      taking the lock; a matching one ends the repair without a call. When the policy is gone, an update
      built from the old list fails and nothing is stored. */
  function RepairOutcome(policy: Policy, backendSet: string, known: Policy): Policy {
    if known.Some? && !DefaultRuleDrifted(known.value, backendSet) then policy
    else
      match policy
      case Some(current) =>
        if DefaultRuleDrifted(current, backendSet) then Some(RulesWithDefault(current, backendSet)) else policy
      case None =>
        if known.Some? then None else Some([DefaultRule(backendSet)])
  }

  // ----- looking rules up by name

  function Lookup(policy: Policy, name: string): Option<Rule> {
    if policy.Some? && name in RuleMap(policy.value) then Some(RuleMap(policy.value)[name]) else None
  }

  lemma {:induction false} MergedLookup(
      current: map<string, Rule>, newRules: seq<Rule>, prevNames: seq<string>, name: string)
    ensures name in NameSet(newRules) <==> name in RuleMap(newRules)
    ensures name in MergedMap(current, newRules, prevNames) <==>
            name in NameSet(newRules) || (name in current && name !in prevNames)
    ensures name in NameSet(newRules) ==>
            MergedMap(current, newRules, prevNames)[name] == RuleMap(newRules)[name]
    ensures name in current && name !in Footprint(newRules, prevNames) ==>
            MergedMap(current, newRules, prevNames)[name] == current[name]
  {
    if name in NameSet(newRules) {
      var r :| r in newRules && r.name == name;
      var k :| 0 <= k < |newRules| && newRules[k] == r;
      RuleMapCovers(newRules, k);
    }
    if name in RuleMap(newRules) {
      RuleMapHolds(newRules, name);
    }
  }

  /** A policy with distinct rule names, in order; what every controller write produces. */
  ghost predicate WellKept(policy: Policy) {
    policy.Some? ==> UniqueNames(policy.value) && SortedRules(policy.value) && policy.value != []
  }

  /** What a commit leaves under every name: the new rule, nothing for a withdrawn name, and the rule
      that was there before for every name outside its footprint. */
  lemma {:induction false} CommitLookup(policy: Policy, newRules: seq<Rule>, prevNames: seq<string>, name: string)
    requires UniqueNames(newRules)
    requires policy.Some? ==> UniqueNames(policy.value)
    ensures name in RuleMap(newRules) <==> name in NameSet(newRules)
    ensures var after := Lookup(CommitOutcome(policy, newRules, prevNames), name);
            after == if name in RuleMap(newRules) then Some(RuleMap(newRules)[name])
                     else if name in prevNames then None
                     else Lookup(policy, name)
  {
    match policy
    case None =>
      if newRules != [] {
        SortIsDetermined(newRules);
      }
      MergedLookup(map[], newRules, prevNames, name);
    case Some(current) =>
      var merged := Merged(current, newRules, prevNames);
      MergedLookup(RuleMap(current), newRules, prevNames, name);
      if merged != [] {
        RulesEqualIgnoresOrder(current, merged);
      }
  }

  /** Commits and repairs keep every stored policy non-empty, in order and without repeated names. */
  lemma {:induction false} CommitKeepsOrder(policy: Policy, newRules: seq<Rule>, prevNames: seq<string>)
    requires WellKept(policy) && UniqueNames(newRules)
    ensures WellKept(CommitOutcome(policy, newRules, prevNames))
  {
    if policy.None? && newRules != [] {
      SortIsDetermined(newRules);
      SortRulesSorts(newRules);
      assert |multiset(SortRules(newRules))| == |newRules|;
    }
  }

  /** A commit writes exactly when it changes which rules are stored. */
  lemma {:induction false} CommitWritesOnChange(policy: Policy, newRules: seq<Rule>, prevNames: seq<string>)
    requires WellKept(policy) && UniqueNames(newRules)
    ensures CommitWrites(policy, newRules, prevNames) <==> CommitOutcome(policy, newRules, prevNames) != policy
  {
    if policy.None? {
      if newRules != [] { SortRulesSorts(newRules); }
    } else {
      var merged := Merged(policy.value, newRules, prevNames);
      SortOfSorted(merged);
      SortOfSorted(policy.value);
    }
  }

  /** Repeating a commit makes no call, except after creating a missing policy from rules that repeat a
      name: those are stored as given and collapsed by the next commit. */
  lemma {:induction false} RepeatedCommitIsSilent(policy: Policy, newRules: seq<Rule>, prevNames: seq<string>)
    ensures CommitWrites(CommitOutcome(policy, newRules, prevNames), newRules, prevNames) <==>
            policy.None? && !UniqueNames(newRules)
  {
    match policy
    case None =>
      if newRules != [] { RepeatAfterCreate(newRules, prevNames); }
    case Some(current) =>
      var merged := Merged(current, newRules, prevNames);
      if merged == [] {
        if newRules != [] {
          RuleMapCovers(newRules, 0);
          MergedLookup(RuleMap(current), newRules, prevNames, newRules[0].name);
        }
      } else if !RulesEqual(current, merged) {
        MergeAgain(RuleMap(current), newRules, prevNames);
        ListsUnique(Merged(merged, newRules, prevNames), merged, RuleMap(merged));
      }
  }

  lemma {:induction false} MergeAgain(m: map<string, Rule>, newRules: seq<Rule>, prevNames: seq<string>)
    ensures var once := MergedMap(m, newRules, prevNames); MergedMap(once, newRules, prevNames) == once
  {
    var once := MergedMap(m, newRules, prevNames);
    var twice := MergedMap(once, newRules, prevNames);
    forall n ensures n in twice <==> n in once {
      MergedLookup(m, newRules, prevNames, n);
      MergedLookup(once, newRules, prevNames, n);
    }
    forall n | n in twice ensures twice[n] == once[n] {
      MergedLookup(m, newRules, prevNames, n);
      MergedLookup(once, newRules, prevNames, n);
    }
  }

  lemma {:induction false} RepeatAfterCreate(newRules: seq<Rule>, prevNames: seq<string>)
    requires newRules != []
    ensures CommitWrites(Some(SortRules(newRules)), newRules, prevNames) <==> !UniqueNames(newRules)
  {
    var stored := SortRules(newRules);
    var merged := Merged(stored, newRules, prevNames);
    SortRulesSorts(newRules);
    RuleMapCovers(newRules, 0);
    MergedLookup(RuleMap(stored), newRules, prevNames, newRules[0].name);
    assert merged != [];
    if UniqueNames(newRules) {
      SortIsDetermined(newRules);
      SortKeepsUniqueNames(newRules);
      MergeOfSame(RuleMap(newRules), newRules, prevNames);
      RulesEqualIgnoresOrder(stored, merged);
    } else if RulesEqual(stored, merged) {
      SortRulesSorts(stored);
      SortRulesSorts(merged);
      SameElementsUnique(merged, newRules);
    }
  }

  lemma {:induction false} MergeOfSame(m: map<string, Rule>, newRules: seq<Rule>, prevNames: seq<string>)
    requires m == RuleMap(newRules)
    ensures MergedMap(m, newRules, prevNames) == m
  {
    forall n ensures n in MergedMap(m, newRules, prevNames) <==> n in m {
      MergedLookup(m, newRules, prevNames, n);
    }
  }

  /** Rearranging a list keeps its names distinct. */
  lemma {:induction false} SameElementsUnique(s: seq<Rule>, t: seq<Rule>)
    requires UniqueNames(s) && multiset(s) == multiset(t)
    ensures UniqueNames(t)
  {
    forall i, j | 0 <= i < j < |t| ensures t[i].name != t[j].name {
      assert t[i] in multiset(s) && t[j] in multiset(s);
      var k :| 0 <= k < |s| && s[k] == t[i];
      OneOccurrence(s, k);
      if t[i] == t[j] { TwoOccurrences(t, i, j); }
    }
  }

  lemma {:induction false} TwoOccurrences(s: seq<Rule>, i: nat, j: nat)
    requires i < j < |s| && s[i] == s[j]
    ensures multiset(s)[s[i]] >= 2
  {
    assert s == s[..i] + [s[i]] + s[i + 1..j] + [s[j]] + s[j + 1..];
  }

  lemma {:induction false} OneOccurrence(s: seq<Rule>, k: nat)
    requires UniqueNames(s) && k < |s|
    ensures multiset(s)[s[k]] == 1
  {
    assert s == s[..k] + [s[k]] + s[k + 1..];
    assert s[k] !in s[..k] && s[k] !in s[k + 1..];
  }

  // ----- commits of different routes

  lemma {:induction false} DisjointMergesCommute(
      m: map<string, Rule>, newA: seq<Rule>, prevA: seq<string>, newB: seq<Rule>, prevB: seq<string>)
    requires Footprint(newA, prevA) !! Footprint(newB, prevB)
    ensures MergedMap(MergedMap(m, newA, prevA), newB, prevB) == MergedMap(MergedMap(m, newB, prevB), newA, prevA)
    ensures MergedMap(MergedMap(m, newA, prevA), newB, prevB) == m ==>
              MergedMap(m, newA, prevA) == m && MergedMap(m, newB, prevB) == m
  {
    var a, b := MergedMap(m, newA, prevA), MergedMap(m, newB, prevB);
    var ab, ba := MergedMap(a, newB, prevB), MergedMap(b, newA, prevA);
    forall n
      ensures n in ab <==> n in ba
      ensures n in ab ==> ab[n] == ba[n]
      ensures ab == m ==> (n in a <==> n in m) && (n in b <==> n in m)
      ensures ab == m && n in m && n in a && n in b ==> a[n] == m[n] && b[n] == m[n]
    {
      MergedLookup(m, newA, prevA, n);
      MergedLookup(a, newB, prevB, n);
      MergedLookup(m, newB, prevB, n);
      MergedLookup(b, newA, prevA, n);
    }
    if ab == m {
      assert a == m && b == m;
    }
  }

  /** The map a stored policy stands for; a missing policy holds no rules. */
  function PolicyMap(policy: Policy): map<string, Rule> {
    if policy.Some? then RuleMap(policy.value) else map[]
  }

  /** What a commit stores, by its rule map: nothing, the old list untouched, or the one sorted list. */
  lemma {:induction false} CommitByMap(policy: Policy, newRules: seq<Rule>, prevNames: seq<string>)
    requires UniqueNames(newRules)
    requires policy.Some? ==> UniqueNames(policy.value)
    ensures var m := MergedMap(PolicyMap(policy), newRules, prevNames);
            var after := CommitOutcome(policy, newRules, prevNames);
            && KeyedByName(m)
            && PolicyMap(after) == m
            && (after.None? <==> m == map[])
            && (m != map[] ==> after == Some(Listing(m)) || (after == policy && PolicyMap(policy) == m))
            && (m != map[] && PolicyMap(policy) == m ==> after == policy)
            && (after.Some? ==> UniqueNames(after.value))
  {
    RuleMapKeyed(newRules);
    var m := MergedMap(PolicyMap(policy), newRules, prevNames);
    match policy
    case None =>
      assert m == RuleMap(newRules) by {
        forall n ensures n in m <==> n in RuleMap(newRules) { MergedLookup(map[], newRules, prevNames, n); }
      }
      if newRules != [] {
        SortIsDetermined(newRules);
        ListsUnique(SortRules(newRules), Listing(m), m);
        RuleMapCovers(newRules, 0);
      }
    case Some(current) =>
      RuleMapKeyed(current);
      MergedMapKeyed(RuleMap(current), newRules, prevNames);
      var merged := Merged(current, newRules, prevNames);
      ListsUnique(merged, Listing(m), m);
      EmptyListing(merged, m);
      RulesEqualIgnoresOrder(current, merged);
  }

  lemma {:induction false} EmptyListing(rules: seq<Rule>, m: map<string, Rule>)
    requires ListsSorted(rules, m)
    ensures rules == [] <==> m == map[]
  {
    if rules != [] { RuleMapCovers(rules, 0); }
  }

  /** Commits of routes that use different rule names give the same policy in either order. */
  lemma {:induction false} DisjointCommitsCommute(
      policy: Policy, newA: seq<Rule>, prevA: seq<string>, newB: seq<Rule>, prevB: seq<string>)
    requires UniqueNames(newA) && UniqueNames(newB)
    requires policy.Some? ==> UniqueNames(policy.value)
    requires Footprint(newA, prevA) !! Footprint(newB, prevB)
    ensures CommitOutcome(CommitOutcome(policy, newA, prevA), newB, prevB) ==
            CommitOutcome(CommitOutcome(policy, newB, prevB), newA, prevA)
  {
    var a, b := CommitOutcome(policy, newA, prevA), CommitOutcome(policy, newB, prevB);
    CommitByMap(policy, newA, prevA);
    CommitByMap(policy, newB, prevB);
    CommitByMap(a, newB, prevB);
    CommitByMap(b, newA, prevA);
    DisjointMergesCommute(PolicyMap(policy), newA, prevA, newB, prevB);
    TwoCommits(policy, newA, prevA, newB, prevB);
    TwoCommits(policy, newB, prevB, newA, prevA);
  }

  lemma {:induction false} TwoCommits(
      policy: Policy, newA: seq<Rule>, prevA: seq<string>, newB: seq<Rule>, prevB: seq<string>)
    requires UniqueNames(newA) && UniqueNames(newB)
    requires policy.Some? ==> UniqueNames(policy.value)
    requires Footprint(newA, prevA) !! Footprint(newB, prevB)
    ensures var m := MergedMap(MergedMap(PolicyMap(policy), newA, prevA), newB, prevB);
            KeyedByName(m) &&
            CommitOutcome(CommitOutcome(policy, newA, prevA), newB, prevB) ==
            if m == map[] then None else if m == PolicyMap(policy) then policy else Some(Listing(m))
  {
    CommitByMap(policy, newA, prevA);
    CommitByMap(CommitOutcome(policy, newA, prevA), newB, prevB);
    DisjointMergesCommute(PolicyMap(policy), newA, prevA, newB, prevB);
  }

  // ----- repairs

  lemma {:induction false} ReplacedKeepsOrder(rules: seq<Rule>, backendSet: string)
    requires UniqueNames(rules) && SortedRules(rules)
    ensures UniqueNames(RulesWithDefault(rules, backendSet)) && SortedRules(RulesWithDefault(rules, backendSet))
  {
    var r := RulesWithDefault(rules, backendSet);
    forall i | 0 <= i < |rules|
      ensures r[i] == if rules[i].name == DEFAULT_RULE_NAME then DefaultRule(backendSet) else rules[i]
    {
    }
    forall i, j | 0 <= i < j < |r| ensures !RuleLess(r[j], r[i]) {
      if j < |rules| { assert !RuleLess(rules[j], rules[i]); }
    }
  }

  lemma {:induction false} RepairKeepsOrder(policy: Policy, backendSet: string, known: Policy)
    requires WellKept(policy)
    ensures WellKept(RepairOutcome(policy, backendSet, known))
  {
    if policy.Some? { ReplacedKeepsOrder(policy.value, backendSet); }
  }

  /** A repair changes the default rule only, and leaves the wanted one unless it made no call or found
      the policy gone. */
  lemma {:induction false} RepairLookup(policy: Policy, backendSet: string, known: Policy, name: string)
    requires policy.Some? ==> UniqueNames(policy.value)
    ensures name != DEFAULT_RULE_NAME ==>
              Lookup(RepairOutcome(policy, backendSet, known), name) == Lookup(policy, name)
    ensures (known.None? || DefaultRuleDrifted(known.value, backendSet)) && (policy.Some? || known.None?) ==>
              RepairOutcome(policy, backendSet, known).Some? &&
              !DefaultRuleDrifted(RepairOutcome(policy, backendSet, known).value, backendSet)
  {
    if policy.Some? {
      RepairedRulesMatch(policy.value, backendSet);
      if name != DEFAULT_RULE_NAME { ReplacedLookup(policy.value, backendSet, name); }
    } else {
      assert RuleMap([DefaultRule(backendSet)]) == map[DEFAULT_RULE_NAME := DefaultRule(backendSet)];
    }
  }

  lemma {:induction false} ReplacedLookup(rules: seq<Rule>, backendSet: string, name: string)
    requires UniqueNames(rules) && name != DEFAULT_RULE_NAME
    ensures Lookup(Some(RulesWithDefault(rules, backendSet)), name) == Lookup(Some(rules), name)
  {
    var r := RulesWithDefault(rules, backendSet);
    RulesWithDefaultUnique(rules, backendSet);
    if name in RuleMap(rules) {
      var k := RuleAt(rules, name);
      assert r[k] == rules[k];
      RuleMapUnique(r, k);
    }
    if name in RuleMap(r) {
      var k := RuleAt(r, name);
      assert k < |rules| && r[k] == rules[k];
      RuleMapUnique(rules, k);
    }
  }

  lemma {:induction false} RuleAt(rules: seq<Rule>, name: string) returns (k: nat)
    requires name in RuleMap(rules)
    ensures k < |rules| && rules[k] == RuleMap(rules)[name] && rules[k].name == name
  {
    RuleMapHolds(rules, name);
    k :| k < |rules| && rules[k] == RuleMap(rules)[name];
  }

  lemma {:induction false} RulesWithDefaultUnique(rules: seq<Rule>, backendSet: string)
    requires UniqueNames(rules)
    ensures UniqueNames(RulesWithDefault(rules, backendSet))
  {
  }

  lemma {:induction false} RepairedRulesMatch(rules: seq<Rule>, backendSet: string)
    ensures !DefaultRuleDrifted(RulesWithDefault(rules, backendSet), backendSet)
  {
    var r := RulesWithDefault(rules, backendSet);
    if HasDefaultRule(rules) {
      var i :| 0 <= i < |rules| && rules[i].name == DEFAULT_RULE_NAME;
      assert r[i] == DefaultRule(backendSet);
      NotDrifted(r, backendSet, i);
    } else {
      assert r[|rules|] == DefaultRule(backendSet);
      NotDrifted(r, backendSet, |rules|);
    }
  }

  lemma {:induction false} NotDrifted(rules: seq<Rule>, backendSet: string, i: nat)
    requires i < |rules| && rules[i] == DefaultRule(backendSet)
    requires forall k :: 0 <= k < |rules| && rules[k].name == DEFAULT_RULE_NAME ==> rules[k] == DefaultRule(backendSet)
    ensures !DefaultRuleDrifted(rules, backendSet)
  {
    if rules[0].name != DEFAULT_RULE_NAME { NotDrifted(rules[1..], backendSet, i - 1); }
  }

  // ----- the code, against the OCI client

  /** How the calls of one critical section end. `writeRejected`: the write call fails and changes nothing;
      `waitFails`: the write takes effect but waiting for its work request fails. */
  datatype Faults = Faults(getFails: bool, writeRejected: bool, waitFails: bool)

  datatype Fetched = Found(rules: seq<Rule>) | NotFound | GetError

  function At(policies: map<string, seq<Rule>>, name: string): Policy {
    if name in policies then Some(policies[name]) else None
  }

  function With(policies: map<string, seq<Rule>>, name: string, policy: Policy): map<string, seq<Rule>> {
    match policy case Some(rules) => policies[name := rules] case None => policies - {name}
  }

  /** The routing policies of one load balancer, with OCI's own error cases: updating or deleting a missing
      policy and creating an existing one fail. */
  class PolicyClient {
    var policies: map<string, seq<Rule>>
    ghost var writes: nat

    method Get(name: string, faults: Faults) returns (r: Fetched)
      ensures r == if faults.getFails then GetError
                   else if name in policies then Found(policies[name]) else NotFound
    {
      if faults.getFails { return GetError; }
      if name in policies { return Found(policies[name]); }
      return NotFound;
    }

    method Create(name: string, rules: seq<Rule>, faults: Faults) returns (ok: bool)
      modifies this
      ensures policies == if faults.writeRejected || name in old(policies) then old(policies)
                          else old(policies)[name := rules]
      ensures ok <==> !faults.writeRejected && name !in old(policies) && !faults.waitFails
      ensures writes == old(writes) + 1
    {
      writes := writes + 1;
      if faults.writeRejected || name in policies { return false; }
      policies := policies[name := rules];
      return !faults.waitFails;
    }

    method Update(name: string, rules: seq<Rule>, faults: Faults) returns (ok: bool)
      modifies this
      ensures policies == if faults.writeRejected || name !in old(policies) then old(policies)
                          else old(policies)[name := rules]
      ensures ok <==> !faults.writeRejected && name in old(policies) && !faults.waitFails
      ensures writes == old(writes) + 1
    {
      writes := writes + 1;
      if faults.writeRejected || name !in policies { return false; }
      policies := policies[name := rules];
      return !faults.waitFails;
    }

    method Delete(name: string, faults: Faults) returns (ok: bool)
      modifies this
      ensures policies == if faults.writeRejected then old(policies) else old(policies) - {name}
      ensures ok <==> !faults.writeRejected && name in old(policies) && !faults.waitFails
      ensures writes == old(writes) + 1
    {
      writes := writes + 1;
      if faults.writeRejected || name !in policies { return false; }
      policies := policies - {name};
      return !faults.waitFails;
    }
  }

  /** Collects the map's rules in whatever order the runtime iterates it. */
  method Values(m: map<string, Rule>) returns (rules: seq<Rule>)
    requires KeyedByName(m)
    ensures UniqueNames(rules) && RuleMap(rules) == m
  {
    rules := [];
    var pending := m.Keys;
    while pending != {}
      invariant pending <= m.Keys
      invariant UniqueNames(rules)
      invariant RuleMap(rules) == m - pending
      invariant forall r :: r in rules ==> r.name in m && r.name !in pending
      decreases |pending|
    {
      var n :| n in pending;
      AppendRule(rules, m[n]);
      rules := rules + [m[n]];
      pending := pending - {n};
    }
    assert m - {} == m;
  }

  lemma {:induction false} AppendRule(rules: seq<Rule>, r: Rule)
    ensures RuleMap(rules + [r]) == RuleMap(rules)[r.name := r]
  {
    assert (rules + [r])[..|rules|] == rules;
  }

  method CommitRoutingPolicyLocked(
      oci: PolicyClient, policyName: string, newRules: seq<Rule>, prevNames: seq<string>, faults: Faults)
    returns (ok: bool)
    modifies oci
    ensures oci.policies ==
            if faults.getFails || faults.writeRejected then old(oci.policies)
            else With(old(oci.policies), policyName,
                      CommitOutcome(At(old(oci.policies), policyName), newRules, prevNames))
    ensures var writes := CommitWrites(At(old(oci.policies), policyName), newRules, prevNames);
            && (ok <==> !faults.getFails && (writes ==> !faults.writeRejected && !faults.waitFails))
            && oci.writes == old(oci.writes) + (if !faults.getFails && writes then 1 else 0)
  {
    var fetched := oci.Get(policyName, faults);
    match fetched
    case GetError => return false;
    case NotFound =>
      ok := CreateMissingCommittedRoutingPolicy(oci, policyName, newRules, faults);
    case Found(current) =>
      var mergedRules := MergeRules(current, newRules, prevNames);
      if mergedRules == [] {
        ok := oci.Delete(policyName, faults);
      } else if RulesEqual(current, mergedRules) {
        assert With(oci.policies, policyName, Some(current)) == oci.policies;
        ok := true;
      } else {
        ok := oci.Update(policyName, mergedRules, faults);
      }
  }

  method CreateMissingCommittedRoutingPolicy(
      oci: PolicyClient, policyName: string, newRules: seq<Rule>, faults: Faults)
    returns (ok: bool)
    requires policyName !in oci.policies
    modifies oci
    ensures newRules == [] ==> ok && oci.policies == old(oci.policies) && oci.writes == old(oci.writes)
    ensures newRules != [] ==>
              && (ok <==> !faults.writeRejected && !faults.waitFails)
              && oci.policies == (if faults.writeRejected then old(oci.policies)
                                  else old(oci.policies)[policyName := SortRules(newRules)])
              && oci.writes == old(oci.writes) + 1
  {
    if newRules == [] { return true; }
    ok := oci.Create(policyName, SortRules(newRules), faults);
  }

  /** `lo.SliceToMap`: the last rule of a name wins. */
  method RulesByName(rules: seq<Rule>) returns (byName: map<string, Rule>)
    ensures byName == RuleMap(rules)
  {
    byName := map[];
    for i := 0 to |rules|
      invariant byName == RuleMap(rules[..i])
    {
      AppendRule(rules[..i], rules[i]);
      assert rules[..i + 1] == rules[..i] + [rules[i]];
      byName := byName[rules[i].name := rules[i]];
    }
    assert rules[..|rules|] == rules;
  }

  lemma {:induction false} NameSetSnoc(rules: seq<Rule>, r: Rule)
    ensures NameSet(rules + [r]) == NameSet(rules) + {r.name}
  {
    assert forall x :: x in rules + [r] <==> x in rules || x == r;
  }

  lemma {:induction false} OverlayStep(start: map<string, Rule>, rules: seq<Rule>, i: nat)
    requires i < |rules|
    ensures start + RuleMap(rules[..i + 1]) == (start + RuleMap(rules[..i]))[rules[i].name := rules[i]]
    ensures NameSet(rules[..i + 1]) == NameSet(rules[..i]) + {rules[i].name}
  {
    assert rules[..i + 1] == rules[..i] + [rules[i]];
    AppendRule(rules[..i], rules[i]);
    NameSetSnoc(rules[..i], rules[i]);
  }

  /** The loop that overwrites the policy's rules with the route's new ones and notes their names. */
  method OverlayRules(current: seq<Rule>, newRules: seq<Rule>)
    returns (byName: map<string, Rule>, newNames: set<string>)
    ensures byName == RuleMap(current) + RuleMap(newRules)
    ensures newNames == NameSet(newRules)
  {
    byName := RulesByName(current);
    ghost var start := byName;
    newNames := {};
    for i := 0 to |newRules|
      invariant byName == start + RuleMap(newRules[..i])
      invariant newNames == NameSet(newRules[..i])
    {
      OverlayStep(start, newRules, i);
      byName := byName[newRules[i].name := newRules[i]];
      newNames := newNames + {newRules[i].name};
    }
    assert newRules[..|newRules|] == newRules;
  }

  method DropWithdrawn(byName: map<string, Rule>, newNames: set<string>, prevNames: seq<string>)
    returns (kept: map<string, Rule>)
    ensures kept == byName - (StringSet(prevNames) - newNames)
  {
    kept := byName;
    for i := 0 to |prevNames|
      invariant kept == byName - (StringSet(prevNames[..i]) - newNames)
    {
      assert StringSet(prevNames[..i + 1]) == StringSet(prevNames[..i]) + {prevNames[i]};
      if prevNames[i] !in newNames {
        kept := kept - {prevNames[i]};
      }
    }
    assert prevNames[..|prevNames|] == prevNames;
  }

  /** The merge through a map with unspecified iteration order, then the sort: one result for all orders. */
  method MergeRules(current: seq<Rule>, newRules: seq<Rule>, prevNames: seq<string>) returns (merged: seq<Rule>)
    ensures merged == Merged(current, newRules, prevNames)
  {
    var overlaid, newNames := OverlayRules(current, newRules);
    var byName := DropWithdrawn(overlaid, newNames, prevNames);
    RuleMapKeyed(current);
    MergedMapKeyed(RuleMap(current), newRules, prevNames);
    var values := Values(byName);
    SortIsDetermined(values);
    merged := SortRules(values);
    ListsUnique(merged, Merged(current, newRules, prevNames), byName);
  }

  /** The loop that puts the default rule in place of every rule of its name, or at the end. */
  method DesiredRoutingPolicyRulesWithDefault(rules: seq<Rule>, backendSet: string) returns (desired: seq<Rule>)
    ensures desired == RulesWithDefault(rules, backendSet)
  {
    desired := [];
    var found := false;
    for i := 0 to |rules|
      invariant desired == WithDefaultReplaced(rules[..i], backendSet)
      invariant found == HasDefaultRule(rules[..i])
    {
      ReplacedSnoc(rules[..i], rules[i], backendSet);
      assert rules[..i + 1] == rules[..i] + [rules[i]];
      if rules[i].name == DEFAULT_RULE_NAME {
        found, desired := true, desired + [DefaultRule(backendSet)];
        continue;
      }
      desired := desired + [rules[i]];
    }
    assert rules[..|rules|] == rules;
    if !found { desired := desired + [DefaultRule(backendSet)]; }
  }

  lemma {:induction false} ReplacedSnoc(rules: seq<Rule>, last: Rule, backendSet: string)
    ensures WithDefaultReplaced(rules + [last], backendSet) ==
            WithDefaultReplaced(rules, backendSet) +
            [if last.name == DEFAULT_RULE_NAME then DefaultRule(backendSet) else last]
    ensures HasDefaultRule(rules + [last]) <==> HasDefaultRule(rules) || last.name == DEFAULT_RULE_NAME
  {
    var all := rules + [last];
    assert all[|rules|] == last && forall i :: 0 <= i < |rules| ==> all[i] == rules[i];
    assert WithDefaultReplaced(all, backendSet) ==
           WithDefaultReplaced(rules, backendSet) +
           [if last.name == DEFAULT_RULE_NAME then DefaultRule(backendSet) else last];
  }

  method ReconcileListenerRoutingPolicyLocked(
      oci: PolicyClient, policyName: string, backendSet: string, known: Policy, faults: Faults)
    returns (ok: bool)
    modifies oci
    ensures oci.policies ==
            if faults.getFails || faults.writeRejected then old(oci.policies)
            else With(old(oci.policies), policyName,
                      RepairOutcome(At(old(oci.policies), policyName), backendSet, known))
    ensures ok && (known.None? || DefaultRuleDrifted(known.value, backendSet)) ==>
              policyName in oci.policies && !DefaultRuleDrifted(oci.policies[policyName], backendSet)
  {
    assert forall m: map<string, seq<Rule>> :: With(m, policyName, At(m, policyName)) == m;
    var policy := known;
    if known.None? || DefaultRuleDrifted(known.value, backendSet) {
      var fetched := oci.Get(policyName, faults);
      match fetched
      case GetError => return false;
      case Found(rules) => policy := Some(rules);
      case NotFound =>
    }
    if policy.None? {
      ok := oci.Create(policyName, [DefaultRule(backendSet)], faults);
      return;
    }
    if DefaultRuleDrifted(policy.value, backendSet) {
      RepairedRulesMatch(policy.value, backendSet);
      var desired := DesiredRoutingPolicyRulesWithDefault(policy.value, backendSet);
      ok := oci.Update(policyName, desired, faults);
      return;
    }
    return true;
  }
}
