/** The rules of an OCI routing policy: the three-tier order they are kept in and what that order
    means under first-match evaluation. */
module RoutingRules {
  import opened Text
  import P = Precedence

  const DEFAULT_RULE_NAME := "default_catch_all"
  const DEFAULT_CONDITION := "any(http.request.url.path sw '/')"

  datatype Action = ForwardToBackendSet(backendSetName: string) | OtherAction(kind: string)

  datatype Rule = Rule(name: string, condition: string, actions: seq<Action>)

  // ----- the order

  const NATIVE_GRPC_MARKERS: seq<string> := [
    "eq (i 'application/grpc')", "sw (i 'application/grpc+')", "sw (i 'application/grpc;')"
  ]

  predicate ContainsOneOf(s: string, parts: seq<string>) {
    parts != [] && (Contains(s, parts[0]) || ContainsOneOf(s, parts[1..]))
  }

  predicate ConditionMatchesNativeGRPC(condition: string) {
    ContainsOneOf(condition, NATIVE_GRPC_MARKERS)
  }

  predicate MatchesNativeGRPC(rule: Rule) {
    ConditionMatchesNativeGRPC(rule.condition)
  }

  predicate RuleLess(a: Rule, b: Rule) {
    if a.name == DEFAULT_RULE_NAME then false
    else if b.name == DEFAULT_RULE_NAME then true
    else if MatchesNativeGRPC(a) != MatchesNativeGRPC(b) then MatchesNativeGRPC(a)
    else Less(a.name, b.name)
  }

  /** Native gRPC rules, then the others, then the default rule. */
  function Tier(rule: Rule): nat {
    if rule.name == DEFAULT_RULE_NAME then 2 else if MatchesNativeGRPC(rule) then 0 else 1
  }

  /** The comparison is exactly the lexicographic order on (tier, name). */
  lemma {:induction false} RuleLessIsTierThenName(a: Rule, b: Rule)
    ensures RuleLess(a, b) <==> Tier(a) < Tier(b) || (Tier(a) == Tier(b) && Less(a.name, b.name))
  {
    LessIrreflexive(DEFAULT_RULE_NAME);
  }

  function RuleRank(rule: Rule): P.Rank {
    P.Rank(Tier(rule), rule.name)
  }

  lemma {:induction false} RuleLessIsBefore(a: Rule, b: Rule)
    ensures RuleLess(a, b) <==> P.Before(RuleRank(a), RuleRank(b))
  {
    RuleLessIsTierThenName(a, b);
  }

  /** What sorting asks of a comparison: "not after" is transitive, so a list without neighbouring inversions has
      none at all. */
  lemma {:induction false} NotAfterTransitive(a: Rule, b: Rule, c: Rule)
    requires !RuleLess(b, a) && !RuleLess(c, b)
    ensures !RuleLess(c, a)
  {
    RuleLessIsBefore(b, a);
    RuleLessIsBefore(c, b);
    RuleLessIsBefore(c, a);
    P.NotAfterTransitive(RuleRank(a), RuleRank(b), RuleRank(c));
  }

  lemma {:induction false} DistinctNamesAreOrdered(a: Rule, b: Rule)
    requires a.name != b.name
    ensures RuleLess(a, b) || RuleLess(b, a)
  {
    LessTotal(a.name, b.name);
  }

  // ----- lists of rules

  ghost predicate SortedRules(rules: seq<Rule>) {
    forall i, j :: 0 <= i < j < |rules| ==> !RuleLess(rules[j], rules[i])
  }

  ghost predicate UniqueNames(rules: seq<Rule>) {
    forall i, j :: 0 <= i < j < |rules| ==> rules[i].name != rules[j].name
  }

  /** Stands for `sort.Slice`: some sorted rearrangement. For distinct names there is only one, whatever
      the algorithm (`SortIsDetermined`). */
  function SortRules(rules: seq<Rule>): seq<Rule> {
    P.Sort(rules, RuleRank)
  }

  lemma {:induction false} SortedByRank(rules: seq<Rule>)
    ensures SortedRules(rules) <==> P.Sorted(rules, RuleRank)
  {
    forall i, j | 0 <= i < j < |rules|
      ensures RuleLess(rules[j], rules[i]) <==> P.Before(RuleRank(rules[j]), RuleRank(rules[i]))
    {
      RuleLessIsBefore(rules[j], rules[i]);
    }
  }

  lemma {:induction false} SortRulesSorts(rules: seq<Rule>)
    ensures SortedRules(SortRules(rules))
    ensures multiset(SortRules(rules)) == multiset(rules)
  {
    P.SortSorts(rules, RuleRank);
    SortedByRank(SortRules(rules));
  }

  lemma {:induction false} SortKeepsUniqueNames(rules: seq<Rule>)
    requires UniqueNames(rules)
    ensures UniqueNames(SortRules(rules))
    ensures forall r :: r in SortRules(rules) <==> r in rules
  {
    SortRulesSorts(rules);
    SameMembers(SortRules(rules), rules);
    if rules != [] {
      SortKeepsUniqueNames(rules[1..]);
      forall r | r in SortRules(rules[1..]) ensures r.name != rules[0].name {
        var k :| 0 <= k < |rules[1..]| && rules[1..][k] == r;
      }
      InsertUniqueNames(rules[0], SortRules(rules[1..]));
    }
  }

  lemma {:induction false} InsertUniqueNames(rule: Rule, rules: seq<Rule>)
    requires UniqueNames(rules)
    requires forall r :: r in rules ==> r.name != rule.name
    ensures UniqueNames(P.Insert(rule, rules, RuleRank))
  {
    if rules != [] && P.Before(RuleRank(rules[0]), RuleRank(rule)) {
      InsertUniqueNames(rule, rules[1..]);
      P.InsertedMembers(rule, rules[1..], RuleRank);
      var rest := P.Insert(rule, rules[1..], RuleRank);
      forall j | 0 <= j < |rest| ensures rest[j].name != rules[0].name {
        assert rest[j] in rest && (rest[j] == rule || rest[j] in rules[1..]);
      }
    }
  }

  // ----- rules by name

  /** `lo.SliceToMap` by name: a later rule replaces an earlier one of the same name. */
  function RuleMap(rules: seq<Rule>): map<string, Rule> {
    if rules == [] then map[]
    else RuleMap(rules[..|rules| - 1])[rules[|rules| - 1].name := rules[|rules| - 1]]
  }

  lemma {:induction false} RuleMapHolds(rules: seq<Rule>, n: string)
    requires n in RuleMap(rules)
    ensures RuleMap(rules)[n].name == n
    ensures exists k :: 0 <= k < |rules| && rules[k] == RuleMap(rules)[n]
  {
    var last := |rules| - 1;
    if rules[last].name != n {
      RuleMapHolds(rules[..last], n);
      var k :| 0 <= k < last && rules[..last][k] == RuleMap(rules)[n];
      assert rules[k] == RuleMap(rules)[n];
    }
  }

  lemma {:induction false} RuleMapCovers(rules: seq<Rule>, k: nat)
    requires k < |rules|
    ensures rules[k].name in RuleMap(rules)
  {
    var last := |rules| - 1;
    if k < last { RuleMapCovers(rules[..last], k); }
  }

  lemma {:induction false} RuleMapUnique(rules: seq<Rule>, k: nat)
    requires UniqueNames(rules) && k < |rules|
    ensures rules[k].name in RuleMap(rules) && RuleMap(rules)[rules[k].name] == rules[k]
  {
    RuleMapCovers(rules, k);
    RuleMapHolds(rules, rules[k].name);
    var j :| 0 <= j < |rules| && rules[j] == RuleMap(rules)[rules[k].name];
    assert rules[j].name == rules[k].name;
  }

  /** Lists with the same rules under distinct names describe the same map. */
  lemma {:induction false} RuleMapSameElements(s: seq<Rule>, t: seq<Rule>)
    requires UniqueNames(s) && UniqueNames(t)
    requires forall r :: r in s <==> r in t
    ensures RuleMap(s) == RuleMap(t)
  {
    forall n | n in RuleMap(s) ensures n in RuleMap(t) && RuleMap(t)[n] == RuleMap(s)[n] {
      RuleMapHolds(s, n);
      RuleMapInto(s, t, n);
    }
    forall n | n in RuleMap(t) ensures n in RuleMap(s) {
      RuleMapHolds(t, n);
      RuleMapInto(t, s, n);
    }
  }

  lemma {:induction false} RuleMapInto(s: seq<Rule>, t: seq<Rule>, n: string)
    requires UniqueNames(t)
    requires n in RuleMap(s) && RuleMap(s)[n] in t
    ensures n in RuleMap(t) && RuleMap(t)[n] == RuleMap(s)[n]
  {
    RuleMapHolds(s, n);
    var k :| 0 <= k < |t| && t[k] == RuleMap(s)[n];
    RuleMapUnique(t, k);
  }

  ghost predicate KeyedByName(m: map<string, Rule>) {
    forall n :: n in m ==> m[n].name == n
  }

  lemma {:induction false} RuleMapKeyed(rules: seq<Rule>)
    ensures KeyedByName(RuleMap(rules))
  {
    forall n | n in RuleMap(rules) ensures RuleMap(rules)[n].name == n { RuleMapHolds(rules, n); }
  }

  /** The list holds each rule of the map once, in order. */
  ghost predicate ListsSorted(rules: seq<Rule>, m: map<string, Rule>) {
    UniqueNames(rules) && SortedRules(rules) && RuleMap(rules) == m
  }

  lemma {:induction false} ListsElements(rules: seq<Rule>, m: map<string, Rule>, r: Rule)
    requires ListsSorted(rules, m)
    ensures r in rules <==> r.name in m && m[r.name] == r
  {
    if r in rules {
      var k :| 0 <= k < |rules| && rules[k] == r;
      RuleMapUnique(rules, k);
    }
    if r.name in m {
      RuleMapHolds(rules, r.name);
    }
  }

  /** There is only one such list: map iteration order and the sorting algorithm leave no trace. */
  lemma {:induction false} ListsUnique(s: seq<Rule>, t: seq<Rule>, m: map<string, Rule>)
    requires ListsSorted(s, m) && ListsSorted(t, m)
    ensures s == t
    decreases |s|
  {
    if s == [] || t == [] {
      if s != [] { ListsElements(s, m, s[0]); }
      if t != [] { ListsElements(t, m, t[0]); }
    } else {
      LastIsShared(s, t, m);
      WithoutLast(s);
      WithoutLast(t);
      ListsUnique(s[..|s| - 1], t[..|t| - 1], m - {s[|s| - 1].name});
      assert s == s[..|s| - 1] + [s[|s| - 1]] && t == t[..|t| - 1] + [t[|t| - 1]];
    }
  }

  lemma {:induction false} LastIsShared(s: seq<Rule>, t: seq<Rule>, m: map<string, Rule>)
    requires ListsSorted(s, m) && ListsSorted(t, m) && s != [] && t != []
    ensures s[|s| - 1] == t[|t| - 1]
  {
    var x, y := s[|s| - 1], t[|t| - 1];
    ListsElements(s, m, x);
    ListsElements(t, m, y);
    if x.name != y.name {
      ListsElements(s, m, y);
      ListsElements(t, m, x);
      var i :| 0 <= i < |s| && s[i] == y;
      var j :| 0 <= j < |t| && t[j] == x;
      assert i < |s| - 1 && j < |t| - 1;
      DistinctNamesAreOrdered(x, y);
      assert false;
    }
  }

  lemma {:induction false} WithoutLast(s: seq<Rule>)
    requires s != [] && UniqueNames(s) && SortedRules(s)
    ensures ListsSorted(s[..|s| - 1], RuleMap(s) - {s[|s| - 1].name})
  {
    PrefixKeepsOrder(s, |s| - 1);
    RuleMapWithoutLast(s);
  }

  lemma {:induction false} RuleMapWithoutLast(s: seq<Rule>)
    requires s != [] && UniqueNames(s)
    ensures RuleMap(s[..|s| - 1]) == RuleMap(s) - {s[|s| - 1].name}
  {
    var m, last := RuleMap(s[..|s| - 1]), s[|s| - 1];
    assert RuleMap(s) == m[last.name := last];
    LastNameIsNew(s);
    PutRemove(m, last.name, last);
  }

  lemma {:induction false} LastNameIsNew(s: seq<Rule>)
    requires s != [] && UniqueNames(s)
    ensures s[|s| - 1].name !in RuleMap(s[..|s| - 1])
  {
    var n := s[|s| - 1].name;
    if n in RuleMap(s[..|s| - 1]) {
      RuleMapHolds(s[..|s| - 1], n);
    }
  }

  lemma {:induction false} PutRemove<K, V>(m: map<K, V>, k: K, v: V)
    requires k !in m
    ensures m[k := v] - {k} == m
  {
  }

  lemma {:induction false} PrefixKeepsOrder(s: seq<Rule>, k: nat)
    requires k <= |s| && UniqueNames(s) && SortedRules(s)
    ensures UniqueNames(s[..k]) && SortedRules(s[..k])
  {
    forall i, j | 0 <= i < j < k ensures !RuleLess(s[..k][j], s[..k][i]) {
      assert !RuleLess(s[j], s[i]);
    }
  }

  /** Sorting a list with distinct names gives the one list of its map, so every sorting algorithm agrees. */
  lemma {:induction false} SortIsDetermined(rules: seq<Rule>)
    requires UniqueNames(rules)
    ensures ListsSorted(SortRules(rules), RuleMap(rules))
  {
    SortRulesSorts(rules);
    SortKeepsUniqueNames(rules);
    RuleMapSameElements(SortRules(rules), rules);
  }

  ghost function Listing(m: map<string, Rule>): (rules: seq<Rule>)
    requires KeyedByName(m)
    ensures ListsSorted(rules, m)
  {
    if m == map[] then []
    else
      var n :| n in m;
      var rest := Listing(m - {n});
      ListingStep(m, n, rest);
      P.Insert(m[n], rest, RuleRank)
  }

  lemma {:induction false} ListingStep(m: map<string, Rule>, n: string, rest: seq<Rule>)
    requires KeyedByName(m) && n in m && ListsSorted(rest, m - {n})
    ensures ListsSorted(P.Insert(m[n], rest, RuleRank), m)
  {
    var whole := P.Insert(m[n], rest, RuleRank);
    SortedByRank(rest);
    P.InsertKeepsSorted(m[n], rest, RuleRank);
    SortedByRank(whole);
    forall r | r in rest ensures r.name != n { ListsElements(rest, m - {n}, r); }
    InsertUniqueNames(m[n], rest);
    P.InsertedMembers(m[n], rest, RuleRank);
    forall k | k in m ensures k in RuleMap(whole) && RuleMap(whole)[k] == m[k] {
      if k != n { ListsElements(rest, m - {n}, m[k]); }
      var i :| 0 <= i < |whole| && whole[i] == m[k];
      RuleMapUnique(whole, i);
    }
    forall k | k in RuleMap(whole) ensures k in m {
      RuleMapHolds(whole, k);
      var r := RuleMap(whole)[k];
      assert r in whole;
      if r != m[n] { ListsElements(rest, m - {n}, r); }
    }
  }

  predicate RulesEqual(a: seq<Rule>, b: seq<Rule>) {
    SortRules(a) == SortRules(b)
  }

  /** Comparing a policy's list with a merged one compares the sets of rules; stored order is ignored. */
  lemma {:induction false} RulesEqualIgnoresOrder(a: seq<Rule>, b: seq<Rule>)
    requires UniqueNames(a) && UniqueNames(b)
    ensures RulesEqual(a, b) <==> RuleMap(a) == RuleMap(b)
  {
    SortIsDetermined(a);
    SortIsDetermined(b);
    if RuleMap(a) == RuleMap(b) {
      ListsUnique(SortRules(a), SortRules(b), RuleMap(a));
    }
  }

  lemma {:induction false} SortOfSorted(rules: seq<Rule>)
    requires UniqueNames(rules) && SortedRules(rules)
    ensures SortRules(rules) == rules
  {
    SortIsDetermined(rules);
    ListsUnique(SortRules(rules), rules, RuleMap(rules));
  }

  // ----- first-match evaluation

  /** The rule OCI applies: the first whose condition holds of the request. */
  function Served(rules: seq<Rule>, holds: string -> bool): Option<Rule> {
    if rules == [] then None
    else if holds(rules[0].condition) then Some(rules[0])
    else Served(rules[1..], holds)
  }

  lemma {:induction false} ServedIsFirst(rules: seq<Rule>, holds: string -> bool, k: nat) returns (i: nat)
    requires k < |rules| && holds(rules[k].condition)
    ensures i <= k && Served(rules, holds) == Some(rules[i])
  {
    if holds(rules[0].condition) {
      i := 0;
    } else {
      i := ServedIsFirst(rules[1..], holds, k - 1);
      i := i + 1;
    }
  }

  lemma {:induction false} ServedHolds(rules: seq<Rule>, holds: string -> bool)
    ensures Served(rules, holds).Some? ==> holds(Served(rules, holds).value.condition)
  {
    if rules != [] { ServedHolds(rules[1..], holds); }
  }

  /** In a sorted policy the default backend serves a request only when no other rule matches it, and a
      request that satisfies a gRPC rule is served by a gRPC rule. */
  lemma {:induction false} SortedPolicyPriorities(rules: seq<Rule>, holds: string -> bool, k: nat)
    requires SortedRules(rules)
    requires k < |rules| && holds(rules[k].condition) && rules[k].name != DEFAULT_RULE_NAME
    ensures Served(rules, holds).Some? && Served(rules, holds).value.name != DEFAULT_RULE_NAME
    ensures MatchesNativeGRPC(rules[k]) ==> MatchesNativeGRPC(Served(rules, holds).value)
  {
    var i := ServedIsFirst(rules, holds, k);
    if i < k {
      assert !RuleLess(rules[k], rules[i]);
      NotAfterKeepsPriority(rules[i], rules[k]);
    } else {
      assert rules[i] == rules[k];
    }
  }

  lemma {:induction false} NotAfterKeepsPriority(a: Rule, b: Rule)
    requires !RuleLess(b, a) && b.name != DEFAULT_RULE_NAME
    ensures a.name != DEFAULT_RULE_NAME
    ensures MatchesNativeGRPC(b) ==> MatchesNativeGRPC(a)
  {
  }
}
