/** Stored policies and compiled conditions together: which rule serves a request that meets a route. */
module CompiledRules {
  import opened Text
  import opened RoutingRules
  import opened ConditionCompiler
  import opened ConditionMeaning
  import ConditionGuarantees
  import CommitProtocol

  /** Whether a rule's condition text holds on a request that makes these atoms true. */
  function OnRequest(atoms: string -> bool): string -> bool {
    condition => Eval(condition, atoms)
  }

  /** The request meets the hostnames and the matches of a route, as far as they are compiled. */
  ghost predicate MeetsRoute(hostnames: seq<string>, port: nat, lists: seq<seq<string>>, atoms: string -> bool) {
    && (hostnames == [] || Any(AllHostConditions(hostnames, port), atoms))
    && MatchesHold(NonEmpty(lists), atoms)
  }

  /** The rule at `k` of a reachable policy was compiled from this text. */
  ghost predicate StoredRule(
      start: CommitProtocol.Store, steps: seq<CommitProtocol.Step>, key: string, k: nat, condition: string)
    requires CommitProtocol.KeptStore(start)
  {
    var run := CommitProtocol.Run(start, steps);
    && run.Some? && key in run.value.store && k < |run.value.store[key]|
    && run.value.store[key][k].condition == condition && run.value.store[key][k].name != DEFAULT_RULE_NAME
  }

  function PolicyRules(store: CommitProtocol.Store, key: string): seq<Rule> {
    if key in store then store[key] else []
  }

  /** A request with a native gRPC content type that meets a gRPC route is served by a gRPC rule of the policy that
      holds the route's rule, whatever HTTP rules the policy holds besides. */
  lemma {:induction false} GRPCRequestsAreServedByGRPC(
      start: CommitProtocol.Store, steps: seq<CommitProtocol.Step>, key: string, k: nat,
      hostnames: seq<string>, port: nat, matches: seq<GRPCRouteMatch>, atoms: string -> bool)
    requires CommitProtocol.KeptStore(start)
    requires (forall h :: h in hostnames ==> '\'' !in h) && GRPCLists(matches).Ok?
    ensures MapGRPCRoute(hostnames, port, matches).Ok?
    ensures StoredRule(start, steps, key, k, MapGRPCRoute(hostnames, port, matches).value) &&
            MeetsRoute(hostnames, port, GRPCLists(matches).value, atoms) && Any(GRPC_CONTENT_TYPES, atoms) ==>
              var served := Served(PolicyRules(CommitProtocol.Run(start, steps).value.store, key), OnRequest(atoms));
              served.Some? && MatchesNativeGRPC(served.value) && Eval(served.value.condition, atoms)
  {
    var text := MapGRPCRoute(hostnames, port, matches).value;
    if StoredRule(start, steps, key, k, text) && MeetsRoute(hostnames, port, GRPCLists(matches).value, atoms) &&
       Any(GRPC_CONTENT_TYPES, atoms)
    {
      GRPCConditionMeaning(hostnames, port, matches, atoms);
      ConditionGuarantees.GRPCConditionsAreMarked(hostnames, port, matches);
      assert OnRequest(atoms)(text);
      ServedByItsKind(start, steps, key, k, text, OnRequest(atoms));
    }
  }

  /** A request that meets an HTTP route is never left to the default backend. */
  lemma {:induction false} HTTPRequestsAvoidTheDefault(
      start: CommitProtocol.Store, steps: seq<CommitProtocol.Step>, key: string, k: nat,
      hostnames: seq<string>, port: nat, matches: seq<HTTPRouteMatch>, atoms: string -> bool)
    requires CommitProtocol.KeptStore(start)
    requires (forall h :: h in hostnames ==> '\'' !in h) && HTTPLists(matches).Ok?
    requires hostnames != [] || NonEmpty(HTTPLists(matches).value) != []
    ensures MapHTTPRoute(hostnames, port, matches).Ok?
    ensures StoredRule(start, steps, key, k, MapHTTPRoute(hostnames, port, matches).value) &&
            MeetsRoute(hostnames, port, HTTPLists(matches).value, atoms) ==>
              var served := Served(PolicyRules(CommitProtocol.Run(start, steps).value.store, key), OnRequest(atoms));
              served.Some? && served.value.name != DEFAULT_RULE_NAME && Eval(served.value.condition, atoms)
  {
    var text := MapHTTPRoute(hostnames, port, matches).value;
    if StoredRule(start, steps, key, k, text) && MeetsRoute(hostnames, port, HTTPLists(matches).value, atoms) {
      HTTPConditionMeaning(hostnames, port, matches, atoms);
      assert OnRequest(atoms)(text);
      ServedByItsKind(start, steps, key, k, text, OnRequest(atoms));
    }
  }

  /** For any way conditions may hold. */
  lemma {:induction false} ServedByItsKind(
      start: CommitProtocol.Store, steps: seq<CommitProtocol.Step>, key: string, k: nat, text: string,
      holds: string -> bool)
    requires CommitProtocol.KeptStore(start)
    requires StoredRule(start, steps, key, k, text) && holds(text)
    ensures var served := Served(PolicyRules(CommitProtocol.Run(start, steps).value.store, key), holds);
            && served.Some? && served.value.name != DEFAULT_RULE_NAME && holds(served.value.condition)
            && (ConditionMatchesNativeGRPC(text) ==> MatchesNativeGRPC(served.value))
  {
    CommitProtocol.StoredPoliciesPrioritize(start, steps, key, holds, k);
    ServedHolds(PolicyRules(CommitProtocol.Run(start, steps).value.store, key), holds);
  }
}
