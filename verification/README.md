# Verified model of the OKE Gateway API controller

The controller compiles Gateway API routes into OCI load balancer state. This project models four parts of it
and proves what they promise:

- **Routing policies.** Many route and listener reconciles read, merge and write the same ordered rule lists under
  a table of reference-counted locks that is itself built and torn down on the fly. Each route remembers what it
  owns in a text annotation that the next run reads back.
- **Conditions.** Hostnames and matches become text in OCI's routing-condition language; the code also holds a
  reader for that text and a translator for a fragment of regular expressions. What a compiled text means and where
  its rule is kept together say which rule serves a request (`CompiledRules`).
- **Selection.** Hostname overlap, precedence among listeners, exclusive ownership of layer-4 listeners.
- **External state.** Backends, listeners and backend sets of a Network Load Balancer, and CA bundles in OCI, changed
  one call at a time, where every call may fail and the process may stop after any of them.

One module stands for one component, in a file of the same name. Code that computes values is modelled by
functions; code with loops or changing fields by methods and classes, each proved against such functions.
Concurrency is modelled by step systems: states, steps, an invariant, and a `Run` over any sequence of steps that
was possible. OCI and Kubernetes appear as classes whose calls may be refused, may take effect although the caller
sees an error, or may succeed. In those classes a log records the state after every call, so that a claim about
all logged states covers stopping after any call.

Conventions: one `char` is one byte of a Go string; white space and letter case are the ASCII ones. Absent pointers
read as the empty value. `sort.Slice` is modelled by its result, a sorted rearrangement; where the sort keys are
distinct there is only one. Iteration over Go maps and sets picks elements in any order. Creation times are
integers. Generated resource names (`ConstructOCIResourceName`, hashes, CRC32) are given, and distinct where stated.

Facts of the code that differ from what its documentation or names suggest; the model follows the code:

- A match without conjuncts is dropped instead of matching every request. `ConditionGuarantees` proves exactly when
  that is harmless and gives an HTTP and a gRPC route where it is not.
- A wildcard hostname is compiled to a literal comparison of the host header, and a path prefix to a plain string
  prefix.
- A policy whose rules equal the merged ones in another order is not rewritten, so stored lists are sorted because
  every write sorts, not because a commit re-sorts.
- A second identical commit is silent unless the policy was missing and the new rules repeat a name
  (`PolicyCommit.RepeatedCommitIsSilent`).
- A route run that stops half-way leaves rules that its annotation does not list. `RouteProgram.RecoveryIsExact`
  says for which next runs this heals, and `RouteHistory.OwnershipIsExact` does so over whole histories.
- Backend entries of one address that disagree on fields other than weight and draining make the merged result
  depend on their order (`Backends.OrderIndependence`).
- Syncing backends from an outdated snapshot may fail or end elsewhere; `BackendSync.SyncBackends` states exactly
  when. Backends are deleted by address, not by name: `BackendSync.NamesDecide` states when that matters.
- Cleaning up a CA-bundle policy reads one page of the bundles of a compartment and then drops the finalizer. A live
  bundle behind that page is left without owner (`CaBundles.CleanupLeavesBundleBehind`, for pages of any size);
  `CaBundles.CleanupIsExact` states exactly when none is left, `CaBundles.CleanupLosesNothing` gives a guard.
- The Network Load Balancer is read before its operation lock is taken. `NlbGateway.ReconcileIsExact` and
  `NlbGateway.UnseenLeftoverBreaks` state which outdated readings break it; what other Gateways change is harmless
  (`NlbGateway.OthersLeaveItRecent`).

`dafny verify dfyconfig.toml` checks the project.

## Model

| member | source | states |
|---|---|---|
| RoutingRules.RuleLessIsTierThenName | internal/app/oci_load_balancer_model.go:1663-1685 | The comparison is the lexicographic order on tier (native gRPC, others, default) and name. |
| RoutingRules.NotAfterTransitive | internal/app/oci_load_balancer_model.go:1663-1678 | The comparison is what sorting needs: "not after" is transitive, so a list without neighbouring inversions has none. |
| RoutingRules.SortRulesSorts | internal/app/oci_load_balancer_model.go:1687-1691 | Sorting gives a sorted rearrangement. |
| RoutingRules.SortIsDetermined | internal/app/oci_load_balancer_model.go:1687-1691 | For distinct names the sorted list depends only on the set of rules, not on the input order. |
| RoutingRules.RulesEqualIgnoresOrder | internal/app/oci_load_balancer_model.go:1693-1701 | Lists of distinct names compare equal if and only if they hold the same rules, whatever their order. |
| RoutingRules.ServedIsFirst | internal/app/oci_load_balancer_model.go:1663-1678 | The serving rule is the first whose condition holds; it exists as soon as one holds. |
| RoutingRules.SortedPolicyPriorities | internal/app/oci_load_balancer_model.go:1663-1678 | In a sorted policy a request that meets a non-default rule is not served by the default rule, and one that meets a gRPC rule is served by a gRPC rule. |
| PolicyCommit.MergedLookup | internal/app/oci_load_balancer_model.go:1834-1857 | The merged map holds the new rule under a new name, nothing under a withdrawn name, the old rule elsewhere. |
| PolicyCommit.CommitLookup | internal/app/oci_load_balancer_model.go:1818-1909 | The same three laws for what the stored policy holds after a whole commit, including missing and emptied policies. |
| PolicyCommit.CommitKeepsOrder | internal/app/oci_load_balancer_model.go:1859-1884 | A commit keeps stored policies sorted, non-empty and with unique names. |
| PolicyCommit.CommitWritesOnChange | internal/app/oci_load_balancer_model.go:1859-1909 | A write call is issued if and only if the policy changes. |
| PolicyCommit.RepeatedCommitIsSilent | internal/app/oci_load_balancer_model.go:1818-1950 | Repeating a commit makes no write, except exactly when the policy was missing and the new rules repeat a name. |
| PolicyCommit.CommitByMap | internal/app/oci_load_balancer_model.go:1834-1884 | The outcome of a commit is determined by the policy's map of rules alone. |
| PolicyCommit.DisjointCommitsCommute | internal/app/oci_load_balancer_model.go:1834-1872 | Commits that touch different rule names give the same policy in either order. |
| PolicyCommit.RepairKeepsOrder | internal/app/oci_load_balancer_model.go:796-862 | Repairing the default rule keeps policies sorted with unique names. |
| PolicyCommit.RepairLookup | internal/app/oci_load_balancer_model.go:796-862 | A repair changes no rule but the default one, and afterwards that one is as wanted. |
| PolicyCommit.CommitRoutingPolicyLocked | internal/app/oci_load_balancer_model.go:1818-1909 | The critical section, against an OCI client with failing calls: the new store, success, and number of writes. |
| PolicyCommit.CreateMissingCommittedRoutingPolicy | internal/app/oci_load_balancer_model.go:1911-1950 | A missing policy is created sorted, or left missing when there are no new rules. |
| PolicyCommit.MergeRules | internal/app/oci_load_balancer_model.go:1834-1872 | The merge through a map of unspecified iteration order yields one result for all orders. |
| PolicyCommit.DesiredRoutingPolicyRulesWithDefault | internal/app/oci_load_balancer_model.go:796-814 | The loop that replaces or appends the default rule computes `RulesWithDefault`. |
| PolicyCommit.ReconcileListenerRoutingPolicyLocked | internal/app/oci_load_balancer_model.go:830-862 | The repair against the OCI client: the new store, and a wanted default rule whenever it reports success after a drift. |
| LockTable.Locks.Acquire | internal/app/oci_load_balancer_model.go:1723-1737 | The new table: the key's lock, made when missing, with one more reference. |
| LockTable.Locks.Release | internal/app/oci_load_balancer_model.go:1739-1747 | The new table: one reference less, and the entry gone when it was the last. |
| LockTable.StepKeepsInv | internal/app/oci_load_balancer_model.go:1713-1747 | Acquire, lock, unlock and release by any thread keep the table's invariant. |
| LockTable.LockDiscipline | internal/app/oci_load_balancer_model.go:1703-1803 | In every reachable state users of a key share the lock in the table, its counter is their number, one at most is inside, and the entry exists exactly while there are users. |
| LockTable.MutualExclusion | internal/app/oci_load_balancer_model.go:1713-1721 | Two threads inside for the same key are the same thread. |
| CertificateLocks.CertificateLock.WithLock | internal/app/oci_load_balancer_model.go:1760-1777 | One operation under the mutex: what it returns and what the lock remembers. |
| CertificateLocks.WithLockIsItsSteps | internal/app/oci_load_balancer_model.go:1760-1777 | In the concurrent system the steps under the mutex return, remember and create exactly what the method does. |
| CertificateLocks.WithLockCreatesOnce | internal/app/oci_load_balancer_model.go:1760-1777 | From any reachable state a successful call leaves its certificate as the only one created under the lock. |
| CertificateLocks.StepKeepsInv | internal/app/oci_load_balancer_model.go:1760-1803 | Every step keeps: one certificate per lock, remembered or about to be. |
| CertificateLocks.OneCertificatePerLock | internal/app/oci_load_balancer_model.go:598-624 | While a lock lives, at most one creation succeeds under it and every success returns that certificate. |
| CommitProtocol.FreshDecisionIsOutcome | internal/app/oci_load_balancer_model.go:1818-1909 | The call decided on from an up-to-date read has the effect the operation promises. |
| CommitProtocol.StepKeepsInv | internal/app/oci_load_balancer_model.go:1805-1909 | Every step of any reconcile keeps the protocol's invariant. |
| CommitProtocol.PoliciesAreSequential | internal/app/oci_load_balancer_model.go:1703-1909 | From any well-kept policies, say those an earlier controller left, and for any interleaving, each stored policy is the result of the effective operations one at a time in lock order. |
| CommitProtocol.StepIsAtomic | internal/app/oci_load_balancer_model.go:1818-1909 | A step of any reconcile either leaves the stored policies alone or applies one whole operation to the policy as it then is. |
| CommitProtocol.RunIsAtomic | internal/app/oci_load_balancer_model.go:1703-1909 | Every interleaving stores what its successful writes, as whole operations in order, make of the first policies. |
| CommitProtocol.NoUpdateIsLost | internal/app/oci_load_balancer_model.go:1805-1909 | What an effective commit put or withdrew stays so until a later effective operation names it. |
| CommitProtocol.StoredPoliciesPrioritize | internal/app/oci_load_balancer_model.go:1663-1701 | Every policy stored on the way from well-kept ones has unique names and serves non-default rules before the default and gRPC rules first. |
| CommitProtocol.OneReconcilePerPolicy | internal/app/oci_load_balancer_model.go:1805-1816 | At most one reconcile is inside the critical section of a policy. |
| CommitProtocol.LockKeyInjective | internal/app/oci_load_balancer_model.go:1805-1816 | Lock keys tell (load balancer, policy) pairs apart. |
| RouteAnnotation.ParseAnnotated | internal/app/httproute_model.go:686-729 | Reading the annotation gives back the entries that were written. |
| RouteAnnotation.MergedEntries | internal/app/httproute_model.go:443-476 | The merged annotation, in entries: those of other listeners kept, those of the run's listeners replaced; it is again well written. |
| RouteAnnotation.ParseProgrammedPolicyRules | internal/app/httproute_model.go:686-715 | The parsing loop computes `Parse`. |
| RouteAnnotation.ProgrammedPolicyRulesAnnotation | internal/app/httproute_model.go:717-729 | The nested loop writes one entry per listener and rule name. |
| RouteAnnotation.MergeL7ProgrammedPolicyRules | internal/app/httproute_model.go:443-476 | The merging loops compute `MergeProgrammed`. |
| RouteAnnotation.PreviousPolicyRulesByListener | internal/app/httproute_model.go:731-755 | The grouping loop: the listeners touched, and for each the names that concern it in order. |
| RoutePlan.PolicyRuleNames | internal/app/httproute_model.go:1285-1318 | The loops note every rule name of every matched listener once, in order. |
| RoutePlan.GridIsGood | internal/app/httproute_model.go:717-729 | The entries a run records can be read back, and include everything it wanted. |
| RoutePlan.AnnotatedHasCall | internal/app/httproute_model.go:1239-1262 | Every listener the annotation names gets a commit. |
| RouteOwnership.EventKeepsInv | internal/app/httproute_model.go:1217-1283 | Starting a run, each of its commits, finishing it, and operations of others keep the ownership invariant. |
| RouteHistory.RouteOwnsWhatItWanted | internal/app/httproute_model.go:1217-1283 | In a history of any runs, commits and repairs of others, without stopped runs: between runs the route has on each listener exactly what its last run wanted, and its re-read annotation lists all of it. |
| RouteHistory.CompletedRunOwns | internal/app/httproute_model.go:1217-1283 | In a history with stopped runs too: after a completed run the route has exactly what it wants and what it neither wanted nor knew of when the run began. |
| RouteHistory.OwnershipIsExact | internal/app/httproute_model.go:1217-1283 | In any such history, a completed run leaves exactly what it wants if and only if it began without rules that are neither annotated nor wanted. |
| RouteHistory.ProtocolRunsAreHistories | internal/app/oci_load_balancer_model.go:1805-1909 | Every run of the commit protocol that follows a route's plan is a history: its successful writes are the events, each possible in turn and with the same effect on the policies. |
| RouteHistory.RouteOwnsGrid | internal/app/httproute_model.go:717-729 | With the same names everywhere, its rules are matched listeners times rule names. |
| RouteHistory.RemovalLeavesNone | internal/app/httproute_model.go:412-441 | Removing by annotation leaves on every listener only rules the annotation did not know of, and none without stopped runs. |
| RouteHistory.OthersAreUntouched | internal/app/httproute_model.go:1239-1262 | The route's commits leave every rule of others as it is. |
| RouteProgram.StaleListeners | internal/app/httproute_model.go:1423-1451 | The loop finds exactly the formerly used listeners that are no longer matched. |
| RouteProgram.ProgramL7RoutePolicy | internal/app/httproute_model.go:1217-1283 | The policy part of the run as code: whenever it stops, the store is the result of a prefix of its plan; on success of the whole plan, with the entries to record. |
| RouteProgram.CompletedRunLeaves | internal/app/httproute_model.go:1217-1283 | From any store, a completed run leaves of the route's names what it wants and what it neither wants nor knows of. |
| RouteProgram.RecoveryIsExact | internal/app/httproute_model.go:1217-1283 | After a completed run the route has exactly what it wants if and only if every rule it had before was annotated or is wanted. |
| RouteProgram.StoppedRunLeavesOrphan | internal/app/httproute_model.go:1239-1262 | A concrete stopped run after which the next, completed run leaves an orphan rule that its annotation does not list. |
| ConditionText.SplitterIsExact | internal/app/oci_load_balancer_routing_rules.go:413-487 | The splitter accepts a text if and only if it is a `", "`-join of closed, non-blank pieces, and returns these trimmed. |
| ConditionText.SplitUndoesJoin | internal/app/oci_load_balancer_routing_rules.go:413-487 | Splitting undoes printing for every non-empty list of well-formed arguments. |
| ConditionText.SplitOCIConditionArguments | internal/app/oci_load_balancer_routing_rules.go:413-463 | The byte loop with index, depth and quote flag computes `SplitArguments`. |
| ConditionText.NestedAllIsFlattened | internal/app/oci_load_balancer_routing_rules.go:380-411 | Conjunctions of atoms are flattened into one conjunction of all atoms in order. |
| RegexFragment.ParseRegexLiteral | internal/app/oci_load_balancer_routing_rules.go:39-73 | The decoding loop computes `DecodeLiteral`. |
| RegexFragment.StartsWithIsExact | internal/app/oci_load_balancer_routing_rules.go:17-27 | An accepted starts-with pattern matches a value, under unanchored search, if and only if the value starts with the literal. |
| RegexFragment.EndsWithIsExact | internal/app/oci_load_balancer_routing_rules.go:29-37 | The same for ends-with patterns. |
| RegexFragment.StartsWithForms | internal/app/oci_load_balancer_routing_rules.go:17-27 | The accepted starts-with patterns are exactly `^L`, `^L.*`, `^L.*$`, `^L.*.*$` with a decodable L. |
| RegexFragment.EndsWithForms | internal/app/oci_load_balancer_routing_rules.go:29-37 | The accepted ends-with patterns are exactly `L$` and `.*L$`. |
| RegexFragment.NeverBoth | internal/app/oci_load_balancer_routing_rules.go:17-37 | No pattern is accepted as both. |
| RegexFragment.DecodeUndoesEscape | internal/app/oci_load_balancer_routing_rules.go:39-86 | Decoding undoes escaping for every non-empty expressible literal. |
| RegexFragment.EscapedTextParses | internal/app/oci_load_balancer_routing_rules.go:17-86 | Every non-empty expressible text, escaped and put between an accepted head and tail, is read back by the starts-with and the ends-with reader. |
| RegexFragment.DecodedIsExpressible | internal/app/oci_load_balancer_routing_rules.go:39-86 | What is decoded is non-empty and safe inside a quoted condition literal. |
| ConditionMeaning.HTTPListsAreAtoms | internal/app/oci_load_balancer_routing_rules.go:137-251 | Every conjunct compiled from a path or header is a well-formed atom, for all accepted values. |
| ConditionMeaning.GRPCListsAreAtoms | internal/app/oci_load_balancer_routing_rules.go:531-618 | The same for gRPC methods and headers. |
| ConditionMeaning.EvalAnyOf | internal/app/oci_load_balancer_routing_rules.go:253-265 | Read back with the splitter, a compiled `any(...)` holds if and only if all atoms of one of its conjunctions hold. |
| ConditionMeaning.HTTPConditionMeaning | internal/app/oci_load_balancer_routing_rules.go:288-316 | The compiled HTTP text holds if and only if some host condition holds and all atoms of some match hold; with the cases without hostnames or matches, and exactly when it is empty. |
| ConditionMeaning.GRPCConditionMeaning | internal/app/oci_load_balancer_routing_rules.go:318-353 | The same for gRPC, with a native content type required; the text is never empty. |
| ConditionGuarantees.GRPCConditionsAreMarked | internal/app/oci_load_balancer_routing_rules.go:318-378 | Every compiled gRPC condition carries the marker the rule order looks for. |
| ConditionGuarantees.HTTPDroppedMatchesExact | internal/app/oci_load_balancer_routing_rules.go:267-286 | A compiled HTTP condition means what the route asks for if and only if no match is without conjuncts, or all are, or each host condition alone already meets some match. |
| ConditionGuarantees.GRPCDroppedMatchesExact | internal/app/oci_load_balancer_routing_rules.go:510-529 | The same for gRPC, with host condition and content type together. |
| ConditionGuarantees.DroppedMatchLosesRequests | internal/app/oci_load_balancer_routing_rules.go:267-286 | A concrete HTTP route whose catch-all match is lost. |
| ConditionGuarantees.DroppedGRPCMatchLosesRequests | internal/app/oci_load_balancer_routing_rules.go:510-529 | A concrete gRPC route, with a match for every call, that loses it. |
| CompiledRules.GRPCRequestsAreServedByGRPC | internal/app/oci_load_balancer_routing_rules.go:318-378 | In every reachable policy that holds a compiled gRPC route, a native gRPC request that meets the route is served by a gRPC rule whose condition it meets. |
| CompiledRules.HTTPRequestsAvoidTheDefault | internal/app/oci_load_balancer_routing_rules.go:288-316 | In every reachable policy that holds a compiled HTTP route, a request that meets the route is not left to the default rule. |
| RuleIdentity.ListenerPolicyRuleIdentity | internal/app/oci_load_balancer_model.go:2184-2191 | The string-building loop computes `Identity`. |
| RuleIdentity.IdentityIsInjective | internal/app/oci_load_balancer_model.go:2184-2191 | Different indices or name parts give different identities, whatever characters the names hold. |
| Hostnames.IntersectionIsExact | internal/app/httproute_model.go:616-646 | Two patterns intersect if and only if some host matches both. |
| Hostnames.PatternsNest | internal/app/httproute_model.go:616-646 | Intersecting patterns are nested: one covers every host of the other. |
| Hostnames.PairwiseGivesCommonHost | internal/app/httproute_model.go:616-646 | Three patterns that intersect pairwise have a host in common. |
| Hostnames.ShareHostnameIsExact | internal/app/httproute_model.go:584-614 | Two routes share a hostname on a listener if and only if one host matches the listener and a pattern of each. |
| Precedence.SortSorts | internal/app/listenerset_model.go:163-170 | Sorting by creation time and key gives a sorted rearrangement. |
| Precedence.SortIgnoresOrder | internal/app/listenerset_model.go:163-170 | With distinct ranks the sorted list does not depend on the input order. |
| ListenerPrecedence.MarkConflicted | internal/app/listenerset_model.go:402-420 | Marking in place: every listener gets the verdict against all listeners before it. |
| ListenerPrecedence.EffectiveListenersForGateway | internal/app/listenerset_model.go:151-187 | Collecting, sorting and marking compute `EffectiveListeners`. |
| ListenerPrecedence.EffectiveVerdicts | internal/app/listenerset_model.go:402-433 | A listener conflicts if and only if an earlier one uses its port. |
| ListenerPrecedence.ReasonIsFromFirst | internal/app/listenerset_model.go:408-445 | The reported reason compares it with the first earlier listener on its port. |
| ListenerPrecedence.OneListenerPerPort | internal/app/listenerset_model.go:189-202 | Programmed listeners use distinct ports, and every requested port has an unconflicted listener. |
| ListenerPrecedence.ListingOrderIsIrrelevant | internal/app/listenerset_model.go:163-187 | Verdicts do not depend on the order ListenerSets are listed in. |
| ListenerPrecedence.LaterSetChangesNoVerdict | internal/app/listenerset_model.go:151-187 | Adding a ListenerSet changes no verdict of the Gateway or of ListenerSets before it. |
| L4Ownership.MatchingRoutesForListener | internal/app/tcproute_model.go:663-707 | The nested loop with its early exit and the sort compute `MatchingRoutes`. |
| L4Ownership.FirstMatchIsOldest | internal/app/tcproute_model.go:663-707 | The first match is the oldest live competitor other than the excluded one. |
| L4Ownership.ExactlyTheOldestPasses | internal/app/tcproute_model.go:637-655 | If live routes match, exactly the least by creation time and key passes the ownership check. |
| L4Ownership.OwnerIsUnique | internal/app/tcproute_model.go:637-655 | A listener has one owner. |
| L4Ownership.FailoverPicksTheNextOwner | internal/app/tcproute_model.go:587-611 | The route picked for failover is exactly the one that passes the check afterwards, while the old owner is deleting and once it is gone. |
| Backends.NormalizeBackendDetails | internal/app/network_load_balancer_retry.go:79-87 | The loop lists the merged map, in any order. |
| Backends.EndpointBackendsForRoute | internal/app/tcproute_model.go:381-400 | The nested loop lists the merged map of all references' endpoints. |
| Backends.KeyIsInjective | internal/app/tcproute_model.go:540-542 | Keys tell addresses apart, also addresses with colons. |
| Backends.MergedEntries | internal/app/tcproute_model.go:527-538 | What the merged map holds under a key, from the entries of that key. |
| Backends.NormalizationConserves | internal/app/tcproute_model.go:527-538 | Addresses become unique and stay complete; weight is conserved in total and per address; an address drains exactly when all its entries do. |
| Backends.NormalizationIsIdempotent | internal/app/network_load_balancer_retry.go:79-87 | Normalizing again changes nothing. |
| Backends.SumsIgnoreOrder | internal/app/tcproute_model.go:527-538 | Addresses, weights and draining do not depend on the input order. |
| Backends.OrderIndependence | internal/app/tcproute_model.go:527-538 | The whole result is independent of the order if and only if entries of one address agree on the other fields. |
| BackendSync.UpdateBackend | internal/app/network_load_balancer_retry.go:212-246 | Updating, with its fallback to creating: the backend ends as wanted, no other changes, and addresses are kept. |
| BackendSync.CreateOrUpdateBackends | internal/app/network_load_balancer_retry.go:111-140 | The first loop: how every desired backend ends; it deletes nothing. |
| BackendSync.DeleteBackends | internal/app/network_load_balancer_retry.go:142-154 | The second loop: names of the snapshot that are not desired are gone, nothing else changes. |
| BackendSync.SyncResult | internal/app/network_load_balancer_retry.go:89-155 | Both loops together reach the desired backends if and only if the snapshot was fresh enough. |
| BackendSync.SyncBackends | internal/app/network_load_balancer_retry.go:89-155 | From any snapshot and with any failures: kept backends are in every state and no delete precedes a create or update; without failures it succeeds if and only if nothing collides; from a current snapshot it converges. |
| BackendSync.NamesStayAddresses | internal/app/network_load_balancer_retry.go:89-155 | Whatever a run does, backends named by their address stay so. |
| BackendSync.StrangerSurvives | internal/app/network_load_balancer_retry.go:104-154 | A backend under a name that is nobody's address survives every run, as its deletion finds nothing, and keeps the run from converging. |
| BackendSync.NamesDecide | internal/app/network_load_balancer_retry.go:104-154 | When backends not named by their address have such names, an up-to-date list makes a run succeed and converge if and only if every backend is named by its address. |
| BackendSync.UpdateBackendSet | internal/app/network_load_balancer_retry.go:38-77 | The same for the whole update, with normalization and the busy and error cases. |
| NameLists.EncodingIsUnique | internal/app/l4route_annotations.go:38-45 | Equal sets of names give equal annotation texts. |
| NameLists.NamesSurvive | internal/app/network_load_balancer_gateway_model.go:440-449 | Reading an annotation gives back exactly the names that were written. |
| NameLists.AnnotatedAreClean | internal/app/network_load_balancer_gateway_model.go:440-449 | Names read from any annotation text can be written again. |
| NameLists.JoinedAnnotationNames | internal/app/l4route_annotations.go:38-45 | The loop and sort encode the set. |
| NameLists.AnnotatedResourceNames | internal/app/network_load_balancer_gateway_model.go:440-449 | The loop computes `AnnotatedNames`. |
| NlbGateway.BackendSetNameInjective | internal/app/network_load_balancer_gateway_model.go:72-74 | Listener names without underscores have different backend sets. |
| NlbGateway.ReconcileListener | internal/app/network_load_balancer_gateway_model.go:501-592 | From any earlier reading: the backend set is there before the listener uses it, unless it was read and is gone; on success the listener is as wanted, unless the one read has changed; with every call applied, the exact result. |
| NlbGateway.ReconcileIsExact | internal/app/network_load_balancer_gateway_model.go:501-592 | With every call applied, reconciling a listener from an earlier reading keeps all backend sets in place if and only if its set, when read, is still there or the listener was read too. |
| NlbGateway.RemoveMissingListeners | internal/app/network_load_balancer_gateway_model.go:627-657 | Exactly the removable current listeners are gone, and nothing else. |
| NlbGateway.RemoveMissingBackendSets | internal/app/network_load_balancer_gateway_model.go:659-741 | Exactly the removable current sets are gone; no listener loses its set when none uses one that is to go. |
| NlbGateway.StaleSetsAreUnused | internal/app/network_load_balancer_gateway_model.go:771-799 | Once recorded listeners that went missing are gone, no remaining listener uses a recorded set that is to go. |
| NlbGateway.UnseenLeftoverBreaks | internal/app/network_load_balancer_gateway_model.go:771-799 | A recorded leftover listener that was not read, but whose set was, loses its set. |
| NlbGateway.ProgramGateway | internal/app/network_load_balancer_gateway_model.go:743-800 | From any earlier reading that is recent enough, every listener's backend set exists in every state on the way; on success all TCP and UDP listeners are programmed, if those read are unchanged, and recorded leftovers that were read are gone; others' listeners stay in any case. |
| NlbGateway.SetProgrammed | internal/app/network_load_balancer_gateway_model.go:858-914 | The two annotations record the names of one listener list. |
| NlbGateway.DeprovisionGateway | internal/app/network_load_balancer_gateway_model.go:333-412 | Own listeners go before own sets, so integrity holds throughout when what was read is recent enough; others' listeners stay in any case; a load balancer that is gone is left at that. |
| NlbGateway.OthersLeaveItRecent | internal/app/network_load_balancer_gateway_model.go:743-800 | What other Gateways or routes change between the reading and the run leaves the reading recent enough. |
| NlbGateway.Reconcile | internal/app/network_load_balancer_gateway_model.go:333-412 | One reconciliation, from its reading through what others change meanwhile to the annotations it writes: integrity in every state, others' listeners as they were. |
| NlbGateway.Lifetime | internal/app/network_load_balancer_gateway_model.go:743-914 | Referential integrity in every state of any number of runs, each of which may stop after any call and may rest on a reading from before others changed their part; each run leaves the listeners of others as it found them. |
| CaBundles.AddCompartment | internal/app/backend_tls_policy_model.go:892-926 | Whatever text the annotation holds, afterwards it lists what it listed and the compartment. |
| CaBundles.EnsurePolicyFinalizerAndCompartment | internal/app/backend_tls_policy_model.go:873-890 | On success the policy has the finalizer and lists the compartment; no bundle changed. |
| CaBundles.EnsureBundle | internal/app/backend_tls_policy_model.go:572-743 | Finding, refreshing, creating or adopting a bundle keeps the write-ahead invariant in every state; on success it is the policy's bundle of that name, and current unless it came from the cache. |
| CaBundles.ResolveAcceptedPolicy | internal/app/backend_tls_policy_model.go:334-429 | The policy is written before bundles are made; the invariant holds in every state. |
| CaBundles.FirstPage | internal/app/backend_tls_policy_model.go:1168-1180 | What one list call shows: exactly the matching bundles before which fewer than a page of others match, and no more than a page. |
| CaBundles.DeleteOwnedBundles | internal/app/backend_tls_policy_model.go:1168-1207 | On success exactly the live owned bundles on the page of the compartment are dead; only lifecycle states change. |
| CaBundles.CleanupDeletingPolicy | internal/app/backend_tls_policy_model.go:1084-1113 | A cleanup that drops the finalizer leaves exactly the live owned bundles that are not on the page of a searched compartment; each bundle it loses was live, covered and behind a page; with every call applied, the exact result. |
| CaBundles.CleanupIsExact | internal/app/backend_tls_policy_model.go:1084-1207 | After a cleanup that drops the finalizer, no live owned bundle remains anywhere if and only if each was on the page read for its compartment. |
| CaBundles.CleanupLosesNothing | internal/app/backend_tls_policy_model.go:1084-1207 | If the bundles of each listed compartment fit on one page, a cleanup loses none, and none remains. |
| CaBundles.CleanupLeavesBundleBehind | internal/app/backend_tls_policy_model.go:1168-1207 | For every page size, a state whose cleanup succeeds, drops the finalizer and leaves a live owned bundle. |
| CaBundles.History | internal/app/backend_tls_policy_model.go:334-1207 | Over any sequence of resolves and cleanups that may stop after any call: every live owned bundle that no cleanup lost is covered by the finalizer and the annotation in every state; all are, in every state, if and only if none is lost, and none is while compartments fit on a page. |

## Left out

- Deletion of policies during listener removal and of orphaned policies (internal/app/oci_load_balancer_model.go:1497-1528, 1616-1661): it takes no policy lock and is not part of the sequential theorem.
- Route ownership for several parents at once, a changed load balancer, or annotation entries without a listener name: the code does not keep the property there.
- Deprovisioning of a route's backend sets, and the backend-set part of a run: only the rules of a run are modelled.
- Hostnames with quotes: the code does not check for them, and the meaning of conditions is stated for hostnames without quotes.
- Conflict detection between layer-7 routes (internal/app/httproute_model.go:328-347): it is fed candidates it skips, so it never fires; the hostname functions it uses are modelled.
- Reference resolution, `ReferenceGrant`, namespace selectors, and which listeners a parent reference selects: a test passed to the layer-4 model.
- The programming steps of layer-4 failover (internal/app/tcproute_model.go:1127-1166) and the clearing of a backend set by name: only which route takes over is modelled.
- Status conditions, messages, finalizers other than the CA-bundle one, requeue timing, work-request polling, logging, dependency injection.
- Names built by `ConstructOCIResourceName`, CRC32 and SHA-256: not part of this model; rule names of different routes are taken to be distinct, and listener names of one Gateway to be told apart by their backend sets.
- Compartment identifiers hold no commas or blanks.
- CA certificate parsing and TLS options; the time-based expiry of the CA-bundle cache is an input.
- A CA-bundle cache entry may return a bundle that was refreshed with other certificates since; only ownership, compartment and name are claimed for cached results.
- Overflow of backend weights: weights are unbounded integers.
- In-place sorting of the argument slice by the ListenerSet and rule sorts: the sorted list is a value.
- Changes that others make to a Network Load Balancer while a run holds its lock: the runs of this controller exclude each other there, and others' changes are taken to come before the run.
- CertificateLocks.OneCertificatePerLock: does not model the per-reconcile certificate map consulted before the lock; its second lookup under the lock cannot find anything the first did not.
- RouteProgram.ProgramL7RoutePolicy: does not model the run's validation and its reconciling of backend sets, which come before the commits, nor the removal of stale backend sets, which comes after them; each of them can only stop the run.
- NlbGateway.Lifetime: takes the runs of one Gateway one after the other, and the annotations as they were written last.
