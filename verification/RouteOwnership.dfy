/** A route's rules over its runs. A run groups the rules named in the route's annotation by listener, commits the
    new rules to every matched listener and an empty list to every other listener it had rules on, and then
    rewrites the annotation. It may also stop before that. Commits and repairs of others happen in between. */
module RouteOwnership {
  import opened Text
  import opened RoutingRules
  import opened PolicyCommit
  import opened RouteAnnotation
  import opened RoutePlan
  import CommitProtocol

  /** `wanted` is the run in progress or, when there is none, the last one; `pending` are the commits the run in
      progress still has to make. `completed`: the last run was not stopped; `stopped`: some run was. `strays` are
      the rules there when the last run began that it neither wanted nor knew of from the annotation. */
  datatype State = State(
    store: map<string, seq<Rule>>, annotation: string, running: bool, wanted: seq<Target>, pending: seq<CommitCall>,
    completed: bool, stopped: bool, strays: set<Programmed>)

  datatype Event =
    | Begin(targets: seq<Target>, staleOrder: seq<string>)
    | CommitNext
    | Finish
    | Stop
    | Other(listener: string, op: CommitProtocol.Op)

  /** A route without annotation, on policies left by earlier runs of the controller. */
  function Initial(store: map<string, seq<Rule>>): State {
    State(store, "", false, [], [], true, false, {})
  }

  /** `own` are the rule names only this route uses. */
  ghost predicate Enabled(s: State, event: Event, own: set<string>) {
    match event
    case Begin(targets, staleOrder) =>
      && !s.running && ValidTargets(targets, own)
      && StringSet(staleOrder) ==
         Touched(Parse(s.annotation), StringSet(TargetListeners(targets))) - StringSet(TargetListeners(targets))
    case CommitNext => s.running && s.pending != []
    case Finish => s.running && s.pending == []
    case Stop => s.running
    case Other(_, op) => CommitProtocol.OpFootprint(op) !! own && (op.Commit? ==> UniqueNames(op.newRules))
  }

  function NewAnnotation(s: State): string {
    Join(MergeProgrammed(s.annotation,
                         RenderAll(Grid(TargetListeners(s.wanted), AllRuleNames(s.wanted, [])))), ",")
  }

  ghost function Strays(store: map<string, seq<Rule>>, annotation: string, targets: seq<Target>): set<Programmed> {
    set l, r | l in store && r in store[l] && Programmed(l, r.name) !in Parse(annotation) &&
               !Wanted(targets, l, r.name) :: Programmed(l, r.name)
  }

  function CallOp(call: CommitCall): CommitProtocol.Op {
    CommitProtocol.Commit(call.newRules, call.prevNames)
  }

  ghost function AfterOp(s: State, listener: string, op: CommitProtocol.Op): State {
    s.(store := With(s.store, listener, CommitProtocol.Outcome(op, At(s.store, listener))))
  }

  ghost function Apply(s: State, event: Event): State {
    match event
    case Begin(targets, staleOrder) =>
      s.(running := true, completed := false, wanted := targets, pending := Plan(targets, staleOrder, s.annotation),
         strays := Strays(s.store, s.annotation, targets))
    case CommitNext =>
      if s.pending == [] then s
      else AfterOp(s, s.pending[0].listener, CallOp(s.pending[0])).(pending := s.pending[1..])
    case Finish => s.(running := false, completed := true, annotation := NewAnnotation(s))
    case Stop => s.(running := false, stopped := true)
    case Other(listener, op) => AfterOp(s, listener, op)
  }

  // ----- what the route owns

  predicate Owns(s: State, listener: string, name: string) {
    Lookup(At(s.store, listener), name).Some?
  }

  predicate Stray(s: State, listener: string, name: string) {
    Programmed(listener, name) in s.strays
  }

  /** The listener holds what is wanted and what was a stray. */
  ghost predicate Settled(s: State, listener: string, own: set<string>) {
    forall name :: name in own ==>
      (Owns(s, listener, name) <==> Wanted(s.wanted, listener, name) || Stray(s, listener, name))
  }

  /** Listeners still to be committed may hold annotated or wanted rules, and their commit withdraws exactly
      the annotated ones that are not wanted. */
  ghost predicate CallFits(s: State, call: CommitCall) {
    && UniqueNames(call.newRules)
    && (forall name :: name in NameSet(call.newRules) <==> Wanted(s.wanted, call.listener, name))
    && (forall name :: name in call.prevNames <==> Programmed(call.listener, name) in Parse(s.annotation))
  }

  ghost predicate Covered(s: State, listener: string, own: set<string>) {
    forall name :: name in own ==>
      && (Owns(s, listener, name) ==>
            || Programmed(listener, name) in Parse(s.annotation)
            || Wanted(s.wanted, listener, name)
            || Stray(s, listener, name))
      && (Stray(s, listener, name) ==> Owns(s, listener, name))
  }

  /** While a run is on, strays are neither annotated nor wanted. */
  ghost predicate StraysUnknown(s: State) {
    forall p :: p in s.strays ==>
      !Wanted(s.wanted, p.listenerName, p.ruleName) && (s.running ==> p !in Parse(s.annotation))
  }

  ghost predicate NoStrays(s: State, own: set<string>) {
    forall p :: p in s.strays ==> p.ruleName !in own
  }

  ghost predicate RunningInv(s: State, own: set<string>) {
    && (forall i :: 0 <= i < |s.pending| ==> CallFits(s, s.pending[i]))
    && (forall l :: if HasCall(s.pending, l) then Covered(s, l, own) else Settled(s, l, own))
  }

  ghost predicate CompletedInv(s: State, own: set<string>) {
    && (forall l :: Settled(s, l, own))
    && (forall l, name :: Wanted(s.wanted, l, name) ==> Programmed(l, name) in Parse(s.annotation))
  }

  ghost predicate Inv(s: State, own: set<string>) {
    && GoodAnnotation(s.annotation, own)
    && ValidTargets(s.wanted, own)
    && (forall l :: WellKept(At(s.store, l)))
    && StraysUnknown(s)
    && (s.running ==> RunningInv(s, own) && !s.completed)
    && (!s.running && s.completed ==> CompletedInv(s, own))
    && (!s.stopped ==> NoStrays(s, own) && (s.running || s.completed))
  }

  // ----- every event keeps it

  lemma {:induction false} MatchedCallFits(s: State, targets: seq<Target>, own: set<string>, i: nat)
    requires GoodAnnotation(s.annotation, own) && ValidTargets(targets, own) && i < |targets| && s.wanted == targets
    ensures var names := NamesAt(Parse(s.annotation), targets[i].listener, StringSet(TargetListeners(targets)));
            CallFits(s, CommitCall(targets[i].listener, targets[i].rules, names))
  {
    var l := targets[i].listener;
    forall name ensures name in NameSet(targets[i].rules) <==> Wanted(targets, l, name) {
    }
    forall name ensures name in NamesAt(Parse(s.annotation), l, StringSet(TargetListeners(targets))) <==>
                        Programmed(l, name) in Parse(s.annotation) {
      NamesAtMembers(Parse(s.annotation), l, StringSet(TargetListeners(targets)), name);
    }
  }

  lemma {:induction false} StaleCallFits(s: State, targets: seq<Target>, own: set<string>, l: string)
    requires GoodAnnotation(s.annotation, own) && s.wanted == targets && l !in TargetListeners(targets)
    ensures CallFits(s, CommitCall(l, [], NamesAt(Parse(s.annotation), l, StringSet(TargetListeners(targets)))))
  {
    TargetListenersMembers(targets, l);
    forall name ensures name in NamesAt(Parse(s.annotation), l, StringSet(TargetListeners(targets))) <==>
                        Programmed(l, name) in Parse(s.annotation) {
      NamesAtMembers(Parse(s.annotation), l, StringSet(TargetListeners(targets)), name);
    }
  }

  lemma {:induction false} PlanFits(s: State, targets: seq<Target>, staleOrder: seq<string>, own: set<string>, i: nat)
    requires GoodAnnotation(s.annotation, own) && ValidTargets(targets, own) && s.wanted == targets
    requires forall l :: l in staleOrder ==> l !in TargetListeners(targets)
    requires i < |Plan(targets, staleOrder, s.annotation)|
    ensures CallFits(s, Plan(targets, staleOrder, s.annotation)[i])
  {
    if i < |targets| {
      MatchedCallFits(s, targets, own, i);
    } else {
      StaleCallFits(s, targets, own, staleOrder[i - |targets|]);
    }
  }

  lemma {:induction false} StraysOwn(s: State, targets: seq<Target>, l: string, name: string)
    requires WellKept(At(s.store, l))
    ensures Programmed(l, name) in Strays(s.store, s.annotation, targets) <==>
            && Owns(s, l, name) && Programmed(l, name) !in Parse(s.annotation) && !Wanted(targets, l, name)
  {
    if l in s.store {
      var rules := s.store[l];
      if Owns(s, l, name) { RuleMapHolds(rules, name); }
      if r :| r in rules && r.name == name {
        var k :| 0 <= k < |rules| && rules[k] == r;
        RuleMapCovers(rules, k);
      }
    }
  }

  lemma {:induction false} BeginCovers(
      s: State, targets: seq<Target>, staleOrder: seq<string>, own: set<string>, l: string)
    requires Inv(s, own) && Enabled(s, Begin(targets, staleOrder), own)
    ensures var s' := Apply(s, Begin(targets, staleOrder));
            if HasCall(s'.pending, l) then Covered(s', l, own) else Settled(s', l, own)
  {
    var s' := Apply(s, Begin(targets, staleOrder));
    assert WellKept(At(s.store, l));
    forall name ensures Stray(s', l, name) <==>
                        Owns(s, l, name) && Programmed(l, name) !in Parse(s.annotation) && !Wanted(targets, l, name) {
      StraysOwn(s, targets, l, name);
    }
    if !HasCall(s'.pending, l) {
      forall name | name in own ensures Owns(s', l, name) <==> Wanted(s'.wanted, l, name) || Stray(s', l, name) {
        if Wanted(targets, l, name) { WantedHasCall(targets, staleOrder, s.annotation, l, name); }
        if Programmed(l, name) in Parse(s.annotation) {
          AnnotatedHasCall(targets, staleOrder, s.annotation, Programmed(l, name));
        }
      }
    }
  }

  lemma {:induction false} BeginCalls(s: State, targets: seq<Target>, staleOrder: seq<string>, own: set<string>, i: nat)
    requires Inv(s, own) && Enabled(s, Begin(targets, staleOrder), own)
    requires i < |Apply(s, Begin(targets, staleOrder)).pending|
    ensures var s' := Apply(s, Begin(targets, staleOrder)); CallFits(s', s'.pending[i])
  {
    forall l | l in staleOrder ensures l !in TargetListeners(targets) { assert l in StringSet(staleOrder); }
    PlanFits(Apply(s, Begin(targets, staleOrder)), targets, staleOrder, own, i);
  }

  /** A route none of whose runs was stopped knows all its rules from the annotation. */
  lemma {:induction false} UnstoppedHasNoStrays(s: State, targets: seq<Target>, own: set<string>)
    requires Inv(s, own) && !s.running && !s.stopped
    ensures forall p :: p in Strays(s.store, s.annotation, targets) ==> p.ruleName !in own
  {
    forall p | p in Strays(s.store, s.annotation, targets) ensures p.ruleName !in own {
      var l, name := p.listenerName, p.ruleName;
      assert WellKept(At(s.store, l)) && Settled(s, l, own);
      StraysOwn(s, targets, l, name);
      assert p == Programmed(l, name);
    }
  }

  lemma {:induction false} BeginStrays(s: State, targets: seq<Target>, staleOrder: seq<string>, own: set<string>)
    requires Inv(s, own) && Enabled(s, Begin(targets, staleOrder), own)
    ensures StraysUnknown(Apply(s, Begin(targets, staleOrder)))
  {
  }

  lemma {:induction false} BeginKeepsInv(s: State, targets: seq<Target>, staleOrder: seq<string>, own: set<string>)
    requires Inv(s, own) && Enabled(s, Begin(targets, staleOrder), own)
    ensures Inv(Apply(s, Begin(targets, staleOrder)), own)
  {
    var s' := Apply(s, Begin(targets, staleOrder));
    BeginStrays(s, targets, staleOrder, own);
    if !s.stopped { UnstoppedHasNoStrays(s, targets, own); }
    assert RunningInv(s', own) by {
      forall i | 0 <= i < |s'.pending| ensures CallFits(s', s'.pending[i]) {
        BeginCalls(s, targets, staleOrder, own, i);
      }
      forall l ensures if HasCall(s'.pending, l) then Covered(s', l, own) else Settled(s', l, own) {
        BeginCovers(s, targets, staleOrder, own, l);
      }
    }
  }

  /** After its commit a listener holds exactly the wanted rules of this route, and its strays. */
  lemma {:induction false} CommitSettles(s: State, own: set<string>)
    requires s.running && s.pending != [] && CallFits(s, s.pending[0]) && StraysUnknown(s)
    requires Covered(s, s.pending[0].listener, own) && WellKept(At(s.store, s.pending[0].listener))
    ensures Settled(Apply(s, CommitNext), s.pending[0].listener, own)
    ensures WellKept(At(Apply(s, CommitNext).store, s.pending[0].listener))
  {
    var call, s' := s.pending[0], Apply(s, CommitNext);
    CommitKeepsOrder(At(s.store, call.listener), call.newRules, call.prevNames);
    forall name | name in own
      ensures Owns(s', call.listener, name) <==>
                Wanted(s'.wanted, call.listener, name) || Stray(s', call.listener, name)
    {
      CommitLookup(At(s.store, call.listener), call.newRules, call.prevNames, name);
      assert name in NameSet(call.newRules) <==> Wanted(s.wanted, call.listener, name);
      assert name in call.prevNames <==> Programmed(call.listener, name) in Parse(s.annotation);
    }
  }

  lemma {:induction false} SettledIsCovered(s: State, l: string, own: set<string>)
    requires Settled(s, l, own)
    ensures Covered(s, l, own)
  {
  }

  lemma {:induction false} CommitKeepsListener(s: State, own: set<string>, l: string)
    requires Inv(s, own) && Enabled(s, CommitNext, own)
    ensures var s' := Apply(s, CommitNext);
            if HasCall(s'.pending, l) then Covered(s', l, own) else Settled(s', l, own)
  {
    var call, s' := s.pending[0], Apply(s, CommitNext);
    assert HasCall(s.pending, call.listener);
    assert Covered(s, call.listener, own) && WellKept(At(s.store, call.listener));
    if l == call.listener {
      CommitSettles(s, own);
      SettledIsCovered(s', l, own);
    } else {
      RestHasCall(s.pending, l);
      assert At(s'.store, l) == At(s.store, l);
      assert if HasCall(s.pending, l) then Covered(s, l, own) else Settled(s, l, own);
    }
  }

  lemma {:induction false} CommitNextKeepsInv(s: State, own: set<string>)
    requires Inv(s, own) && Enabled(s, CommitNext, own)
    ensures Inv(Apply(s, CommitNext), own)
  {
    CommitNextKeepsStore(s, own);
    CommitNextKeepsRunning(s, own);
  }

  lemma {:induction false} CommitNextKeepsStore(s: State, own: set<string>)
    requires Inv(s, own) && Enabled(s, CommitNext, own)
    ensures forall l :: WellKept(At(Apply(s, CommitNext).store, l))
  {
    var call, s' := s.pending[0], Apply(s, CommitNext);
    assert HasCall(s.pending, call.listener);
    assert Covered(s, call.listener, own) && CallFits(s, call) && WellKept(At(s.store, call.listener));
    CommitSettles(s, own);
    forall l ensures WellKept(At(s'.store, l)) { assert WellKept(At(s.store, l)); }
  }

  lemma {:induction false} CommitNextKeepsRunning(s: State, own: set<string>)
    requires Inv(s, own) && Enabled(s, CommitNext, own)
    ensures RunningInv(Apply(s, CommitNext), own)
  {
    var s' := Apply(s, CommitNext);
    forall l ensures if HasCall(s'.pending, l) then Covered(s', l, own) else Settled(s', l, own) {
      CommitKeepsListener(s, own, l);
    }
    forall i | 0 <= i < |s'.pending| ensures CallFits(s', s'.pending[i]) {
      assert CallFits(s, s.pending[i + 1]);
    }
  }

  lemma {:induction false} OtherKeepsOwn(s: State, listener: string, op: CommitProtocol.Op, own: set<string>)
    requires Inv(s, own) && Enabled(s, Other(listener, op), own)
    ensures forall l, name :: name in own ==> Owns(AfterOp(s, listener, op), l, name) == Owns(s, l, name)
    ensures forall l :: WellKept(At(AfterOp(s, listener, op).store, l))
  {
    var s' := AfterOp(s, listener, op);
    assert WellKept(At(s.store, listener));
    CommitProtocol.OutcomeKeepsOrder(op, At(s.store, listener));
    forall l ensures WellKept(At(s'.store, l)) { assert WellKept(At(s.store, l)); }
    forall l, name | name in own ensures Owns(s', l, name) == Owns(s, l, name) {
      if l == listener { CommitProtocol.OutcomeLookup(op, At(s.store, listener), name); }
    }
  }

  lemma {:induction false} SameOwnership(s: State, s': State, own: set<string>)
    requires forall l, name :: name in own ==> Owns(s', l, name) == Owns(s, l, name)
    requires s' == s.(store := s'.store)
    ensures RunningInv(s, own) ==> RunningInv(s', own)
    ensures CompletedInv(s, own) ==> CompletedInv(s', own)
  {
    forall l ensures Settled(s, l, own) ==> Settled(s', l, own)
             ensures Covered(s, l, own) ==> Covered(s', l, own) {
    }
    if RunningInv(s, own) {
      forall i | 0 <= i < |s'.pending| ensures CallFits(s', s'.pending[i]) { assert CallFits(s, s.pending[i]); }
      forall l ensures if HasCall(s'.pending, l) then Covered(s', l, own) else Settled(s', l, own) {
        assert if HasCall(s.pending, l) then Covered(s, l, own) else Settled(s, l, own);
      }
    }
  }

  lemma {:induction false} OtherKeepsInv(s: State, listener: string, op: CommitProtocol.Op, own: set<string>)
    requires Inv(s, own) && Enabled(s, Other(listener, op), own)
    ensures Inv(Apply(s, Other(listener, op)), own)
  {
    OtherKeepsOwn(s, listener, op, own);
    SameOwnership(s, AfterOp(s, listener, op), own);
  }

  lemma {:induction false} FinishKeepsAnnotation(s: State, own: set<string>)
    requires GoodAnnotation(s.annotation, own) && ValidTargets(s.wanted, own)
    ensures GoodAnnotation(NewAnnotation(s), own)
    ensures forall l, name :: Wanted(s.wanted, l, name) ==> Programmed(l, name) in Parse(NewAnnotation(s))
  {
    var grid := Grid(TargetListeners(s.wanted), AllRuleNames(s.wanted, []));
    var existing := Parse(s.annotation);
    GridIsGood(s.wanted, own);
    MergedEntries(existing, grid);
    forall p | p in Parse(NewAnnotation(s)) ensures Clean(p) && p.ruleName in own {
      KeptMembers(existing, NamedListeners(grid), p);
    }
  }

  lemma {:induction false} FinishKeepsInv(s: State, own: set<string>)
    requires Inv(s, own) && Enabled(s, Finish, own)
    ensures Inv(Apply(s, Finish), own)
  {
    var s' := Apply(s, Finish);
    FinishKeepsAnnotation(s, own);
    forall l ensures Settled(s', l, own) {
      assert !HasCall(s.pending, l);
      assert Settled(s, l, own);
    }
    forall l ensures WellKept(At(s'.store, l)) { assert WellKept(At(s.store, l)); }
  }

  lemma {:induction false} StopKeepsInv(s: State, own: set<string>)
    requires Inv(s, own) && Enabled(s, Stop, own)
    ensures Inv(Apply(s, Stop), own)
  {
    var s' := Apply(s, Stop);
    forall l ensures WellKept(At(s'.store, l)) { assert WellKept(At(s.store, l)); }
  }

  lemma {:induction false} EventKeepsInv(s: State, event: Event, own: set<string>)
    requires Inv(s, own) && Enabled(s, event, own)
    ensures Inv(Apply(s, event), own)
  {
    match event
    case Begin(targets, staleOrder) => BeginKeepsInv(s, targets, staleOrder, own);
    case CommitNext => CommitNextKeepsInv(s, own);
    case Finish => FinishKeepsInv(s, own);
    case Stop => StopKeepsInv(s, own);
    case Other(listener, op) => OtherKeepsInv(s, listener, op, own);
  }

  // ----- what commits leave to others

  lemma {:induction false} CommitSparesOthers(s: State, own: set<string>, listener: string, name: string)
    requires Inv(s, own) && Enabled(s, CommitNext, own) && name !in own
    ensures Lookup(At(Apply(s, CommitNext).store, listener), name) == Lookup(At(s.store, listener), name)
  {
    var call := s.pending[0];
    assert CallFits(s, call);
    CallNamesAreOwn(s, call, own);
    assert WellKept(At(s.store, call.listener));
    CommitSpares(s.store, call, listener, name);
  }

  lemma {:induction false} CommitSpares(store: map<string, seq<Rule>>, call: CommitCall, listener: string, name: string)
    requires UniqueNames(call.newRules) && name !in Footprint(call.newRules, call.prevNames)
    requires WellKept(At(store, call.listener))
    ensures var outcome := CommitOutcome(At(store, call.listener), call.newRules, call.prevNames);
            Lookup(At(With(store, call.listener, outcome), listener), name) == Lookup(At(store, listener), name)
  {
    CommitLookup(At(store, call.listener), call.newRules, call.prevNames, name);
  }

  lemma {:induction false} CallNamesAreOwn(s: State, call: CommitCall, own: set<string>)
    requires CallFits(s, call) && GoodAnnotation(s.annotation, own) && ValidTargets(s.wanted, own)
    ensures Footprint(call.newRules, call.prevNames) <= own
  {
    forall name | name in Footprint(call.newRules, call.prevNames) ensures name in own {
      if name in call.prevNames {
        assert Programmed(call.listener, name).ruleName in own;
      } else {
        assert Wanted(s.wanted, call.listener, name);
        WantedIsOwn(s.wanted, own, call.listener, name);
      }
    }
  }
}
