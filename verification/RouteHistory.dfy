/** Whole histories of a route: any number of its runs, completed or stopped, with operations of others in
    between; and the concurrent protocol as such a history. */
module RouteHistory {
  import opened Text
  import opened RoutingRules
  import opened PolicyCommit
  import opened RouteAnnotation
  import opened RoutePlan
  import opened RouteOwnership
  import CommitProtocol

  /** The policies a route meets first: well kept, and without rules of its own. */
  ghost predicate Fresh(start: map<string, seq<Rule>>, own: set<string>) {
    && CommitProtocol.KeptStore(start)
    && forall l, name :: name in own ==> Lookup(At(start, l), name).None?
  }

  lemma {:induction false} InitialInv(start: map<string, seq<Rule>>, own: set<string>)
    requires Fresh(start, own)
    ensures Inv(Initial(start), own)
  {
    var s := Initial(start);
    forall l ensures Settled(s, l, own) {
      forall name | name in own ensures !Owns(s, l, name) { assert Lookup(At(start, l), name).None?; }
    }
    forall l ensures WellKept(At(s.store, l)) { assert WellKept(At(start, l)); }
  }

  /** The state after the events, or None when one of them was not possible. */
  ghost function Run(start: map<string, seq<Rule>>, events: seq<Event>, own: set<string>): (s: Option<State>)
    requires Fresh(start, own)
    ensures s.Some? ==> Inv(s.value, own)
    decreases |events|
  {
    if events == [] then
      InitialInv(start, own);
      Some(Initial(start))
    else
      var before := Run(start, events[..|events| - 1], own);
      var event := events[|events| - 1];
      if before.Some? && Enabled(before.value, event, own) then
        EventKeepsInv(before.value, event, own);
        Some(Apply(before.value, event))
      else
        None
  }

  lemma {:induction false} ApplyStops(s: State, event: Event)
    ensures Apply(s, event).stopped <==> s.stopped || event == Stop
  {
  }

  lemma {:induction false} StoppedByStop(start: map<string, seq<Rule>>, events: seq<Event>, own: set<string>)
    requires Fresh(start, own)
    ensures Run(start, events, own).Some? ==> (Run(start, events, own).value.stopped <==> Stop in events)
    decreases |events|
  {
    if events != [] {
      var n := |events| - 1;
      StoppedByStop(start, events[..n], own);
      assert events == events[..n] + [events[n]];
      if Run(start, events, own).Some? { ApplyStops(Run(start, events[..n], own).value, events[n]); }
    }
  }

  /** After a completed run, whatever runs were stopped before and whatever others did meanwhile: the route has on
      each listener exactly the rules that run wanted there, and the strays it met; and its annotation, read back,
      names all it wanted. */
  lemma {:induction false} CompletedRunOwns(
      start: map<string, seq<Rule>>, events: seq<Event>, own: set<string>, listener: string, name: string)
    requires Fresh(start, own)
    ensures var run := Run(start, events, own);
            run.Some? && !run.value.running && run.value.completed && name in own ==>
              && (Owns(run.value, listener, name) <==>
                    Wanted(run.value.wanted, listener, name) || Stray(run.value, listener, name))
              && (Wanted(run.value.wanted, listener, name) ==>
                    Programmed(listener, name) in Parse(run.value.annotation))
  {
    var run := Run(start, events, own);
    if run.Some? && !run.value.running && run.value.completed {
      assert Settled(run.value, listener, own);
    }
  }

  /** Between runs none of which was stopped: exactly what the last run wanted, all of it in the annotation. */
  lemma {:induction false} RouteOwnsWhatItWanted(
      start: map<string, seq<Rule>>, events: seq<Event>, own: set<string>, listener: string, name: string)
    requires Fresh(start, own)
    ensures var run := Run(start, events, own);
            run.Some? && Stop !in events && !run.value.running && name in own ==>
              && (Owns(run.value, listener, name) <==> Wanted(run.value.wanted, listener, name))
              && (Owns(run.value, listener, name) ==> Programmed(listener, name) in Parse(run.value.annotation))
  {
    StoppedByStop(start, events, own);
    CompletedRunOwns(start, events, own, listener, name);
    if Run(start, events, own).Some? && Stop !in events {
      NoStrayAt(Run(start, events, own).value, own, listener, name);
    }
  }

  lemma {:induction false} NoStrayAt(s: State, own: set<string>, listener: string, name: string)
    requires Inv(s, own) && !s.stopped
    ensures name in own ==> !Stray(s, listener, name)
  {
    if Stray(s, listener, name) { assert Programmed(listener, name).ruleName !in own; }
  }

  /** Stopped runs heal exactly when the next completed run met no strays: then, and only then, the route has
      what it wants and nothing else. */
  lemma {:induction false} OwnershipIsExact(start: map<string, seq<Rule>>, events: seq<Event>, own: set<string>)
    requires Fresh(start, own)
    ensures var run := Run(start, events, own);
            run.Some? && !run.value.running && run.value.completed ==>
              (NoStrays(run.value, own) <==>
               forall l, name :: name in own ==> (Owns(run.value, l, name) <==> Wanted(run.value.wanted, l, name)))
  {
    var run := Run(start, events, own);
    if run.Some? && !run.value.running && run.value.completed {
      forall l, name | name in own
        ensures (Owns(run.value, l, name) <==> Wanted(run.value.wanted, l, name)) <==> !Stray(run.value, l, name)
      {
        StrayAt(run.value, own, l, name);
      }
      ExactByStrays(run.value, own);
    }
  }

  lemma {:induction false} StrayAt(s: State, own: set<string>, l: string, name: string)
    requires Inv(s, own) && !s.running && s.completed && name in own
    ensures (Owns(s, l, name) <==> Wanted(s.wanted, l, name)) <==> !Stray(s, l, name)
  {
    assert Settled(s, l, own);
    if Stray(s, l, name) { assert !Wanted(s.wanted, Programmed(l, name).listenerName, Programmed(l, name).ruleName); }
  }

  lemma {:induction false} ExactByStrays(s: State, own: set<string>)
    requires forall l, name :: name in own ==>
               ((Owns(s, l, name) <==> Wanted(s.wanted, l, name)) <==> !Stray(s, l, name))
    ensures (forall l, name :: name in own ==> (Owns(s, l, name) <==> Wanted(s.wanted, l, name))) <==> NoStrays(s, own)
  {
    if NoStrays(s, own) {
      forall l, name | name in own ensures !Stray(s, l, name) {
        assert Programmed(l, name) in s.strays ==> Programmed(l, name).ruleName !in own;
      }
    } else {
      var p :| p in s.strays && p.ruleName in own;
      assert p == Programmed(p.listenerName, p.ruleName);
      assert Stray(s, p.listenerName, p.ruleName);
    }
  }

  /** With the same rule names on every matched listener, the route's rules are matched listeners times names. */
  lemma {:induction false} RouteOwnsGrid(
      start: map<string, seq<Rule>>, events: seq<Event>, own: set<string>, names: set<string>, listener: string,
      name: string)
    requires Fresh(start, own)
    ensures var run := Run(start, events, own);
            && run.Some? && Stop !in events && !run.value.running && name in own
            && (forall i :: 0 <= i < |run.value.wanted| ==> NameSet(run.value.wanted[i].rules) == names) ==>
              (Owns(run.value, listener, name) <==> listener in TargetListeners(run.value.wanted) && name in names)
  {
    var run := Run(start, events, own);
    RouteOwnsWhatItWanted(start, events, own, listener, name);
    if run.Some? { TargetListenersMembers(run.value.wanted, listener); }
  }

  /** Removing the rules the annotation lists, listener by listener, leaves the route with no rule anywhere but the
      strays a stopped run may have left: removal is a run with no matched listener, and this is where it stands
      after its last commit. */
  lemma {:induction false} RemovalLeavesNone(
      start: map<string, seq<Rule>>, events: seq<Event>, own: set<string>, listener: string, name: string)
    requires Fresh(start, own)
    ensures var run := Run(start, events, own);
            run.Some? && run.value.running && run.value.wanted == [] && run.value.pending == [] && name in own ==>
              && (Owns(run.value, listener, name) <==> Stray(run.value, listener, name))
              && (Stop !in events ==> !Owns(run.value, listener, name))
  {
    var run := Run(start, events, own);
    StoppedByStop(start, events, own);
    if run.Some? && run.value.running && run.value.wanted == [] && run.value.pending == [] {
      assert !HasCall(run.value.pending, listener);
      assert Settled(run.value, listener, own);
      if Stop !in events { NoStrayAt(run.value, own, listener, name); }
    }
  }

  /** The route's own commits leave every rule of others as it is. */
  lemma {:induction false} OthersAreUntouched(
      start: map<string, seq<Rule>>, events: seq<Event>, own: set<string>, listener: string, name: string)
    requires Fresh(start, own)
    ensures var run := Run(start, events, own);
            run.Some? && Enabled(run.value, CommitNext, own) && name !in own ==>
              Lookup(At(Apply(run.value, CommitNext).store, listener), name) ==
              Lookup(At(run.value.store, listener), name)
  {
    var run := Run(start, events, own);
    if run.Some? && Enabled(run.value, CommitNext, own) && name !in own {
      CommitSparesOthers(run.value, own, listener, name);
    }
  }

  // ----- the concurrent protocol as events

  /** What an operation of the protocol is to this route: one of its commits when a thread of its own did it. */
  function EventOf(e: CommitProtocol.Effect, mine: set<nat>): Event {
    if e.thread in mine then CommitNext else Other(e.key, e.op)
  }

  /** The route's own operations are the commits it still has to make, in order; those of others keep off its
      names. */
  ghost predicate Follows(
      effects: seq<CommitProtocol.Effect>, pending: seq<CommitCall>, mine: set<nat>, own: set<string>)
    decreases |effects|
  {
    effects == [] ||
    (var e := effects[0];
     if e.thread in mine then
       && pending != [] && e.key == pending[0].listener && e.op == CallOp(pending[0])
       && Follows(effects[1..], pending[1..], mine, own)
     else
       && CommitProtocol.OpFootprint(e.op) !! own && (e.op.Commit? ==> UniqueNames(e.op.newRules))
       && Follows(effects[1..], pending, mine, own))
  }

  /** The operations of the protocol, in the order of their writes, are events of a history of the route: each is
      possible, and performs what it does to the policies. */
  ghost predicate AreEvents(s: State, effects: seq<CommitProtocol.Effect>, mine: set<nat>, own: set<string>)
    decreases |effects|
  {
    effects == [] ||
    (var e := EventOf(effects[0], mine);
     && Enabled(s, e, own)
     && Apply(s, e).store == CommitProtocol.EffectOn(s.store, effects[0])
     && AreEvents(Apply(s, e), effects[1..], mine, own))
  }

  lemma {:induction false} EffectsAreEvents(
      s: State, effects: seq<CommitProtocol.Effect>, mine: set<nat>, own: set<string>)
    requires s.running && Follows(effects, s.pending, mine, own)
    ensures AreEvents(s, effects, mine, own)
    decreases |effects|
  {
    if effects != [] {
      EffectsAreEvents(Apply(s, EventOf(effects[0], mine)), effects[1..], mine, own);
    }
  }

  /** A concurrent run of the protocol in which some threads carry out the route's commits: its operations, each
      taken at the moment of its write, are events of a history of the route with the same policies at every
      point, and the policies it ends with are their result. */
  lemma {:induction false} ProtocolRunsAreHistories(
      s: State, steps: seq<CommitProtocol.Step>, mine: set<nat>, own: set<string>)
    requires Inv(s, own) && s.running && CommitProtocol.KeptStore(s.store)
    ensures CommitProtocol.Run(s.store, steps).Some? ==>
              var effects := CommitProtocol.Effects(s.store, steps);
              Follows(effects, s.pending, mine, own) ==>
                && AreEvents(s, effects, mine, own)
                && CommitProtocol.Run(s.store, steps).value.store == CommitProtocol.RunEffects(s.store, effects)
  {
    if CommitProtocol.Run(s.store, steps).Some? {
      var effects := CommitProtocol.Effects(s.store, steps);
      CommitProtocol.RunIsAtomic(s.store, steps);
      if Follows(effects, s.pending, mine, own) { EffectsAreEvents(s, effects, mine, own); }
    }
  }
}
