/** Any number of reconciles committing to and repairing routing policies at the same time: each takes the
    policy's lock, reads the policy, writes what it computed from that read, unlocks and releases. */
module CommitProtocol {
  import opened Text
  import opened RoutingRules
  import opened PolicyCommit
  import L = LockTable

  datatype Op =
    | Commit(newRules: seq<Rule>, prevNames: seq<string>)
    | Repair(backendSet: string, known: Policy)

  /** The policy an operation leaves when its calls succeed. */
  ghost function Outcome(op: Op, policy: Policy): Policy {
    match op
    case Commit(newRules, prevNames) => CommitOutcome(policy, newRules, prevNames)
    case Repair(backendSet, known) => RepairOutcome(policy, backendSet, known)
  }

  /** A listener reconcile that already knows a matching default rule makes no call. */
  predicate SkipsCalls(op: Op) {
    op.Repair? && op.known.Some? && !DefaultRuleDrifted(op.known.value, op.backendSet)
  }

  datatype Call = NoCall | Create(rules: seq<Rule>) | Update(rules: seq<Rule>) | Delete

  /** The one write call an operation decides on from the policy it read. */
  ghost function Decide(op: Op, seen: Policy): Call {
    match op
    case Commit(newRules, prevNames) =>
      (match seen
       case None => if newRules == [] then NoCall else Create(SortRules(newRules))
       case Some(current) =>
         var merged := Merged(current, newRules, prevNames);
         if merged == [] then Delete
         else if RulesEqual(current, merged) then NoCall
         else Update(merged))
    case Repair(backendSet, known) =>
      var policy := if seen.Some? then seen else known;
      if policy.None? then Create([DefaultRule(backendSet)])
      else if DefaultRuleDrifted(policy.value, backendSet) then Update(RulesWithDefault(policy.value, backendSet))
      else NoCall
  }

  type Store = map<string, seq<Rule>>

  /** OCI's side of a call that is not rejected for other reasons. */
  function Perform(store: Store, key: string, call: Call): Store {
    match call
    case NoCall => store
    case Create(rules) => if key in store then store else store[key := rules]
    case Update(rules) => if key in store then store[key := rules] else store
    case Delete => store - {key}
  }

  /** A call decided on from an up-to-date read has the effect the operation promises. */
  lemma {:induction false} FreshDecisionIsOutcome(store: Store, key: string, op: Op)
    requires !SkipsCalls(op)
    ensures Perform(store, key, Decide(op, At(store, key))) == With(store, key, Outcome(op, At(store, key)))
  {
  }

  // ----- the step system

  /** Where a reconcile is between lock and unlock. */
  datatype Stage = Start | Fetched(seen: Policy) | Finished

  datatype Work = Work(op: Op, stage: Stage)

  datatype Status = Pending | Applied | NoEffect

  datatype Entry = Entry(thread: nat, op: Op, status: Status)

  /** `start` is the store when the controller started, `history` lists, for every policy, the operations since
      then in the order they got the lock. */
  datatype State = State(
    locks: L.State, work: map<nat, Work>, store: Store, history: map<string, seq<Entry>>, start: Store)

  datatype Step =
    | Begin(thread: nat, key: string, op: Op)
    | Lock(thread: nat)
    | Skip(thread: nat)
    | Get(thread: nat, fails: bool)
    | Write(thread: nat, rejected: bool)
    | Unlock(thread: nat)
    | Release(thread: nat)

  /** Locks and work are gone after a restart; the stored policies are not. */
  function Initial(start: Store): State {
    State(L.INITIAL, map[], start, map[], start)
  }

  ghost predicate KeptStore(store: Store) {
    forall key :: WellKept(At(store, key))
  }

  function HistoryOf(s: State, key: string): seq<Entry> {
    if key in s.history then s.history[key] else []
  }

  predicate Inside(s: State, t: nat) {
    t in s.locks.sessions && s.locks.sessions[t].phase == L.Inside
  }

  function KeyOf(s: State, t: nat): string
    requires t in s.locks.sessions
  {
    s.locks.sessions[t].key
  }

  /** The lock-table step that a protocol step includes, if any. */
  function LockPart(step: Step): Option<L.Step> {
    match step
    case Begin(t, key, _) => Some(L.AcquireStep(t, key))
    case Lock(t) => Some(L.LockStep(t))
    case Unlock(t) => Some(L.UnlockStep(t))
    case Release(t) => Some(L.ReleaseStep(t))
    case _ => None
  }

  ghost predicate Enabled(s: State, step: Step) {
    && (LockPart(step).Some? ==> L.Enabled(s.locks, LockPart(step).value))
    && match step
       case Begin(t, key, op) => op.Commit? ==> UniqueNames(op.newRules)
       case Lock(t) => t in s.work
       case Skip(t) => Inside(s, t) && t in s.work && s.work[t].stage == Start && SkipsCalls(s.work[t].op)
       case Get(t, fails) => Inside(s, t) && t in s.work && s.work[t].stage == Start && !SkipsCalls(s.work[t].op)
       case Write(t, rejected) => Inside(s, t) && t in s.work && s.work[t].stage.Fetched?
       case Unlock(t) => t in s.work && s.work[t].stage == Finished
       case _ => true
  }

  /** Closes the last entry of a policy's history. */
  function Close(s: State, key: string, status: Status): map<string, seq<Entry>> {
    var h := HistoryOf(s, key);
    if h == [] then s.history else s.history[key := h[|h| - 1 := h[|h| - 1].(status := status)]]
  }

  ghost function Apply(s: State, step: Step): State
    requires Enabled(s, step)
  {
    var locks := if LockPart(step).Some? then L.Apply(s.locks, LockPart(step).value) else s.locks;
    match step
    case Begin(t, key, op) =>
      s.(locks := locks, work := s.work[t := Work(op, Start)])
    case Lock(t) =>
      var key := KeyOf(s, t);
      s.(locks := locks, history := s.history[key := HistoryOf(s, key) + [Entry(t, s.work[t].op, Pending)]])
    case Skip(t) =>
      s.(work := s.work[t := s.work[t].(stage := Finished)], history := Close(s, KeyOf(s, t), Applied))
    case Get(t, fails) =>
      if fails then
        s.(work := s.work[t := s.work[t].(stage := Finished)], history := Close(s, KeyOf(s, t), NoEffect))
      else
        s.(work := s.work[t := s.work[t].(stage := Fetched(At(s.store, KeyOf(s, t))))])
    case Write(t, rejected) =>
      var call := Decide(s.work[t].op, s.work[t].stage.seen);
      s.(work := s.work[t := s.work[t].(stage := Finished)],
         store := if rejected then s.store else Perform(s.store, KeyOf(s, t), call),
         history := Close(s, KeyOf(s, t), if rejected then NoEffect else Applied))
    case Unlock(t) => s.(locks := locks)
    case Release(t) => s.(locks := locks, work := s.work - {t})
  }

  // ----- one at a time

  /** The policy that results from running the operations that took effect one after the other. */
  ghost function Replay(base: Policy, entries: seq<Entry>): Policy
    decreases |entries|
  {
    if entries == [] then base
    else
      var last := entries[|entries| - 1];
      var before := Replay(base, entries[..|entries| - 1]);
      if last.status == Applied then Outcome(last.op, before) else before
  }

  lemma {:induction false} ReplayAppend(base: Policy, entries: seq<Entry>, e: Entry)
    ensures Replay(base, entries + [e]) ==
            if e.status == Applied then Outcome(e.op, Replay(base, entries)) else Replay(base, entries)
  {
    assert (entries + [e])[..|entries|] == entries;
  }

  lemma {:induction false} ReplayClosed(base: Policy, entries: seq<Entry>, status: Status)
    requires entries != [] && entries[|entries| - 1].status == Pending
    ensures var n := |entries| - 1;
            Replay(base, entries[n := entries[n].(status := status)]) ==
            if status == Applied then Outcome(entries[n].op, Replay(base, entries)) else Replay(base, entries)
  {
    var n := |entries| - 1;
    assert entries[n := entries[n].(status := status)] == entries[..n] + [entries[n].(status := status)];
    assert entries == entries[..n] + [entries[n]];
    ReplayAppend(base, entries[..n], entries[n]);
    ReplayAppend(base, entries[..n], entries[n].(status := status));
  }

  /** Rule names within one commit are distinct; the code derives them from the rule's index. */
  ghost predicate UniqueOps(entries: seq<Entry>) {
    forall i :: 0 <= i < |entries| && entries[i].op.Commit? ==> UniqueNames(entries[i].op.newRules)
  }

  // ----- the invariant

  /** Every thread in the lock table has its operation, at a stage that fits its phase. */
  ghost predicate WorkInv(s: State) {
    && s.work.Keys == s.locks.sessions.Keys
    && (forall t :: t in s.work ==>
          && (s.locks.sessions[t].phase == L.Waiting ==> s.work[t].stage == Start)
          && (s.locks.sessions[t].phase == L.Leaving ==> s.work[t].stage == Finished)
          && (s.work[t].op.Commit? ==> UniqueNames(s.work[t].op.newRules)))
  }

  /** The holder's entry is the last one of its policy, open until it finishes; its read is up to date. */
  ghost predicate HolderInv(s: State, t: nat)
    requires t in s.work && t in s.locks.sessions
  {
    var h := HistoryOf(s, KeyOf(s, t));
    && h != []
    && h[|h| - 1].thread == t && h[|h| - 1].op == s.work[t].op
    && (s.work[t].stage != Finished <==> h[|h| - 1].status == Pending)
    && (s.work[t].stage.Fetched? ==>
          !SkipsCalls(s.work[t].op) && s.work[t].stage.seen == At(s.store, KeyOf(s, t)))
  }

  ghost predicate HoldersInv(s: State)
    requires WorkInv(s)
  {
    forall t :: t in s.work && Inside(s, t) ==> HolderInv(s, t)
  }

  /** Each policy is what its history leaves, in order and without repeated names. */
  ghost predicate PolicyInv(s: State) {
    forall key :: PolicyInvAt(s, key)
  }

  ghost predicate PolicyInvAt(s: State, key: string) {
    && At(s.store, key) == Replay(At(s.start, key), HistoryOf(s, key))
    && WellKept(At(s.store, key)) && WellKept(At(s.start, key)) && UniqueOps(HistoryOf(s, key))
  }

  ghost predicate Inv(s: State) {
    L.Inv(s.locks) && WorkInv(s) && HoldersInv(s) && PolicyInv(s)
  }

  // ----- every step keeps it

  /** Thread t moves from s to s' without becoming or staying a holder; nothing else changes. */
  ghost predicate Moves(s: State, s': State, t: nat) {
    && s'.store == s.store && s'.history == s.history && s'.start == s.start
    && s'.work.Keys == s'.locks.sessions.Keys
    && s'.work.Keys - {t} == s.work.Keys - {t}
    && (forall u :: u in s.work && u != t && u in s.locks.sessions ==>
          u in s'.locks.sessions && s'.locks.sessions[u] == s.locks.sessions[u] && s'.work[u] == s.work[u])
    && (t in s'.work ==>
          && s'.locks.sessions[t].phase != L.Inside
          && (s'.locks.sessions[t].phase == L.Waiting ==> s'.work[t].stage == Start)
          && (s'.locks.sessions[t].phase == L.Leaving ==> s'.work[t].stage == Finished)
          && (s'.work[t].op.Commit? ==> UniqueNames(s'.work[t].op.newRules)))
  }

  lemma {:induction false} MoveKeepsWork(s: State, s': State, t: nat)
    requires WorkInv(s) && Moves(s, s', t)
    ensures WorkInv(s')
  {
    forall u | u in s'.work && u != t ensures u in s.work && s'.work[u] == s.work[u] {
      assert u in s.work.Keys - {t};
    }
  }

  lemma {:induction false} MoveKeepsHolders(s: State, s': State, t: nat)
    requires WorkInv(s) && HoldersInv(s) && Moves(s, s', t) && WorkInv(s')
    ensures HoldersInv(s')
  {
    forall u | u in s'.work && Inside(s', u) ensures HolderInv(s', u) {
      assert u != t;
      assert u in s'.work.Keys - {t};
      assert u in s.work && Inside(s, u) && HolderInv(s, u);
    }
  }

  lemma {:induction false} MoveKeepsPolicies(s: State, s': State)
    requires PolicyInv(s) && s'.store == s.store && s'.history == s.history && s'.start == s.start
    ensures PolicyInv(s')
  {
    forall key ensures PolicyInvAt(s', key) {
      PolicyAt(s, key);
    }
  }

  lemma {:induction false} MoveKeepsInv(s: State, step: Step, t: nat)
    requires Inv(s) && Enabled(s, step) && LockPart(step).Some? && Moves(s, Apply(s, step), t)
    requires Apply(s, step).locks == L.Apply(s.locks, LockPart(step).value)
    ensures Inv(Apply(s, step))
  {
    L.StepKeepsInv(s.locks, LockPart(step).value);
    MoveKeepsWork(s, Apply(s, step), t);
    MoveKeepsHolders(s, Apply(s, step), t);
    MoveKeepsPolicies(s, Apply(s, step));
  }

  lemma {:induction false} BeginMoves(s: State, t: nat, key: string, op: Op)
    requires WorkInv(s) && Enabled(s, Begin(t, key, op))
    ensures Moves(s, Apply(s, Begin(t, key, op)), t)
  {
  }

  lemma {:induction false} UnlockMoves(s: State, t: nat)
    requires WorkInv(s) && Enabled(s, Unlock(t))
    ensures Moves(s, Apply(s, Unlock(t)), t)
  {
  }

  lemma {:induction false} ReleaseMoves(s: State, t: nat)
    requires WorkInv(s) && Enabled(s, Release(t))
    ensures Moves(s, Apply(s, Release(t)), t)
  {
  }

  /** The steps of a holder: its own history and policy may change, its entry and its read stay right. */
  ghost predicate ActsInside(s: State, s': State, t: nat)
    requires t in s.locks.sessions
  {
    && (forall u :: u in s.work && u != t ==>
          u in s'.work && s'.work[u] == s.work[u] && (u in s.locks.sessions <==> u in s'.locks.sessions) &&
          (u in s.locks.sessions ==> s'.locks.sessions[u] == s.locks.sessions[u]))
    && s'.work.Keys == s.work.Keys && s'.locks.sessions.Keys == s.locks.sessions.Keys && s'.start == s.start
    && (forall k :: k != KeyOf(s, t) ==> HistoryOf(s', k) == HistoryOf(s, k) && At(s'.store, k) == At(s.store, k))
    && t in s'.work && Inside(s', t) && KeyOf(s', t) == KeyOf(s, t) && HolderInv(s', t)
    && (s'.work[t].op.Commit? ==> UniqueNames(s'.work[t].op.newRules))
  }

  lemma {:induction false} ActKeepsWork(s: State, s': State, t: nat)
    requires WorkInv(s) && t in s.locks.sessions && ActsInside(s, s', t)
    ensures WorkInv(s')
  {
  }

  lemma {:induction false} ActKeepsHolders(s: State, s': State, t: nat)
    requires WorkInv(s) && HoldersInv(s) && t in s.locks.sessions && ActsInside(s, s', t) && WorkInv(s')
    requires forall u :: Inside(s', u) && u in s'.work && KeyOf(s', u) == KeyOf(s', t) ==> u == t
    ensures HoldersInv(s')
  {
    forall u | u in s'.work && Inside(s', u) ensures HolderInv(s', u) {
      if u != t {
        assert Inside(s, u) && HolderInv(s, u) && KeyOf(s', u) == KeyOf(s, u);
      }
    }
  }

  lemma {:induction false} ActKeepsPolicies(s: State, s': State, t: nat)
    requires PolicyInv(s) && t in s.locks.sessions && ActsInside(s, s', t)
    requires PolicyInvAt(s', KeyOf(s, t))
    ensures PolicyInv(s')
  {
    forall k ensures PolicyInvAt(s', k) {
      if k != KeyOf(s, t) { PolicyAt(s, k); }
    }
  }

  lemma {:induction false} OnlyHolder(s: State, t: nat)
    requires L.Inv(s.locks) && Inside(s, t)
    ensures forall u :: Inside(s, u) && u in s.work && KeyOf(s, u) == KeyOf(s, t) ==> u == t
  {
    forall u | Inside(s, u) && u in s.work && KeyOf(s, u) == KeyOf(s, t) ensures u == t {
      L.MutualExclusion(s.locks, t, u);
    }
  }

  lemma {:induction false} ActKeepsInv(s: State, s': State, t: nat)
    requires Inv(s) && L.Inv(s'.locks) && t in s.locks.sessions && ActsInside(s, s', t)
    requires PolicyInvAt(s', KeyOf(s, t))
    ensures Inv(s')
  {
    ActKeepsWork(s, s', t);
    OnlyHolder(s', t);
    ActKeepsHolders(s, s', t);
    ActKeepsPolicies(s, s', t);
  }

  lemma {:induction false} LockActs(s: State, t: nat)
    requires WorkInv(s) && Enabled(s, Lock(t))
    ensures ActsInside(s, Apply(s, Lock(t)), t)
  {
  }

  lemma {:induction false} LockKeepsInv(s: State, t: nat)
    requires Inv(s) && Enabled(s, Lock(t))
    ensures Inv(Apply(s, Lock(t)))
  {
    L.StepKeepsInv(s.locks, L.LockStep(t));
    LockActs(s, t);
    LockPolicy(s, t);
    ActKeepsInv(s, Apply(s, Lock(t)), t);
  }

  lemma {:induction false} LockPolicy(s: State, t: nat)
    requires WorkInv(s) && PolicyInv(s) && Enabled(s, Lock(t))
    ensures PolicyInvAt(Apply(s, Lock(t)), KeyOf(s, t))
  {
    PolicyAt(s, KeyOf(s, t));
    ReplayAppend(At(s.start, KeyOf(s, t)), HistoryOf(s, KeyOf(s, t)), Entry(t, s.work[t].op, Pending));
  }

  lemma {:induction false} PolicyAt(s: State, key: string)
    requires PolicyInv(s)
    ensures PolicyInvAt(s, key)
  {
  }

  lemma {:induction false} SkipActs(s: State, t: nat)
    requires WorkInv(s) && Enabled(s, Skip(t)) && HolderInv(s, t)
    ensures ActsInside(s, Apply(s, Skip(t)), t)
  {
  }

  lemma {:induction false} SkipPolicy(s: State, t: nat)
    requires WorkInv(s) && PolicyInv(s) && Enabled(s, Skip(t)) && HolderInv(s, t)
    ensures PolicyInvAt(Apply(s, Skip(t)), KeyOf(s, t))
  {
    var key := KeyOf(s, t);
    PolicyAt(s, key);
    ReplayClosed(At(s.start, key), HistoryOf(s, key), Applied);
  }

  lemma {:induction false} SkipKeepsInv(s: State, t: nat)
    requires Inv(s) && Enabled(s, Skip(t))
    ensures Inv(Apply(s, Skip(t)))
  {
    HolderAt(s, t);
    SkipActs(s, t);
    SkipPolicy(s, t);
    ActKeepsInv(s, Apply(s, Skip(t)), t);
  }

  lemma {:induction false} HolderAt(s: State, t: nat)
    requires WorkInv(s) && HoldersInv(s) && t in s.work && Inside(s, t)
    ensures HolderInv(s, t)
  {
  }

  lemma {:induction false} GetActs(s: State, t: nat, fails: bool)
    requires WorkInv(s) && Enabled(s, Get(t, fails)) && HolderInv(s, t)
    ensures ActsInside(s, Apply(s, Get(t, fails)), t)
  {
  }

  lemma {:induction false} GetPolicy(s: State, t: nat, fails: bool)
    requires WorkInv(s) && PolicyInv(s) && Enabled(s, Get(t, fails)) && HolderInv(s, t)
    ensures PolicyInvAt(Apply(s, Get(t, fails)), KeyOf(s, t))
  {
    var key := KeyOf(s, t);
    PolicyAt(s, key);
    if fails { ReplayClosed(At(s.start, key), HistoryOf(s, key), NoEffect); }
  }

  lemma {:induction false} GetKeepsInv(s: State, t: nat, fails: bool)
    requires Inv(s) && Enabled(s, Get(t, fails))
    ensures Inv(Apply(s, Get(t, fails)))
  {
    HolderAt(s, t);
    GetActs(s, t, fails);
    GetPolicy(s, t, fails);
    ActKeepsInv(s, Apply(s, Get(t, fails)), t);
  }

  lemma {:induction false} WriteActs(s: State, t: nat, rejected: bool)
    requires WorkInv(s) && Enabled(s, Write(t, rejected)) && HolderInv(s, t)
    ensures ActsInside(s, Apply(s, Write(t, rejected)), t)
  {
  }

  lemma {:induction false} WriteKeepsInv(s: State, t: nat, rejected: bool)
    requires Inv(s) && Enabled(s, Write(t, rejected))
    ensures Inv(Apply(s, Write(t, rejected)))
  {
    HolderAt(s, t);
    WriteActs(s, t, rejected);
    WritePolicy(s, t, rejected);
    ActKeepsInv(s, Apply(s, Write(t, rejected)), t);
  }

  lemma {:induction false} WritePolicy(s: State, t: nat, rejected: bool)
    requires WorkInv(s) && PolicyInv(s) && Enabled(s, Write(t, rejected)) && HolderInv(s, t)
    ensures PolicyInvAt(Apply(s, Write(t, rejected)), KeyOf(s, t))
  {
    var key := KeyOf(s, t);
    PolicyAt(s, key);
    ReplayClosed(At(s.start, key), HistoryOf(s, key), if rejected then NoEffect else Applied);
    FreshDecisionIsOutcome(s.store, key, s.work[t].op);
    OutcomeKeepsOrder(s.work[t].op, At(s.store, key));
  }

  lemma {:induction false} OutcomeKeepsOrder(op: Op, policy: Policy)
    requires WellKept(policy) && (op.Commit? ==> UniqueNames(op.newRules))
    ensures WellKept(Outcome(op, policy))
  {
    match op
    case Commit(newRules, prevNames) => CommitKeepsOrder(policy, newRules, prevNames);
    case Repair(backendSet, known) => RepairKeepsOrder(policy, backendSet, known);
  }

  lemma {:induction false} StepKeepsInv(s: State, step: Step)
    requires Inv(s) && Enabled(s, step)
    ensures Inv(Apply(s, step))
  {
    match step
    case Begin(t, key, op) => BeginMoves(s, t, key, op); MoveKeepsInv(s, step, t);
    case Lock(t) => LockKeepsInv(s, t);
    case Skip(t) => SkipKeepsInv(s, t);
    case Get(t, fails) => GetKeepsInv(s, t, fails);
    case Write(t, rejected) => WriteKeepsInv(s, t, rejected);
    case Unlock(t) => UnlockMoves(s, t); MoveKeepsInv(s, step, t);
    case Release(t) => ReleaseMoves(s, t); MoveKeepsInv(s, step, t);
  }

  // ----- whole runs

  /** The state after the steps, or None when one of them was not possible. */
  ghost function Run(start: Store, steps: seq<Step>): (s: Option<State>)
    requires KeptStore(start)
    ensures s.Some? ==> Inv(s.value) && s.value.start == start
    decreases |steps|
  {
    if steps == [] then
      InitialInv(start);
      Some(Initial(start))
    else
      var before := Run(start, steps[..|steps| - 1]);
      var step := steps[|steps| - 1];
      if before.Some? && Enabled(before.value, step) then
        StepKeepsInv(before.value, step);
        Some(Apply(before.value, step))
      else
        None
  }

  lemma {:induction false} InitialInv(start: Store)
    requires KeptStore(start)
    ensures Inv(Initial(start))
  {
    forall key ensures PolicyInvAt(Initial(start), key) { assert WellKept(At(start, key)); }
  }

  /** For any number of reconciles, any interleaving and any policies left by earlier runs of the controller,
      every stored policy is the one obtained from the earlier one by running the operations that took effect one
      at a time, in the order they got the policy's lock. */
  lemma {:induction false} PoliciesAreSequential(start: Store, steps: seq<Step>, key: string)
    requires KeptStore(start)
    ensures Run(start, steps).Some? ==>
              var s := Run(start, steps).value;
              At(s.store, key) == Replay(At(start, key), HistoryOf(s, key))
  {
    if Run(start, steps).Some? { PolicyAt(Run(start, steps).value, key); }
  }

  // ----- all policies at once

  /** An operation that took effect, by the thread and on the policy it belongs to. */
  datatype Effect = Effect(thread: nat, key: string, op: Op)

  ghost function EffectOn(store: Store, e: Effect): Store {
    With(store, e.key, Outcome(e.op, At(store, e.key)))
  }

  /** The operation a step completes: only an accepted write completes one that calls OCI. */
  ghost function StepEffect(s: State, step: Step): Option<Effect>
    requires Enabled(s, step)
  {
    if step.Write? && !step.rejected then Some(Effect(step.thread, KeyOf(s, step.thread), s.work[step.thread].op))
    else None
  }

  /** Every step leaves the store alone or changes it as one whole operation would. */
  lemma {:induction false} StepIsAtomic(s: State, step: Step)
    requires Inv(s) && Enabled(s, step)
    ensures Apply(s, step).store ==
            if StepEffect(s, step).Some? then EffectOn(s.store, StepEffect(s, step).value) else s.store
  {
    if StepEffect(s, step).Some? {
      WriteIsAtomic(s, step);
    } else {
      OthersKeepStore(s, step);
    }
  }

  lemma {:induction false} OthersKeepStore(s: State, step: Step)
    requires Enabled(s, step) && StepEffect(s, step).None?
    ensures Apply(s, step).store == s.store
  {
  }

  lemma {:induction false} WriteIsAtomic(s: State, step: Step)
    requires Inv(s) && Enabled(s, step) && StepEffect(s, step).Some?
    ensures Apply(s, step).store == EffectOn(s.store, StepEffect(s, step).value)
  {
    HolderAt(s, step.thread);
    FreshDecisionIsOutcome(s.store, KeyOf(s, step.thread), s.work[step.thread].op);
  }

  ghost function RunEffects(store: Store, effects: seq<Effect>): Store {
    if effects == [] then store
    else EffectOn(RunEffects(store, effects[..|effects| - 1]), effects[|effects| - 1])
  }

  /** The operations of a run that took effect, on all policies, in the order of their writes. */
  ghost function Effects(start: Store, steps: seq<Step>): seq<Effect>
    requires KeptStore(start) && Run(start, steps).Some?
    decreases |steps|
  {
    if steps == [] then []
    else
      var n := |steps| - 1;
      var e := StepEffect(Run(start, steps[..n]).value, steps[n]);
      Effects(start, steps[..n]) + if e.Some? then [e.value] else []
  }

  /** A concurrent run refines the atomic one: its store is the result of its operations, each performed in one
      step at the moment of its write. */
  lemma {:induction false} RunIsAtomic(start: Store, steps: seq<Step>)
    requires KeptStore(start)
    ensures Run(start, steps).Some? ==> Run(start, steps).value.store == RunEffects(start, Effects(start, steps))
    decreases |steps|
  {
    if steps != [] && Run(start, steps).Some? {
      var n := |steps| - 1;
      var before := Run(start, steps[..n]).value;
      RunIsAtomic(start, steps[..n]);
      StepIsAtomic(before, steps[n]);
      var effects := Effects(start, steps[..n]);
      var e := StepEffect(before, steps[n]);
      if e.Some? {
        assert (effects + [e.value])[..|effects|] == effects;
      } else {
        assert effects + [] == effects;
      }
    }
  }

  /** The names whose rules an operation may change. */
  function OpFootprint(op: Op): set<string> {
    match op
    case Commit(newRules, prevNames) => Footprint(newRules, prevNames)
    case Repair(_, _) => {DEFAULT_RULE_NAME}
  }

  lemma {:induction false} OutcomeLookup(op: Op, policy: Policy, name: string)
    requires WellKept(policy) && (op.Commit? ==> UniqueNames(op.newRules))
    ensures name !in OpFootprint(op) ==> Lookup(Outcome(op, policy), name) == Lookup(policy, name)
    ensures op.Commit? && name in NameSet(op.newRules) ==>
              name in RuleMap(op.newRules) && Lookup(Outcome(op, policy), name) == Some(RuleMap(op.newRules)[name])
    ensures op.Commit? && name in op.prevNames && name !in NameSet(op.newRules) ==>
              Lookup(Outcome(op, policy), name) == None
  {
    match op
    case Commit(newRules, prevNames) => CommitLookup(policy, newRules, prevNames, name);
    case Repair(backendSet, known) => RepairLookup(policy, backendSet, known, name);
  }

  lemma {:induction false} ReplayWellKept(base: Policy, entries: seq<Entry>)
    requires WellKept(base) && UniqueOps(entries)
    ensures WellKept(Replay(base, entries))
    decreases |entries|
  {
    if entries != [] {
      var n := |entries| - 1;
      ReplayWellKept(base, entries[..n]);
      OutcomeKeepsOrder(entries[n].op, Replay(base, entries[..n]));
    }
  }

  /** Entry `i` is a commit that took effect and the last such operation to name the rule. */
  ghost predicate LastToName(entries: seq<Entry>, i: nat, name: string) {
    && i < |entries| && entries[i].status == Applied && entries[i].op.Commit?
    && name in OpFootprint(entries[i].op)
    && forall j :: i < j < |entries| && entries[j].status == Applied ==> name !in OpFootprint(entries[j].op)
  }

  lemma {:induction false} ReplayKeepsUpdate(base: Policy, entries: seq<Entry>, i: nat, name: string)
    requires WellKept(base) && UniqueOps(entries) && LastToName(entries, i, name)
    ensures var op := entries[i].op;
            Lookup(Replay(base, entries), name) ==
            if name in RuleMap(op.newRules) then Some(RuleMap(op.newRules)[name]) else None
    decreases |entries|
  {
    var n := |entries| - 1;
    ReplayWellKept(base, entries[..n]);
    var before := Replay(base, entries[..n]);
    if i == n {
      MergedLookup(map[], entries[i].op.newRules, [], name);
      OutcomeLookup(entries[i].op, before, name);
    } else {
      ReplayKeepsUpdate(base, entries[..n], i, name);
      if entries[n].status == Applied { OutcomeLookup(entries[n].op, before, name); }
    }
  }

  /** No update is lost: once a commit took effect, its rules stay in the stored policy until a later
      operation that names them takes effect, and the names it withdrew stay away just as long. */
  lemma {:induction false} NoUpdateIsLost(start: Store, steps: seq<Step>, key: string, i: nat, name: string)
    requires KeptStore(start)
    ensures Run(start, steps).Some? && LastToName(HistoryOf(Run(start, steps).value, key), i, name) ==>
              var s := Run(start, steps).value;
              var op := HistoryOf(s, key)[i].op;
              Lookup(At(s.store, key), name) ==
              if name in RuleMap(op.newRules) then Some(RuleMap(op.newRules)[name]) else None
  {
    if Run(start, steps).Some? && LastToName(HistoryOf(Run(start, steps).value, key), i, name) {
      var s := Run(start, steps).value;
      PolicyAt(s, key);
      ReplayKeepsUpdate(At(start, key), HistoryOf(s, key), i, name);
    }
  }

  /** Every policy the controllers can store keeps native gRPC rules first and the default rule last, so
      under first-match evaluation a request that satisfies a rule other than the default is never sent to the
      default backend, and one that satisfies a gRPC rule is served by a gRPC rule. */
  lemma {:induction false} StoredPoliciesPrioritize(
      start: Store, steps: seq<Step>, key: string, holds: string -> bool, k: nat)
    requires KeptStore(start)
    ensures Run(start, steps).Some? && key in Run(start, steps).value.store ==>
              UniqueNames(Run(start, steps).value.store[key])
    ensures Run(start, steps).Some? && key in Run(start, steps).value.store &&
            k < |Run(start, steps).value.store[key]| ==>
              var rules := Run(start, steps).value.store[key];
              holds(rules[k].condition) && rules[k].name != DEFAULT_RULE_NAME ==>
                && Served(rules, holds).Some? && Served(rules, holds).value.name != DEFAULT_RULE_NAME
                && (MatchesNativeGRPC(rules[k]) ==> MatchesNativeGRPC(Served(rules, holds).value))
  {
    if Run(start, steps).Some? && key in Run(start, steps).value.store {
      PolicyAt(Run(start, steps).value, key);
      var rules := Run(start, steps).value.store[key];
      if k < |rules| && holds(rules[k].condition) && rules[k].name != DEFAULT_RULE_NAME {
        SortedPolicyPriorities(rules, holds, k);
      }
    }
  }

  /** At most one reconcile is between lock and unlock of a policy. */
  lemma {:induction false} OneReconcilePerPolicy(start: Store, steps: seq<Step>, t: nat, u: nat)
    requires KeptStore(start)
    ensures Run(start, steps).Some? ==>
              var s := Run(start, steps).value;
              Inside(s, t) && Inside(s, u) && KeyOf(s, t) == KeyOf(s, u) ==> t == u
  {
    if Run(start, steps).Some? {
      var s := Run(start, steps).value;
      if Inside(s, t) && Inside(s, u) && KeyOf(s, t) == KeyOf(s, u) { L.MutualExclusion(s.locks, t, u); }
    }
  }

  /** Lock keys tell load balancers and policies apart: neither identifier contains a slash. */
  lemma {:induction false} LockKeyInjective(
      loadBalancerA: string, policyA: string, loadBalancerB: string, policyB: string)
    requires '/' !in loadBalancerA && '/' !in loadBalancerB
    requires loadBalancerA + "/" + policyA == loadBalancerB + "/" + policyB
    ensures loadBalancerA == loadBalancerB && policyA == policyB
  {
    CutJoined(loadBalancerA, '/', policyA);
    CutJoined(loadBalancerB, '/', policyB);
  }
}
