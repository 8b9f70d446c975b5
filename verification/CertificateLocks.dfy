/** Creating listener certificates under the certificate lock table: the lock remembers the certificate its
    first successful user created, and later users of the same lock take it from there. */
module CertificateLocks {
  import opened Text
  import L = LockTable

  datatype Certificate = Certificate(name: string, publicCertificate: string)

  /** Start: the operation has not run. Got: it returned a certificate, not yet stored in the lock.
      Finished: the lock holds the certificate, or the operation failed. */
  datatype Stage = Start | Got(certificate: Certificate) | Finished

  datatype Success = Success(lock: nat, certificate: Certificate)

  /** `cached` is the lock's certificate field; `created` lists what was created in OCI under each lock, and
      `successes` what the calls returned. */
  datatype State = State(
    locks: L.State, stages: map<nat, Stage>, cached: map<nat, Certificate>,
    created: map<nat, seq<Certificate>>, successes: seq<Success>)

  datatype Step =
    | Begin(thread: nat, key: string)
    | Lock(thread: nat)
    | Operate(thread: nat, creation: Option<Certificate>)
    | Remember(thread: nat)
    | Unlock(thread: nat)
    | Release(thread: nat)

  const INITIAL := State(L.INITIAL, map[], map[], map[], [])

  function Created(s: State, lock: nat): seq<Certificate> {
    if lock in s.created then s.created[lock] else []
  }

  predicate Inside(s: State, t: nat) {
    t in s.locks.sessions && s.locks.sessions[t].phase == L.Inside
  }

  function LockOf(s: State, t: nat): nat
    requires t in s.locks.sessions
  {
    s.locks.sessions[t].lock
  }

  function LockPart(step: Step): Option<L.Step> {
    match step
    case Begin(t, key) => Some(L.AcquireStep(t, key))
    case Lock(t) => Some(L.LockStep(t))
    case Unlock(t) => Some(L.UnlockStep(t))
    case Release(t) => Some(L.ReleaseStep(t))
    case _ => None
  }

  ghost predicate Enabled(s: State, step: Step) {
    && (LockPart(step).Some? ==> L.Enabled(s.locks, LockPart(step).value))
    && match step
       case Operate(t, _) => Inside(s, t) && t in s.stages && s.stages[t] == Start
       case Remember(t) => Inside(s, t) && t in s.stages && s.stages[t].Got?
       case Unlock(t) => t in s.stages && s.stages[t] == Finished
       case _ => true
  }

  /** `Operate` returns the lock's certificate when there is one; otherwise it tries to create one, which
      succeeds with `creation` or fails. */
  ghost function Apply(s: State, step: Step): State
    requires Enabled(s, step)
  {
    var locks := if LockPart(step).Some? then L.Apply(s.locks, LockPart(step).value) else s.locks;
    match step
    case Begin(t, key) => s.(locks := locks, stages := s.stages[t := Start])
    case Lock(t) => s.(locks := locks)
    case Operate(t, creation) =>
      var lock := LockOf(s, t);
      if lock in s.cached then
        s.(stages := s.stages[t := Got(s.cached[lock])])
      else if creation.Some? then
        s.(stages := s.stages[t := Got(creation.value)],
           created := s.created[lock := Created(s, lock) + [creation.value]])
      else
        s.(stages := s.stages[t := Finished])
    case Remember(t) =>
      var certificate := s.stages[t].certificate;
      s.(stages := s.stages[t := Finished], cached := s.cached[LockOf(s, t) := certificate],
         successes := s.successes + [Success(LockOf(s, t), certificate)])
    case Unlock(t) => s.(locks := locks)
    case Release(t) => s.(locks := locks, stages := s.stages - {t})
  }

  /** What a call returns: the remembered certificate, or what creating one yields. */
  function LockResult(remembered: Option<Certificate>, creation: Option<Certificate>): Option<Certificate> {
    if remembered.Some? then remembered else creation
  }

  /** The lock's memory, as the code changes it under the mutex. */
  class CertificateLock {
    var certificate: Option<Certificate>

    constructor ()
      ensures certificate == None
    {
      certificate := None;
    }

    /** One operation: take the remembered certificate, or try to create one. */
    method WithLock(creation: Option<Certificate>) returns (r: Option<Certificate>, ghost created: bool)
      modifies this
      ensures created <==> old(certificate).None? && creation.Some?
      ensures r == LockResult(old(certificate), creation)
      ensures certificate == if r.Some? then r else old(certificate)
    {
      created := certificate.None? && creation.Some?;
      r := if certificate.Some? then certificate else creation;
      if r.None? { return; }
      certificate := r;
    }
  }

  // ----- the invariant

  ghost predicate StageInv(s: State) {
    && s.stages.Keys == s.locks.sessions.Keys
    && (forall t :: t in s.stages && s.locks.sessions[t].phase == L.Waiting ==> s.stages[t] == Start)
    && (forall t :: t in s.stages && s.stages[t].Got? ==>
          Inside(s, t) && Created(s, LockOf(s, t)) == [s.stages[t].certificate])
  }

  /** One certificate per lock: the cached one, or the one its holder is about to store. */
  ghost predicate CertificateInv(s: State) {
    && (forall lock :: lock in s.cached ==> lock < |s.locks.table.refs| && Created(s, lock) == [s.cached[lock]])
    && (forall lock :: lock in s.created && s.created[lock] != [] && lock !in s.cached ==>
          lock in s.locks.holder && s.locks.holder[lock] in s.stages && s.stages[s.locks.holder[lock]].Got?)
    && (forall lock :: lock in s.created ==> |s.created[lock]| <= 1)
    && (forall i :: 0 <= i < |s.successes| ==> Created(s, s.successes[i].lock) == [s.successes[i].certificate])
  }

  ghost predicate Inv(s: State) {
    L.Inv(s.locks) && StageInv(s) && CertificateInv(s)
  }

  lemma {:induction false} BeginKeepsStages(s: State, t: nat, key: string)
    requires L.SessionInv(s.locks) && StageInv(s) && Enabled(s, Begin(t, key))
    ensures StageInv(Apply(s, Begin(t, key)))
  {
  }

  lemma {:induction false} BeginKeepsCertificates(s: State, t: nat, key: string)
    requires L.SessionInv(s.locks) && StageInv(s) && CertificateInv(s) && Enabled(s, Begin(t, key))
    ensures CertificateInv(Apply(s, Begin(t, key)))
  {
    var s' := Apply(s, Begin(t, key));
    forall lock | lock in s'.created && s'.created[lock] != [] && lock !in s'.cached
      ensures lock in s'.locks.holder && s'.locks.holder[lock] in s'.stages && s'.stages[s'.locks.holder[lock]].Got?
    {
      assert s.locks.holder[lock] in s.stages;
    }
  }

  lemma {:induction false} LockKeepsStages(s: State, t: nat)
    requires StageInv(s) && Enabled(s, Lock(t))
    ensures StageInv(Apply(s, Lock(t)))
  {
  }

  lemma {:induction false} LockKeepsCertificates(s: State, t: nat)
    requires CertificateInv(s) && Enabled(s, Lock(t))
    ensures CertificateInv(Apply(s, Lock(t)))
  {
  }

  lemma {:induction false} HolderIs(s: State, t: nat)
    requires L.SessionInv(s.locks) && Inside(s, t)
    ensures LockOf(s, t) in s.locks.holder && s.locks.holder[LockOf(s, t)] == t
    ensures forall u :: Inside(s, u) && LockOf(s, u) == LockOf(s, t) ==> u == t
  {
  }

  lemma {:induction false} OperateKeepsStages(s: State, t: nat, creation: Option<Certificate>)
    requires L.SessionInv(s.locks) && StageInv(s) && CertificateInv(s) && Enabled(s, Operate(t, creation))
    ensures StageInv(Apply(s, Operate(t, creation)))
    ensures LockOf(s, t) !in s.cached ==> Created(s, LockOf(s, t)) == []
  {
    HolderIs(s, t);
    var s' := Apply(s, Operate(t, creation));
    forall u | u in s'.stages && s'.stages[u].Got?
      ensures Inside(s', u) && Created(s', LockOf(s', u)) == [s'.stages[u].certificate]
    {
      if u != t { assert Inside(s, u) && LockOf(s, u) != LockOf(s, t); }
    }
  }

  lemma {:induction false} OperateKeepsCertificates(s: State, t: nat, creation: Option<Certificate>)
    requires CertificateInv(s) && Enabled(s, Operate(t, creation))
    requires LockOf(s, t) in s.locks.holder && s.locks.holder[LockOf(s, t)] == t
    requires LockOf(s, t) !in s.cached ==> Created(s, LockOf(s, t)) == []
    ensures CertificateInv(Apply(s, Operate(t, creation)))
  {
  }

  lemma {:induction false} RememberKeepsStages(s: State, t: nat)
    requires StageInv(s) && Enabled(s, Remember(t))
    ensures StageInv(Apply(s, Remember(t)))
  {
  }

  lemma {:induction false} RememberKeepsCertificates(s: State, t: nat)
    requires L.SessionInv(s.locks) && StageInv(s) && CertificateInv(s) && Enabled(s, Remember(t))
    requires LockOf(s, t) < |s.locks.table.refs|
    ensures CertificateInv(Apply(s, Remember(t)))
  {
    var s' := Apply(s, Remember(t));
    assert Created(s, LockOf(s, t)) == [s.stages[t].certificate];
    forall lock | lock in s'.created && s'.created[lock] != [] && lock !in s'.cached
      ensures lock in s'.locks.holder && s'.locks.holder[lock] in s'.stages && s'.stages[s'.locks.holder[lock]].Got?
    {
      HolderLockDiffers(s, t, lock);
    }
  }

  lemma {:induction false} HolderLockDiffers(s: State, t: nat, lock: nat)
    requires StageInv(s) && CertificateInv(s) && Inside(s, t)
    requires lock in s.created && s.created[lock] != [] && lock !in s.cached && lock != LockOf(s, t)
    ensures lock in s.locks.holder && s.locks.holder[lock] in s.stages && s.stages[s.locks.holder[lock]].Got?
    ensures L.SessionInv(s.locks) ==> s.locks.holder[lock] != t
  {
  }

  lemma {:induction false} UnlockKeepsStages(s: State, t: nat)
    requires StageInv(s) && Enabled(s, Unlock(t))
    ensures StageInv(Apply(s, Unlock(t)))
  {
  }

  lemma {:induction false} UnlockKeepsCertificates(s: State, t: nat)
    requires CertificateInv(s) && Enabled(s, Unlock(t))
    requires LockOf(s, t) in s.locks.holder && s.locks.holder[LockOf(s, t)] == t
    ensures CertificateInv(Apply(s, Unlock(t)))
  {
  }

  lemma {:induction false} ReleaseKeepsStages(s: State, t: nat)
    requires StageInv(s) && Enabled(s, Release(t))
    ensures StageInv(Apply(s, Release(t)))
  {
  }

  lemma {:induction false} ReleaseKeepsCertificates(s: State, t: nat)
    requires L.SessionInv(s.locks) && CertificateInv(s) && Enabled(s, Release(t))
    ensures CertificateInv(Apply(s, Release(t)))
  {
    var s' := Apply(s, Release(t));
    forall lock | lock in s'.created && s'.created[lock] != [] && lock !in s'.cached
      ensures lock in s'.locks.holder && s'.locks.holder[lock] in s'.stages && s'.stages[s'.locks.holder[lock]].Got?
    {
      assert s.locks.sessions[s.locks.holder[lock]].phase == L.Inside;
    }
  }

  lemma {:induction false} LocksKeepInv(s: State, step: Step)
    requires L.Inv(s.locks) && Enabled(s, step)
    ensures L.Inv(Apply(s, step).locks)
  {
    if LockPart(step).Some? { L.StepKeepsInv(s.locks, LockPart(step).value); }
  }

  lemma {:induction false} OperateKeeps(s: State, t: nat, creation: Option<Certificate>)
    requires L.SessionInv(s.locks) && StageInv(s) && CertificateInv(s) && Enabled(s, Operate(t, creation))
    ensures StageInv(Apply(s, Operate(t, creation))) && CertificateInv(Apply(s, Operate(t, creation)))
  {
    OperateKeepsStages(s, t, creation);
    HolderIs(s, t);
    OperateKeepsCertificates(s, t, creation);
  }

  lemma {:induction false} RememberKeeps(s: State, t: nat)
    requires L.Inv(s.locks) && StageInv(s) && CertificateInv(s) && Enabled(s, Remember(t))
    ensures StageInv(Apply(s, Remember(t))) && CertificateInv(Apply(s, Remember(t)))
  {
    RememberKeepsStages(s, t);
    L.LockMade(s.locks, t);
    RememberKeepsCertificates(s, t);
  }

  lemma {:induction false} UnlockKeeps(s: State, t: nat)
    requires L.SessionInv(s.locks) && StageInv(s) && CertificateInv(s) && Enabled(s, Unlock(t))
    ensures StageInv(Apply(s, Unlock(t))) && CertificateInv(Apply(s, Unlock(t)))
  {
    HolderIs(s, t);
    UnlockKeepsStages(s, t);
    UnlockKeepsCertificates(s, t);
  }

  lemma {:induction false} StepKeepsInv(s: State, step: Step)
    requires Inv(s) && Enabled(s, step)
    ensures Inv(Apply(s, step))
  {
    LocksKeepInv(s, step);
    match step
    case Begin(t, key) =>
      BeginKeepsStages(s, t, key);
      BeginKeepsCertificates(s, t, key);
    case Lock(t) =>
      LockKeepsStages(s, t);
      LockKeepsCertificates(s, t);
    case Operate(t, creation) => OperateKeeps(s, t, creation);
    case Remember(t) => RememberKeeps(s, t);
    case Unlock(t) => UnlockKeeps(s, t);
    case Release(t) =>
      ReleaseKeepsStages(s, t);
      ReleaseKeepsCertificates(s, t);
  }

  // ----- the method in the step system

  function Remembered(s: State, lock: nat): Option<Certificate> {
    if lock in s.cached then Some(s.cached[lock]) else None
  }

  /** The state after a thread inside has gone through the method: it operates and, unless that failed, stores
      the certificate. */
  ghost function AfterWithLock(s: State, t: nat, creation: Option<Certificate>): State
    requires Enabled(s, Operate(t, creation))
  {
    var operated := Apply(s, Operate(t, creation));
    if operated.stages[t].Got? then Apply(operated, Remember(t)) else operated
  }

  lemma {:induction false} OperatedCanRemember(s: State, t: nat, creation: Option<Certificate>)
    requires Enabled(s, Operate(t, creation))
    ensures var operated := Apply(s, Operate(t, creation));
            operated.stages[t].Got? ==> Enabled(operated, Remember(t))
  {
  }

  lemma {:induction false} AfterWithLockKeepsInv(s: State, t: nat, creation: Option<Certificate>)
    requires Inv(s) && Enabled(s, Operate(t, creation))
    ensures Inv(AfterWithLock(s, t, creation))
  {
    StepKeepsInv(s, Operate(t, creation));
    OperatedCanRemember(s, t, creation);
    RememberKeepsInv(Apply(s, Operate(t, creation)), t);
  }

  lemma {:induction false} RememberKeepsInv(s: State, t: nat)
    requires Inv(s)
    ensures Enabled(s, Remember(t)) ==> Inv(Apply(s, Remember(t)))
  {
    if Enabled(s, Remember(t)) { StepKeepsInv(s, Remember(t)); }
  }

  /** The two steps are the method: they return and remember what it returns and remembers, and create when it
      creates. */
  lemma {:induction false} WithLockIsItsSteps(s: State, t: nat, creation: Option<Certificate>)
    requires Enabled(s, Operate(t, creation))
    ensures var lock, after := LockOf(s, t), AfterWithLock(s, t, creation);
            var r := LockResult(Remembered(s, lock), creation);
            && Remembered(after, lock) == (if r.Some? then r else Remembered(s, lock))
            && after.successes == s.successes + (if r.Some? then [Success(lock, r.value)] else [])
            && Created(after, lock) ==
               Created(s, lock) + (if Remembered(s, lock).None? && r.Some? then [r.value] else [])
  {
  }

  lemma {:induction false} CachedIsCreated(s: State, lock: nat)
    requires CertificateInv(s) && lock in s.cached
    ensures Created(s, lock) == [s.cached[lock]]
  {
  }

  /** From any reachable state, a successful call leaves the certificate it returns as the only one ever created
      under its lock. */
  lemma {:induction false} WithLockCreatesOnce(s: State, t: nat, creation: Option<Certificate>)
    requires Inv(s) && Enabled(s, Operate(t, creation))
    ensures var r := LockResult(Remembered(s, LockOf(s, t)), creation);
            r.Some? ==> Created(AfterWithLock(s, t, creation), LockOf(s, t)) == [r.value]
  {
    AfterWithLockKeepsInv(s, t, creation);
    WithLockIsItsSteps(s, t, creation);
    var lock, after := LockOf(s, t), AfterWithLock(s, t, creation);
    if lock in after.cached { CachedIsCreated(after, lock); }
  }

  /** The state after the steps, or None when one of them was not possible. */
  ghost function Run(steps: seq<Step>): (s: Option<State>)
    ensures s.Some? ==> Inv(s.value)
  {
    if steps == [] then
      Some(INITIAL)
    else
      var before := Run(steps[..|steps| - 1]);
      var step := steps[|steps| - 1];
      if before.Some? && Enabled(before.value, step) then
        StepKeepsInv(before.value, step);
        Some(Apply(before.value, step))
      else
        None
  }

  /** While a lock lives, at most one certificate is created under it, and every call that succeeds under it
      returns that certificate. */
  lemma {:induction false} OneCertificatePerLock(steps: seq<Step>, lock: nat)
    ensures Run(steps).Some? ==>
              var s := Run(steps).value;
              && |Created(s, lock)| <= 1
              && forall i :: 0 <= i < |s.successes| && s.successes[i].lock == lock ==>
                   Created(s, lock) == [s.successes[i].certificate]
  {
  }
}
