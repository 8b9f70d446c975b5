/** The table of reference-counted per-key mutexes that serializes work on one routing policy or one
    certificate. Entries are created by the first user of a key and removed by the last one. */
module LockTable {
  import opened Text

  // ----- the table as a value

  /** `entries` is the map the code keeps; `refs` holds the counter of every lock ever made, by number. */
  datatype Table = Table(entries: map<string, nat>, refs: seq<int>)

  function Adjust(refs: seq<int>, id: nat, change: int): seq<int> {
    if id < |refs| then refs[id := refs[id] + change] else refs
  }

  function AcquireResult(table: Table, key: string): (Table, nat) {
    if key in table.entries then
      (Table(table.entries, Adjust(table.refs, table.entries[key], 1)), table.entries[key])
    else
      (Table(table.entries[key := |table.refs|], table.refs + [1]), |table.refs|)
  }

  function ReleaseResult(table: Table, key: string, id: nat): Table {
    var refs := Adjust(table.refs, id, -1);
    Table(if id < |refs| && refs[id] == 0 && key in table.entries && table.entries[key] == id
          then table.entries - {key} else table.entries,
          refs)
  }

  // ----- the table as the code holds it

  class Lock {
    ghost const id: nat
    var refs: int

    constructor (ghost id: nat)
      ensures this.id == id && refs == 0
    {
      this.id := id;
      refs := 0;
    }
  }

  class Locks {
    var locks: map<string, Lock>
    ghost var made: seq<Lock>

    ghost predicate Valid()
      reads this
    {
      && (forall i :: 0 <= i < |made| ==> made[i].id == i)
      && (forall k :: k in locks ==> locks[k] in made)
    }

    ghost function View(): (t: Table)
      requires Valid()
      reads this, made
      ensures forall k :: k in t.entries ==> t.entries[k] < |t.refs|
    {
      Table(Numbers(), Counters())
    }

    ghost function Numbers(): (entries: map<string, nat>)
      reads this
      ensures entries.Keys == locks.Keys
      ensures forall k :: k in locks ==> entries[k] == locks[k].id
    {
      map k | k in locks :: locks[k].id
    }

    ghost function Counters(): (refs: seq<int>)
      reads this, made
      ensures |refs| == |made|
      ensures forall i :: 0 <= i < |made| ==> refs[i] == made[i].refs
    {
      seq(|made|, i requires 0 <= i < |made| reads this, made => made[i].refs)
    }

    constructor ()
      ensures Valid() && View() == Table(map[], [])
    {
      locks := map[];
      made := [];
    }

    method AddRef(lock: Lock, change: int)
      requires Valid() && lock in made
      modifies lock
      ensures Valid() && lock.id < |made| && lock.refs == old(lock.refs) + change
      ensures View() == Table(old(View()).entries, Adjust(old(View()).refs, lock.id, change))
    {
      assert made[lock.id] == lock;
      lock.refs := lock.refs + change;
    }

    method Acquire(key: string) returns (lock: Lock)
      requires Valid()
      modifies this, made
      ensures Valid() && lock in made && View() == AcquireResult(old(View()), key).0
      ensures lock.id == AcquireResult(old(View()), key).1
      ensures made == old(made) || (fresh(lock) && made == old(made) + [lock])
    {
      if key in locks {
        lock := locks[key];
      } else {
        lock := MakeLock(key);
      }
      assert made[lock.id] == lock;
      AddRef(lock, 1);
    }

    method MakeLock(key: string) returns (lock: Lock)
      requires Valid()
      modifies this
      ensures Valid() && fresh(lock) && made == old(made) + [lock] && lock.id == |old(made)| && lock.refs == 0
      ensures View() == Table(old(View()).entries[key := lock.id], old(View()).refs + [0])
    {
      lock := new Lock(|made|);
      locks := locks[key := lock];
      made := made + [lock];
      assert Valid() by { assert forall k :: k in locks ==> locks[k] in made; }
      assert Numbers() == old(Numbers())[key := lock.id];
      assert forall i :: 0 <= i < |old(made)| ==> made[i] == old(made)[i] && made[i].refs == old(made[i].refs);
      assert Counters() == old(Counters()) + [0];
    }

    method Release(key: string, lock: Lock)
      requires Valid() && lock in made
      modifies this, lock
      ensures Valid() && made == old(made) && View() == ReleaseResult(old(View()), key, lock.id)
    {
      AddRef(lock, -1);
      SameLock(key, lock);
      if lock.refs == 0 && key in locks && locks[key] == lock {
        RemoveEntry(key);
      }
    }

    /** A lock in the table is the given one exactly when the numbers agree. */
    lemma SameLock(key: string, lock: Lock)
      requires Valid() && lock in made
      ensures lock.id < |made| && made[lock.id] == lock && View().refs[lock.id] == lock.refs
      ensures key in locks <==> key in View().entries
      ensures key in locks ==> (locks[key] == lock <==> View().entries[key] == lock.id)
    {
    }

    method RemoveEntry(key: string)
      requires Valid()
      modifies `locks
      ensures Valid() && View() == Table(old(View()).entries - {key}, old(View()).refs)
    {
      locks := locks - {key};
      assert Counters() == old(Counters());
      assert Numbers() == old(Numbers()) - {key};
    }
  }

  // ----- threads using the table, one atomic step at a time

  /** Waiting: counted in `refs`, not yet past `Lock`. Inside: holds the mutex. Leaving: past `Unlock`. */
  datatype Phase = Waiting | Inside | Leaving

  datatype Session = Session(key: string, lock: nat, phase: Phase)

  datatype State = State(table: Table, holder: map<nat, nat>, sessions: map<nat, Session>)

  datatype Step =
    | AcquireStep(thread: nat, key: string)
    | LockStep(thread: nat)
    | UnlockStep(thread: nat)
    | ReleaseStep(thread: nat)

  const INITIAL := State(Table(map[], []), map[], map[])

  ghost predicate Enabled(s: State, step: Step) {
    match step
    case AcquireStep(t, _) => t !in s.sessions
    case LockStep(t) => t in s.sessions && s.sessions[t].phase == Waiting && s.sessions[t].lock !in s.holder
    case UnlockStep(t) => t in s.sessions && s.sessions[t].phase == Inside
    case ReleaseStep(t) => t in s.sessions && s.sessions[t].phase == Leaving
  }

  ghost function Apply(s: State, step: Step): State
    requires Enabled(s, step)
  {
    match step
    case AcquireStep(t, key) =>
      var (table, lock) := AcquireResult(s.table, key);
      State(table, s.holder, s.sessions[t := Session(key, lock, Waiting)])
    case LockStep(t) =>
      State(s.table, s.holder[s.sessions[t].lock := t], s.sessions[t := s.sessions[t].(phase := Inside)])
    case UnlockStep(t) =>
      State(s.table, s.holder - {s.sessions[t].lock}, s.sessions[t := s.sessions[t].(phase := Leaving)])
    case ReleaseStep(t) =>
      State(ReleaseResult(s.table, s.sessions[t].key, s.sessions[t].lock), s.holder, s.sessions - {t})
  }

  /** The threads between acquire and release of a lock. */
  ghost function Users(s: State, lock: nat): set<nat> {
    set t | t in s.sessions && s.sessions[t].lock == lock
  }

  /** Different keys have different locks, all of them made. */
  ghost predicate EntriesDiffer(table: Table) {
    && (forall k :: k in table.entries ==> table.entries[k] < |table.refs|)
    && (forall j, k :: j in table.entries && k in table.entries && table.entries[j] == table.entries[k] ==> j == k)
  }

  /** A counter is the number of its lock's users, and locks in the table have users. */
  ghost predicate CountersExact(s: State) {
    && (forall id :: 0 <= id < |s.table.refs| ==> s.table.refs[id] == |Users(s, id)|)
    && (forall k :: k in s.table.entries && s.table.entries[k] < |s.table.refs| ==>
          s.table.refs[s.table.entries[k]] > 0)
  }

  ghost predicate TableInv(s: State) {
    EntriesDiffer(s.table) && CountersExact(s)
  }

  /** Every session uses the lock that the table has for its key. */
  ghost predicate SessionsListed(s: State) {
    forall t :: t in s.sessions ==>
      s.sessions[t].key in s.table.entries && s.table.entries[s.sessions[t].key] == s.sessions[t].lock
  }

  /** The mutex of a session inside is held by it, and mutexes are held by sessions inside. */
  ghost predicate HoldersInside(s: State) {
    && (forall t :: t in s.sessions && s.sessions[t].phase == Inside ==>
          s.sessions[t].lock in s.holder && s.holder[s.sessions[t].lock] == t)
    && (forall id :: id in s.holder ==>
          s.holder[id] in s.sessions && s.sessions[s.holder[id]].lock == id && s.sessions[s.holder[id]].phase == Inside)
  }

  ghost predicate SessionInv(s: State) {
    SessionsListed(s) && HoldersInside(s)
  }

  ghost predicate Inv(s: State) {
    TableInv(s) && SessionInv(s)
  }

  lemma {:induction false} StepKeepsInv(s: State, step: Step)
    requires Inv(s) && Enabled(s, step)
    ensures Inv(Apply(s, step))
  {
    match step
    case AcquireStep(t, key) => AcquireKeepsInv(s, t, key);
    case LockStep(t) => LockKeepsInv(s, t);
    case UnlockStep(t) => UnlockKeepsInv(s, t);
    case ReleaseStep(t) => ReleaseKeepsInv(s, t);
  }

  lemma {:induction false} LockKeepsInv(s: State, t: nat)
    requires Inv(s) && Enabled(s, LockStep(t))
    ensures Inv(Apply(s, LockStep(t)))
  {
    PhaseKeepsTable(s, Apply(s, LockStep(t)), t);
    LockKeepsSessions(s, t);
  }

  lemma {:induction false} LockKeepsSessions(s: State, t: nat)
    requires Inv(s) && Enabled(s, LockStep(t))
    ensures SessionInv(Apply(s, LockStep(t)))
  {
    LockKeepsHolders(s, t);
  }

  lemma {:induction false} LockKeepsHolders(s: State, t: nat)
    requires HoldersInside(s) && Enabled(s, LockStep(t))
    ensures HoldersInside(Apply(s, LockStep(t)))
  {
  }

  lemma {:induction false} UnlockKeepsInv(s: State, t: nat)
    requires Inv(s) && Enabled(s, UnlockStep(t))
    ensures Inv(Apply(s, UnlockStep(t)))
  {
    PhaseKeepsTable(s, Apply(s, UnlockStep(t)), t);
    UnlockKeepsSessions(s, t);
  }

  lemma {:induction false} UnlockKeepsSessions(s: State, t: nat)
    requires Inv(s) && Enabled(s, UnlockStep(t))
    ensures SessionInv(Apply(s, UnlockStep(t)))
  {
    UnlockKeepsHolders(s, t);
  }

  lemma {:induction false} UnlockKeepsHolders(s: State, t: nat)
    requires HoldersInside(s) && Enabled(s, UnlockStep(t))
    ensures HoldersInside(Apply(s, UnlockStep(t)))
  {
    var s' := Apply(s, UnlockStep(t));
    forall u | u in s'.sessions && s'.sessions[u].phase == Inside
      ensures s'.sessions[u].lock in s'.holder && s'.holder[s'.sessions[u].lock] == u
    {
      assert u in s.sessions && s.sessions[u].phase == Inside;
    }
    forall id | id in s'.holder
      ensures s'.holder[id] in s'.sessions && s'.sessions[s'.holder[id]] == s.sessions[s.holder[id]]
    {
      assert s.sessions[s.holder[id]].lock == id;
    }
  }

  lemma {:induction false} PhaseKeepsTable(s: State, s': State, t: nat)
    requires TableInv(s) && s'.table == s.table
    requires t in s.sessions && t in s'.sessions
    requires s'.sessions == s.sessions[t := s'.sessions[t]] && s'.sessions[t].lock == s.sessions[t].lock
    ensures TableInv(s')
  {
    PhaseKeepsUsers(s, s', t);
  }

  lemma {:induction false} PhaseKeepsUsers(s: State, s': State, t: nat)
    requires t in s.sessions && t in s'.sessions
    requires s'.sessions == s.sessions[t := s'.sessions[t]] && s'.sessions[t].lock == s.sessions[t].lock
    ensures forall id :: Users(s', id) == Users(s, id)
  {
  }

  lemma {:induction false} AcquireKeepsInv(s: State, t: nat, key: string)
    requires Inv(s) && Enabled(s, AcquireStep(t, key))
    ensures Inv(Apply(s, AcquireStep(t, key)))
  {
    AcquireKeepsTable(s, t, key);
    AcquireKeepsSessions(s, t, key);
  }

  lemma {:induction false} AcquireKeepsTable(s: State, t: nat, key: string)
    requires Inv(s) && Enabled(s, AcquireStep(t, key))
    ensures TableInv(Apply(s, AcquireStep(t, key)))
  {
    AcquireKeepsEntries(s.table, key);
    AcquireCounts(s, t, key);
  }

  lemma {:induction false} AcquireKeepsEntries(table: Table, key: string)
    requires EntriesDiffer(table)
    ensures EntriesDiffer(AcquireResult(table, key).0)
  {
  }

  lemma {:induction false} AcquireCounts(s: State, t: nat, key: string)
    requires Inv(s) && Enabled(s, AcquireStep(t, key))
    ensures CountersExact(Apply(s, AcquireStep(t, key)))
  {
    var s' := Apply(s, AcquireStep(t, key));
    AcquireUsers(s, t, key);
    NoUsers(s, |s.table.refs|);
    forall id | 0 <= id < |s'.table.refs| ensures s'.table.refs[id] == |Users(s', id)| {
      assert Users(s', id) == if id == s'.sessions[t].lock then Users(s, id) + {t} else Users(s, id);
    }
  }

  lemma {:induction false} AcquireKeepsSessions(s: State, t: nat, key: string)
    requires Inv(s) && Enabled(s, AcquireStep(t, key))
    ensures SessionInv(Apply(s, AcquireStep(t, key)))
  {
    AcquireKeepsListed(s, t, key);
    AcquireKeepsHolders(s, t, key);
  }

  lemma {:induction false} AcquireKeepsListed(s: State, t: nat, key: string)
    requires SessionsListed(s) && Enabled(s, AcquireStep(t, key))
    ensures SessionsListed(Apply(s, AcquireStep(t, key)))
  {
  }

  lemma {:induction false} AcquireKeepsHolders(s: State, t: nat, key: string)
    requires HoldersInside(s) && Enabled(s, AcquireStep(t, key))
    ensures HoldersInside(Apply(s, AcquireStep(t, key)))
  {
  }

  lemma {:induction false} AcquireUsers(s: State, t: nat, key: string)
    requires SessionsListed(s) && Enabled(s, AcquireStep(t, key))
    ensures var s' := Apply(s, AcquireStep(t, key));
            t !in Users(s, s'.sessions[t].lock) &&
            forall id :: Users(s', id) == if id == s'.sessions[t].lock then Users(s, id) + {t} else Users(s, id)
  {
  }

  lemma {:induction false} NoUsers(s: State, lock: nat)
    requires SessionsListed(s) && EntriesDiffer(s.table) && lock >= |s.table.refs|
    ensures Users(s, lock) == {}
  {
    forall t | t in s.sessions ensures s.sessions[t].lock < |s.table.refs| {
      assert s.sessions[t].key in s.table.entries;
    }
  }

  lemma {:induction false} ReleaseKeepsInv(s: State, t: nat)
    requires Inv(s) && Enabled(s, ReleaseStep(t))
    ensures Inv(Apply(s, ReleaseStep(t)))
  {
    ReleaseKeepsTable(s, t);
    ReleaseKeepsSessions(s, t);
  }

  lemma {:induction false} ReleaseKeepsTable(s: State, t: nat)
    requires Inv(s) && Enabled(s, ReleaseStep(t))
    ensures TableInv(Apply(s, ReleaseStep(t)))
  {
    var s' := Apply(s, ReleaseStep(t));
    ReleaseUsers(s, t);
    forall id | 0 <= id < |s'.table.refs| ensures s'.table.refs[id] == |Users(s', id)| {
      assert Users(s', id) == if id == s.sessions[t].lock then Users(s, id) - {t} else Users(s, id);
    }
  }

  lemma {:induction false} ReleaseKeepsSessions(s: State, t: nat)
    requires Inv(s) && Enabled(s, ReleaseStep(t))
    ensures SessionInv(Apply(s, ReleaseStep(t)))
  {
    ReleaseKeepsListed(s, t);
    ReleaseKeepsHolders(s, t);
  }

  lemma {:induction false} ReleaseKeepsListed(s: State, t: nat)
    requires Inv(s) && Enabled(s, ReleaseStep(t))
    ensures SessionsListed(Apply(s, ReleaseStep(t)))
  {
    forall u | u in s.sessions && u != t ensures s.sessions[u].key in Apply(s, ReleaseStep(t)).table.entries {
      OthersKeepTheEntry(s, t, u);
    }
  }

  lemma {:induction false} OthersKeepTheEntry(s: State, t: nat, u: nat)
    requires Inv(s) && Enabled(s, ReleaseStep(t)) && u in s.sessions && u != t
    ensures s.sessions[u].key in Apply(s, ReleaseStep(t)).table.entries
  {
    var s', lock := Apply(s, ReleaseStep(t)), s.sessions[t].lock;
    if s.sessions[u].key == s.sessions[t].key {
      ReleaseUsers(s, t);
      assert Users(s', lock) == Users(s, lock) - {t};
      assert u in Users(s', lock);
      assert s.table.refs[lock] - 1 == |Users(s', lock)|;
    }
  }

  lemma {:induction false} ReleaseKeepsHolders(s: State, t: nat)
    requires HoldersInside(s) && Enabled(s, ReleaseStep(t))
    ensures HoldersInside(Apply(s, ReleaseStep(t)))
  {
  }

  lemma {:induction false} ReleaseUsers(s: State, t: nat)
    requires Inv(s) && Enabled(s, ReleaseStep(t))
    ensures var s' := Apply(s, ReleaseStep(t));
            t in Users(s, s.sessions[t].lock) &&
            forall id :: Users(s', id) == if id == s.sessions[t].lock then Users(s, id) - {t} else Users(s, id)
  {
  }

  // ----- reachable states

  /** The state after the steps, or None when one of them was not possible. */
  ghost function Run(steps: seq<Step>): (s: Option<State>)
    ensures s.Some? ==> Inv(s.value)
  {
    if steps == [] then
      Some(INITIAL)
    else
      var before := Run(steps[..|steps| - 1]);
      var step := steps[|steps| - 1];
      if before.Some? && Enabled(before.value, step) then
        StepKeepsInv(before.value, step);
        Some(Apply(before.value, step))
      else
        None
  }

  /** In every reachable state: users of a key share the lock in the table, the counter is their number,
      at most one is inside, and the entry is there exactly while somebody uses it. */
  lemma {:induction false} LockDiscipline(steps: seq<Step>, key: string)
    requires Run(steps).Some?
    ensures var s := Run(steps).value;
            var users := set t | t in s.sessions && s.sessions[t].key == key;
            && (key in s.table.entries <==> users != {})
            && (key in s.table.entries ==>
                  && s.table.entries[key] < |s.table.refs|
                  && s.table.refs[s.table.entries[key]] == |users|
                  && forall t :: t in users ==> s.sessions[t].lock == s.table.entries[key])
            && (forall t, u ::
                  t in users && u in users && s.sessions[t].phase == Inside && s.sessions[u].phase == Inside ==> t == u)
  {
    var s := Run(steps).value;
    var users := set t | t in s.sessions && s.sessions[t].key == key;
    if key in s.table.entries {
      var lock := s.table.entries[key];
      forall t ensures t in users <==> t in Users(s, lock) {
        if t in Users(s, lock) {
          assert s.table.entries[s.sessions[t].key] == lock;
        }
      }
      assert users == Users(s, lock);
    }
  }

  lemma {:induction false} LockMade(s: State, t: nat)
    requires Inv(s) && t in s.sessions
    ensures s.sessions[t].lock < |s.table.refs|
  {
  }

  lemma {:induction false} MutualExclusion(s: State, t: nat, u: nat)
    requires Inv(s) && t in s.sessions && u in s.sessions && s.sessions[t].key == s.sessions[u].key
    requires s.sessions[t].phase == Inside && s.sessions[u].phase == Inside
    ensures t == u
  {
  }
}
