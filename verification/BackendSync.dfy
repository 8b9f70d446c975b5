/** Bringing the backends of a remote backend set to the desired ones, one call at a time, from a snapshot that
    may be out of date. */
module BackendSync {
  import opened Backends

  datatype Call = CreateCall(key: string) | UpdateCall(key: string) | DeleteCall(key: string)

  /** How the service answers a call that is not refused for its own reasons. `WaitFails`: the call takes effect
      but waiting for its work request fails. */
  datatype Answer = Applied | WaitFails | Rejected

  datatype Outcome = Done | NotFound | Failed

  /** The fields an update sets. */
  function Refreshed(current: Backend, b: Backend): Backend {
    current.(weight := b.weight, drain := b.drain, backup := b.backup, offline := b.offline)
  }

  predicate DetailsEqual(current: Backend, b: Backend) {
    current.weight == b.weight && current.drain == b.drain && current.backup == b.backup && current.offline == b.offline
  }

  function Outcomes(answer: Answer): Outcome {
    if answer.Applied? then Done else Failed
  }

  /** The backends of one remote backend set by resource name, with a log of the calls and of the state after each.
      The controller names what it creates by its address; others may not. */
  class BackendClient {
    var backends: map<string, Backend>
    var made: nat
    const answers: nat -> Answer
    ghost var calls: seq<Call>
    ghost var states: seq<map<string, Backend>>

    ghost predicate Valid()
      reads this
    {
      |calls| == |states| == made
    }

    constructor (backends: map<string, Backend>, answers: nat -> Answer)
      ensures Valid() && this.backends == backends && this.answers == answers && calls == []
    {
      this.backends, this.answers, made := backends, answers, 0;
      calls, states := [], [];
    }

    /** Creating a name that exists fails. */
    method Create(key: string, b: Backend) returns (r: Outcome)
      requires Valid()
      modifies this
      ensures Valid() && calls == old(calls) + [CreateCall(key)] && states == old(states) + [backends]
      ensures var answer := answers(old(made));
              if key in old(backends) || answer.Rejected? then r == Failed && backends == old(backends)
              else r == Outcomes(answer) && backends == old(backends)[key := b]
    {
      var answer := answers(made);
      if key in backends || answer.Rejected? {
        r := Failed;
      } else {
        backends := backends[key := b];
        r := Outcomes(answer);
      }
      made := made + 1;
      calls, states := calls + [CreateCall(key)], states + [backends];
    }

    method Update(key: string, b: Backend) returns (r: Outcome)
      requires Valid()
      modifies this
      ensures Valid() && calls == old(calls) + [UpdateCall(key)] && states == old(states) + [backends]
      ensures var answer := answers(old(made));
              if answer.Rejected? then r == Failed && backends == old(backends)
              else if key !in old(backends) then r == NotFound && backends == old(backends)
              else r == Outcomes(answer) && backends == old(backends)[key := Refreshed(old(backends)[key], b)]
    {
      var answer := answers(made);
      if answer.Rejected? {
        r := Failed;
      } else if key !in backends {
        r := NotFound;
      } else {
        backends := backends[key := Refreshed(backends[key], b)];
        r := Outcomes(answer);
      }
      made := made + 1;
      calls, states := calls + [UpdateCall(key)], states + [backends];
    }

    method Delete(key: string) returns (r: Outcome)
      requires Valid()
      modifies this
      ensures Valid() && calls == old(calls) + [DeleteCall(key)] && states == old(states) + [backends]
      ensures var answer := answers(old(made));
              if answer.Rejected? then r == Failed && backends == old(backends)
              else if key !in old(backends) then r == NotFound && backends == old(backends)
              else r == Outcomes(answer) && backends == old(backends) - {key}
    {
      var answer := answers(made);
      if answer.Rejected? {
        r := Failed;
      } else if key !in backends {
        r := NotFound;
      } else {
        backends := backends - {key};
        r := Outcomes(answer);
      }
      made := made + 1;
      calls, states := calls + [DeleteCall(key)], states + [backends];
    }
  }

  /** Every backend's resource name is its address. */
  ghost predicate NamedByAddress(remote: map<string, Backend>) {
    forall n :: n in remote ==> Key(remote[n]) == n
  }

  /** Every backend keeps its address, or has that of the desired one under its name. */
  ghost predicate KeepsAddresses(
      after: map<string, Backend>, before: map<string, Backend>, desired: map<string, Backend>)
  {
    forall n :: n in after ==>
      (n in before && SameAddress(after[n], before[n])) || (n in desired && SameAddress(after[n], desired[n]))
  }

  lemma {:induction false} KeepsAddressesTwice(
      after: map<string, Backend>, middle: map<string, Backend>, before: map<string, Backend>,
      first: map<string, Backend>, second: map<string, Backend>)
    requires KeepsAddresses(middle, before, first) && KeepsAddresses(after, middle, second)
    requires forall n :: n in second ==> n in first && first[n] == second[n]
    ensures KeepsAddresses(after, before, first)
  {
  }

  /** So names stay addresses. */
  lemma {:induction false} NamesStayAddresses(
      after: map<string, Backend>, before: map<string, Backend>, desired: map<string, Backend>)
    requires KeepsAddresses(after, before, desired) && NamedByAddress(before) && NamedByAddress(desired)
    ensures NamedByAddress(after)
  {
    forall n | n in after ensures Key(after[n]) == n {
      if n in before && SameAddress(after[n], before[n]) {
        assert Key(after[n]) == Key(before[n]);
      } else {
        assert Key(after[n]) == Key(desired[n]);
      }
    }
  }

  // ----- what a run keeps

  /** No delete comes before a create or an update. */
  ghost predicate DeletesComeLast(calls: seq<Call>) {
    forall i, j :: 0 <= i < j < |calls| && calls[i].DeleteCall? ==> calls[j].DeleteCall?
  }

  ghost predicate NoDeletes(calls: seq<Call>) {
    forall c :: c in calls ==> !c.DeleteCall?
  }

  /** Every state has these backends. */
  ghost predicate AllHave(states: seq<map<string, Backend>>, keys: set<string>) {
    forall s :: s in states ==> keys <= s.Keys
  }

  ghost predicate SameOutside(a: map<string, Backend>, b: map<string, Backend>, keys: set<string>) {
    forall k :: k !in keys ==> (k in a <==> k in b) && (k in a ==> a[k] == b[k])
  }

  /** Every state agrees with `start` on the backends outside `keys`. */
  ghost predicate AllLeaveAlone(states: seq<map<string, Backend>>, start: map<string, Backend>, keys: set<string>) {
    forall s :: s in states ==> SameOutside(s, start, keys)
  }

  /** The remote backends have the desired addresses and details. */
  ghost predicate Agrees(remote: map<string, Backend>, desired: map<string, Backend>) {
    remote.Keys == desired.Keys && forall k :: k in desired ==> DetailsEqual(remote[k], desired[k])
  }

  /** Nothing the snapshot lacks is there already. */
  ghost predicate NoCollision(
      snapshot: map<string, Backend>, remote: map<string, Backend>, desired: map<string, Backend>)
  {
    forall k :: k in desired && k !in snapshot ==> k !in remote
  }

  /** What the snapshot shows as right is right, and what is to go is in the snapshot. */
  ghost predicate FreshEnough(
      snapshot: map<string, Backend>, remote: map<string, Backend>, desired: map<string, Backend>)
  {
    && (forall k :: k in desired && k in snapshot && DetailsEqual(snapshot[k], desired[k]) ==>
          k in remote && DetailsEqual(remote[k], desired[k]))
    && (forall k :: k in remote && k !in desired ==> k in snapshot)
  }

  /** How the first phase leaves one desired backend. */
  ghost predicate SettledAt(
      remote: map<string, Backend>, start: map<string, Backend>, snapshot: map<string, Backend>,
      key: string, b: Backend)
  {
    && (key !in snapshot ==> key !in start)
    && (if key in snapshot && DetailsEqual(snapshot[key], b)
        then (key in remote <==> key in start) && (key in start ==> remote[key] == start[key])
        else key in remote && DetailsEqual(remote[key], b))
  }

  ghost predicate Settled(
      remote: map<string, Backend>, start: map<string, Backend>,
      snapshot: map<string, Backend>, desired: map<string, Backend>, settled: set<string>)
    requires settled <= desired.Keys
  {
    && (forall k :: k in settled ==> SettledAt(remote, start, snapshot, k, desired[k]))
    && SameOutside(remote, start, settled)
  }

  lemma {:induction false} SettledStep(
      after: map<string, Backend>, before: map<string, Backend>, start: map<string, Backend>,
      snapshot: map<string, Backend>, desired: map<string, Backend>, settled: set<string>, key: string)
    requires settled <= desired.Keys && key in desired && key !in settled
    requires Settled(before, start, snapshot, desired, settled)
    requires SameOutside(after, before, {key}) && SettledAt(after, before, snapshot, key, desired[key])
    ensures Settled(after, start, snapshot, desired, settled + {key})
  {
    forall k | k in settled ensures SettledAt(after, start, snapshot, k, desired[k]) {
      assert SettledAt(before, start, snapshot, k, desired[k]);
      assert k !in {key};
    }
    assert key !in settled && (key in before <==> key in start);
  }

  lemma {:induction false} SettledOutside(
      remote: map<string, Backend>, start: map<string, Backend>,
      snapshot: map<string, Backend>, desired: map<string, Backend>, settled: set<string>)
    requires settled <= desired.Keys && Settled(remote, start, snapshot, desired, settled)
    ensures SameOutside(remote, start, desired.Keys)
  {
  }

  /** What one step of the first phase adds to the log. */
  ghost predicate Grows(
      newCalls: seq<Call>, newStates: seq<map<string, Backend>>, start: map<string, Backend>, keys: set<string>)
  {
    NoDeletes(newCalls) && AllHave(newStates, start.Keys) && AllLeaveAlone(newStates, start, keys)
  }

  lemma {:induction false} GrowsStep(
      calls: seq<Call>, states: seq<map<string, Backend>>, start: map<string, Backend>, keys: set<string>,
      moreCalls: seq<Call>, moreStates: seq<map<string, Backend>>, before: map<string, Backend>, key: string)
    requires Grows(calls, states, start, keys) && Grows(moreCalls, moreStates, before, {key})
    requires key in keys && SameOutside(before, start, keys) && before.Keys >= start.Keys
    ensures Grows(calls + moreCalls, states + moreStates, start, keys)
  {
    forall s | s in moreStates ensures SameOutside(s, start, keys) && start.Keys <= s.Keys {
      assert SameOutside(s, before, {key}) && before.Keys <= s.Keys;
      forall k | k !in keys ensures (k in s <==> k in start) && (k in s ==> s[k] == start[k]) {
        assert k !in {key};
      }
    }
  }

  /** The same on whole logs, from position `n` on. */
  lemma {:induction false} GrowsFrom(
      n: nat, calls: seq<Call>, states: seq<map<string, Backend>>, start: map<string, Backend>, keys: set<string>,
      moreCalls: seq<Call>, moreStates: seq<map<string, Backend>>, before: map<string, Backend>, key: string)
    requires n <= |calls| == |states| && calls <= moreCalls && states <= moreStates
    requires Grows(calls[n..], states[n..], start, keys)
    requires Grows(moreCalls[|calls|..], moreStates[|calls|..], before, {key})
    requires key in keys && SameOutside(before, start, keys) && before.Keys >= start.Keys
    ensures Grows(moreCalls[n..], moreStates[n..], start, keys)
  {
    GrowsStep(calls[n..], states[n..], start, keys, moreCalls[|calls|..], moreStates[|calls|..], before, key);
    assert moreCalls[n..] == calls[n..] + moreCalls[|calls|..];
    assert moreStates[n..] == states[n..] + moreStates[|calls|..];
  }

  method UpdateBackend(client: BackendClient, key: string, b: Backend) returns (ok: bool)
    requires client.Valid()
    modifies client
    ensures client.Valid() && old(client.calls) <= client.calls && old(client.states) <= client.states
    ensures Grows(client.calls[|old(client.calls)|..], client.states[|old(client.calls)|..], old(client.backends),
                  {key})
    ensures client.backends.Keys >= old(client.backends).Keys
    ensures SameOutside(client.backends, old(client.backends), {key})
    ensures ok ==> key in client.backends && DetailsEqual(client.backends[key], b)
    ensures (forall n :: client.answers(n) == Applied) ==> ok
    ensures KeepsAddresses(client.backends, old(client.backends), map[key := b])
  {
    var r := client.Update(key, b);
    if r.NotFound? {
      var created := client.Create(key, b);
      return created.Done?;
    }
    return r.Done?;
  }

  /** One round of the first loop. */
  method SettleBackend(client: BackendClient, snapshot: map<string, Backend>, key: string, b: Backend)
    returns (ok: bool)
    requires client.Valid()
    modifies client
    ensures client.Valid() && old(client.calls) <= client.calls && old(client.states) <= client.states
    ensures Grows(client.calls[|old(client.calls)|..], client.states[|old(client.calls)|..], old(client.backends),
                  {key})
    ensures client.backends.Keys >= old(client.backends).Keys
    ensures SameOutside(client.backends, old(client.backends), {key})
    ensures ok ==> SettledAt(client.backends, old(client.backends), snapshot, key, b)
    ensures (forall n :: client.answers(n) == Applied) && !ok ==> key !in snapshot && key in old(client.backends)
    ensures KeepsAddresses(client.backends, old(client.backends), map[key := b])
  {
    if key !in snapshot {
      var r := client.Create(key, b);
      return r.Done?;
    }
    if !DetailsEqual(snapshot[key], b) {
      ok := UpdateBackend(client, key, b);
      return;
    }
    return true;
  }

  method CreateOrUpdateBackends(client: BackendClient, snapshot: map<string, Backend>, desired: map<string, Backend>)
    returns (ok: bool)
    requires client.Valid()
    modifies client
    ensures client.Valid() && old(client.calls) <= client.calls && old(client.states) <= client.states
    ensures Grows(client.calls[|old(client.calls)|..], client.states[|old(client.calls)|..], old(client.backends),
                  desired.Keys)
    ensures client.backends.Keys >= old(client.backends).Keys
    ensures SameOutside(client.backends, old(client.backends), desired.Keys)
    ensures ok ==> Settled(client.backends, old(client.backends), snapshot, desired, desired.Keys)
    ensures (forall n :: client.answers(n) == Applied) && !ok ==> !NoCollision(snapshot, old(client.backends), desired)
    ensures KeepsAddresses(client.backends, old(client.backends), desired)
  {
    ghost var start, n := client.backends, |client.calls|;
    var pending := desired.Keys;
    while pending != {}
      invariant pending <= desired.Keys
      invariant client.Valid() && old(client.calls) <= client.calls && old(client.states) <= client.states
      invariant Grows(client.calls[n..], client.states[n..], start, desired.Keys)
      invariant client.backends.Keys >= start.Keys
      invariant Settled(client.backends, start, snapshot, desired, desired.Keys - pending)
      invariant KeepsAddresses(client.backends, start, desired)
      decreases |pending|
    {
      var key :| key in pending;
      ghost var before, calls, states := client.backends, client.calls, client.states;
      assert key in before <==> key in start;
      SettledOutside(before, start, snapshot, desired, desired.Keys - pending);
      ok := SettleBackend(client, snapshot, key, desired[key]);
      GrowsFrom(n, calls, states, start, desired.Keys, client.calls, client.states, before, key);
      KeepsAddressesTwice(client.backends, before, start, desired, map[key := desired[key]]);
      if !ok { return; }
      SettledStep(client.backends, before, start, snapshot, desired, desired.Keys - pending, key);
      assert desired.Keys - pending + {key} == desired.Keys - (pending - {key});
      pending := pending - {key};
    }
    return true;
  }

  // ----- deleting, and the whole run

  /** What the second phase adds to the log. */
  ghost predicate Shrinks(
      newCalls: seq<Call>, newStates: seq<map<string, Backend>>, start: map<string, Backend>, keys: set<string>)
  {
    (forall c :: c in newCalls ==> c.DeleteCall?) && AllLeaveAlone(newStates, start, keys)
  }

  lemma {:induction false} ShrinksStep(
      calls: seq<Call>, states: seq<map<string, Backend>>, start: map<string, Backend>, keys: set<string>,
      key: string, before: map<string, Backend>, after: map<string, Backend>)
    requires Shrinks(calls, states, start, keys)
    requires key in keys && SameOutside(before, start, keys) && SameOutside(after, before, {key})
    ensures Shrinks(calls + [DeleteCall(key)], states + [after], start, keys)
    ensures SameOutside(after, start, keys)
  {
    forall k | k !in keys ensures (k in after <==> k in start) && (k in after ==> after[k] == start[k]) {
      assert k !in {key};
    }
  }

  method DeleteBackends(client: BackendClient, snapshot: map<string, Backend>, desired: map<string, Backend>)
    returns (ok: bool)
    requires client.Valid()
    modifies client
    ensures client.Valid() && old(client.calls) <= client.calls && old(client.states) <= client.states
    ensures var stale := snapshot.Keys - desired.Keys;
            && Shrinks(client.calls[|old(client.calls)|..], client.states[|old(client.calls)|..], old(client.backends),
                       stale)
            && SameOutside(client.backends, old(client.backends), stale)
            && (ok ==> stale !! client.backends.Keys)
    ensures (forall n :: client.answers(n) == Applied) ==> ok
    ensures KeepsAddresses(client.backends, old(client.backends), map[])
  {
    ghost var start, n, stale := client.backends, |client.calls|, snapshot.Keys - desired.Keys;
    var pending := snapshot.Keys;
    while pending != {}
      invariant pending <= snapshot.Keys
      invariant client.Valid() && old(client.calls) <= client.calls && old(client.states) <= client.states
      invariant Shrinks(client.calls[n..], client.states[n..], start, stale)
      invariant SameOutside(client.backends, start, stale)
      invariant (stale - pending) !! client.backends.Keys
      invariant KeepsAddresses(client.backends, start, map[])
      decreases |pending|
    {
      var key :| key in pending;
      pending := pending - {key};
      if key in desired { continue; }
      ghost var before, calls, states := client.backends, client.calls, client.states;
      var r := client.Delete(key);
      ShrinksStep(calls[n..], states[n..], start, stale, key, before, client.backends);
      assert client.calls[n..] == calls[n..] + [DeleteCall(key)];
      assert client.states[n..] == states[n..] + [client.backends];
      if r.Failed? { return false; }
    }
    return true;
  }

  /** A kept backend is there in every state, through both phases. */
  lemma {:induction false} PhasesJoin(
      calls: seq<Call>, states: seq<map<string, Backend>>, start: map<string, Backend>, middle: map<string, Backend>,
      snapshot: map<string, Backend>, desired: map<string, Backend>,
      moreCalls: seq<Call>, moreStates: seq<map<string, Backend>>)
    requires Grows(calls, states, start, desired.Keys)
    requires middle.Keys >= start.Keys && SameOutside(middle, start, desired.Keys)
    requires Shrinks(moreCalls, moreStates, middle, snapshot.Keys - desired.Keys)
    ensures DeletesComeLast(calls + moreCalls)
    ensures AllHave(states + moreStates, start.Keys * desired.Keys)
    ensures AllLeaveAlone(states + moreStates, start, desired.Keys + snapshot.Keys)
  {
    forall s | s in moreStates
      ensures start.Keys * desired.Keys <= s.Keys && SameOutside(s, start, desired.Keys + snapshot.Keys)
    {
      assert SameOutside(s, middle, snapshot.Keys - desired.Keys);
    }
  }

  lemma {:induction false} SyncResult(
      final: map<string, Backend>, middle: map<string, Backend>, start: map<string, Backend>,
      snapshot: map<string, Backend>, desired: map<string, Backend>)
    requires Settled(middle, start, snapshot, desired, desired.Keys)
    requires SameOutside(final, middle, snapshot.Keys - desired.Keys)
    requires (snapshot.Keys - desired.Keys) !! final.Keys
    ensures NoCollision(snapshot, start, desired)
    ensures Agrees(final, desired) <==> FreshEnough(snapshot, start, desired)
  {
    forall k | k in desired ensures (k in final <==> k in middle) && (k in final ==> final[k] == middle[k]) {
      assert k !in snapshot.Keys - desired.Keys;
    }
    forall k | k in desired && k !in snapshot ensures k !in start {
      assert SettledAt(middle, start, snapshot, k, desired[k]);
    }
    if FreshEnough(snapshot, start, desired) {
      forall k | k in desired ensures k in final && DetailsEqual(final[k], desired[k]) {
        assert SettledAt(middle, start, snapshot, k, desired[k]);
      }
      forall k | k in final ensures k in desired {
        assert k in desired || k in snapshot;
      }
    }
    if Agrees(final, desired) {
      forall k | k in desired && k in snapshot && DetailsEqual(snapshot[k], desired[k])
        ensures k in start && DetailsEqual(start[k], desired[k])
      {
        assert SettledAt(middle, start, snapshot, k, desired[k]);
      }
      forall k | k in start && k !in desired ensures k in snapshot {
        assert k in middle;
        assert k !in final;
      }
    }
  }

  /** From any snapshot and with any call failing: kept backends are never missing, no delete comes before a
      create or an update, and nothing else is touched. A run that reports success saw no collision, and has
      reached the desired backends exactly when the snapshot was fresh enough. */
  method SyncBackends(client: BackendClient, snapshot: map<string, Backend>, desired: map<string, Backend>)
    returns (ok: bool)
    requires client.Valid()
    modifies client
    ensures client.Valid() && old(client.calls) <= client.calls && old(client.states) <= client.states
    ensures DeletesComeLast(client.calls[|old(client.calls)|..])
    ensures AllHave(client.states[|old(client.calls)|..], old(client.backends).Keys * desired.Keys)
    ensures AllLeaveAlone(client.states[|old(client.calls)|..], old(client.backends), desired.Keys + snapshot.Keys)
    ensures ok ==>
              && NoCollision(snapshot, old(client.backends), desired)
              && (Agrees(client.backends, desired) <==> FreshEnough(snapshot, old(client.backends), desired))
    ensures (forall n :: client.answers(n) == Applied) ==>
              (ok <==> NoCollision(snapshot, old(client.backends), desired))
    ensures (forall n :: client.answers(n) == Applied) && snapshot == old(client.backends) ==>
              ok && Agrees(client.backends, desired)
    ensures KeepsAddresses(client.backends, old(client.backends), desired)
  {
    ghost var start, n := client.backends, |client.calls|;
    ok := CreateOrUpdateBackends(client, snapshot, desired);
    ghost var middle, m := client.backends, |client.calls|;
    ghost var calls, states := client.calls, client.states;
    if !ok {
      PhasesJoin(calls[n..], states[n..], start, middle, snapshot, desired, [], []);
      assert calls[n..] + [] == calls[n..] && states[n..] + [] == states[n..];
      return;
    }
    ok := DeleteBackends(client, snapshot, desired);
    KeepsAddressesTwice(client.backends, middle, start, desired, map[]);
    PhasesJoin(calls[n..], states[n..], start, middle, snapshot, desired, client.calls[m..], client.states[m..]);
    assert client.calls[n..] == calls[n..] + client.calls[m..];
    assert client.states[n..] == states[n..] + client.states[m..];
    FirstPhaseSawNoCollision(middle, start, snapshot, desired);
    if ok { SyncResult(client.backends, middle, start, snapshot, desired); }
  }

  lemma {:induction false} FirstPhaseSawNoCollision(
      middle: map<string, Backend>, start: map<string, Backend>,
      snapshot: map<string, Backend>, desired: map<string, Backend>)
    requires Settled(middle, start, snapshot, desired, desired.Keys)
    ensures NoCollision(snapshot, start, desired)
  {
    forall k | k in desired && k !in snapshot ensures k !in start {
      assert SettledAt(middle, start, snapshot, k, desired[k]);
    }
  }

  // ----- updating a backend set

  function ByKey(backends: seq<Backend>): map<string, Backend> {
    if backends == [] then map[]
    else
      var n := |backends| - 1;
      ByKey(backends[..n])[Key(backends[n]) := backends[n]]
  }

  lemma {:induction false} ByKeyHas(list: seq<Backend>)
    ensures forall k :: k in ByKey(list) ==> ByKey(list)[k] in list && Key(ByKey(list)[k]) == k
    ensures forall b :: b in list ==> Key(b) in ByKey(list)
  {
    if list != [] {
      var n := |list| - 1;
      ByKeyHas(list[..n]);
      assert list == list[..n] + [list[n]];
    }
  }

  lemma {:induction false} ByKeyOfListing(list: seq<Backend>, m: map<string, Backend>)
    requires Lists(list, m)
    ensures ByKey(list) == m
  {
    ByKeyHas(list);
    forall k | k in m ensures k in ByKey(list) && ByKey(list)[k] == m[k] {
      assert m[k] in list && Key(m[k]) == k;
    }
  }

  // ----- resource names

  /** `list` holds the remote backends, in any order. */
  ghost predicate ListsRemote(list: seq<Backend>, remote: map<string, Backend>) {
    && (forall n :: n in remote ==> remote[n] in list)
    && (forall b :: b in list ==> exists n :: n in remote && remote[n] == b)
  }

  /** The name is neither an address in use nor a wanted one. */
  ghost predicate Stranger(n: string, list: seq<Backend>, desired: map<string, Backend>) {
    n !in desired && forall b :: b in list ==> Key(b) != n
  }

  lemma {:induction false} ListedByName(list: seq<Backend>, remote: map<string, Backend>)
    requires ListsRemote(list, remote) && NamedByAddress(remote)
    ensures ByKey(list) == remote
  {
    ByKeyHas(list);
    forall k ensures k in ByKey(list) <==> k in remote
             ensures k in ByKey(list) ==> ByKey(list)[k] == remote[k] {
      if k in remote { assert remote[k] in list; }
      if k in ByKey(list) {
        var n :| n in remote && remote[n] == ByKey(list)[k];
        assert Key(remote[n]) == n;
      }
    }
  }

  /** A backend under a name that nobody uses as an address stays as it is whatever a run does, and keeps the run
      from reaching the desired backends: deleting its address finds nothing, which counts as success. */
  lemma {:induction false} StrangerSurvives(
      final: map<string, Backend>, remote: map<string, Backend>, list: seq<Backend>, desired: map<string, Backend>,
      n: string)
    requires n in remote && Stranger(n, list, desired)
    requires SameOutside(final, remote, desired.Keys + ByKey(list).Keys)
    ensures n in final && final[n] == remote[n] && !Agrees(final, desired)
    ensures !FreshEnough(ByKey(list), remote, desired)
  {
    ByKeyHas(list);
  }

  /** When backends not named by their address have strange names, an up-to-date list makes a run succeed and
      converge if and only if every backend is named by its address. */
  lemma {:induction false} NamesDecide(list: seq<Backend>, remote: map<string, Backend>, desired: map<string, Backend>)
    requires ListsRemote(list, remote)
    requires forall n :: n in remote && Key(remote[n]) != n ==> Stranger(n, list, desired)
    ensures NoCollision(ByKey(list), remote, desired) && FreshEnough(ByKey(list), remote, desired) <==>
            NamedByAddress(remote)
  {
    if NamedByAddress(remote) {
      ListedByName(list, remote);
    } else {
      var n :| n in remote && Key(remote[n]) != n;
      StrangerSurvives(remote, remote, list, desired, n);
    }
  }

  /** The update of the backend set itself carries no backends, so it leaves them as they are; then the backends
      are brought to the merged ones. `current` is what the load balancer was read to hold. */
  method UpdateBackendSet(
      client: BackendClient, busy: bool, setAnswer: Answer, current: seq<Backend>, backends: seq<Backend>)
    returns (ok: bool)
    requires client.Valid()
    modifies client
    ensures client.Valid() && old(client.calls) <= client.calls && old(client.states) <= client.states
    ensures busy || !setAnswer.Applied? ==>
              !ok && client.calls == old(client.calls) && client.backends == old(client.backends)
    ensures DeletesComeLast(client.calls[|old(client.calls)|..])
    ensures AllHave(client.states[|old(client.calls)|..], old(client.backends).Keys * Normalized(backends).Keys)
    ensures ok ==>
              && NoCollision(ByKey(current), old(client.backends), Normalized(backends))
              && (Agrees(client.backends, Normalized(backends)) <==>
                    FreshEnough(ByKey(current), old(client.backends), Normalized(backends)))
    ensures !busy && setAnswer.Applied? && (forall n :: client.answers(n) == Applied) ==>
              (ok <==> NoCollision(ByKey(current), old(client.backends), Normalized(backends)))
  {
    if busy { return false; }
    var desired := NormalizeBackendDetails(backends);
    if !setAnswer.Applied? { return false; }
    ByKeyOfListing(desired, Normalized(backends));
    ok := SyncBackends(client, ByKey(current), ByKey(desired));
  }
}
