/** The listeners of a Gateway and of its ListenerSets in order of precedence, and which of them conflict. */
module ListenerPrecedence {
  import opened Text
  import opened Precedence
  import Hostnames

  datatype Listener = Listener(name: string, port: nat, protocol: string, hostname: Option<string>)

  datatype Gateway = Gateway(namespace: string, name: string, listeners: seq<Listener>)

  datatype ListenerSet = ListenerSet(namespace: string, name: string, created: int, listeners: seq<Listener>)

  datatype Source = FromGateway | FromListenerSet

  datatype Reason = NoReason | ProtocolConflict | HostnameConflict | PortUnavailable

  datatype Effective = Effective(
    listener: Listener, source: Source, sourceNamespace: string, sourceName: string,
    conflicted: bool, reason: Reason, unsupported: bool)

  // ----- conflicts

  function Conflict(left: Listener, right: Listener): Reason {
    if left.port != right.port then NoReason
    else if left.protocol != right.protocol then ProtocolConflict
    else if Hostnames.PatternsIntersect(Hostnames.ListenerPattern(left.hostname),
                                        Hostnames.ListenerPattern(right.hostname)) then HostnameConflict
    else PortUnavailable
  }

  /** The conflict with the first of the earlier listeners that conflicts at all. */
  function FirstConflict(earlier: seq<Effective>, listener: Listener): Reason {
    if earlier == [] then NoReason
    else if Conflict(earlier[0].listener, listener) != NoReason then Conflict(earlier[0].listener, listener)
    else FirstConflict(earlier[1..], listener)
  }

  function Mark(earlier: seq<Effective>, e: Effective): Effective {
    var reason := FirstConflict(earlier, e.listener);
    if e.conflicted || reason == NoReason then e else e.(conflicted := true, reason := reason)
  }

  function MarkAll(listeners: seq<Effective>): (r: seq<Effective>)
    ensures |r| == |listeners|
    ensures forall i :: 0 <= i < |listeners| ==> r[i] == Mark(listeners[..i], listeners[i])
  {
    seq(|listeners|, i requires 0 <= i < |listeners| => Mark(listeners[..i], listeners[i]))
  }

  lemma {:induction false} FirstConflictSkips(earlier: seq<Effective>, listener: Listener, k: nat)
    requires k <= |earlier|
    requires forall j :: 0 <= j < k ==> Conflict(earlier[j].listener, listener) == NoReason
    ensures FirstConflict(earlier, listener) == FirstConflict(earlier[k..], listener)
  {
    if k > 0 {
      assert earlier[1..][k - 1..] == earlier[k..];
      FirstConflictSkips(earlier[1..], listener, k - 1);
    } else {
      assert earlier[0..] == earlier;
    }
  }

  /** Setting the flags never touches the listeners, so marking may read a list whose front is already marked. */
  lemma {:induction false} FirstConflictReadsListeners(a: seq<Effective>, b: seq<Effective>, listener: Listener)
    requires |a| == |b| && forall i :: 0 <= i < |a| ==> a[i].listener == b[i].listener
    ensures FirstConflict(a, listener) == FirstConflict(b, listener)
  {
    if a != [] { FirstConflictReadsListeners(a[1..], b[1..], listener); }
  }

  method MarkListenerConflict(listeners: array<Effective>, i: nat)
    requires i < listeners.Length
    modifies listeners
    ensures listeners[..] == old(listeners[..])[i := Mark(old(listeners[..i]), old(listeners[i]))]
  {
    if listeners[i].conflicted { return; }
    ghost var earlier := listeners[..i];
    var j := 0;
    while j < i
      invariant j <= i
      invariant listeners[..] == old(listeners[..])
      invariant forall k :: 0 <= k < j ==> Conflict(earlier[k].listener, listeners[i].listener) == NoReason
    {
      var reason := Conflict(listeners[j].listener, listeners[i].listener);
      if reason != NoReason {
        FirstConflictSkips(earlier, listeners[i].listener, j);
        listeners[i] := listeners[i].(conflicted := true, reason := reason);
        return;
      }
      j := j + 1;
    }
    FirstConflictSkips(earlier, listeners[i].listener, i);
  }

  method MarkConflicted(listeners: array<Effective>)
    modifies listeners
    ensures listeners[..] == MarkAll(old(listeners[..]))
  {
    ghost var was := listeners[..];
    var i := 0;
    while i < listeners.Length
      invariant i <= listeners.Length
      invariant forall k :: 0 <= k < i ==> listeners[k] == Mark(was[..k], was[k])
      invariant forall k :: i <= k < listeners.Length ==> listeners[k] == was[k]
    {
      FirstConflictReadsListeners(listeners[..i], was[..i], was[i].listener);
      ghost var before := listeners[..];
      MarkListenerConflict(listeners, i);
      assert forall k :: 0 <= k < listeners.Length ==> listeners[k] == listeners[..][k];
      i := i + 1;
    }
  }

  // ----- collecting

  function SetRank(s: ListenerSet): Rank {
    Rank(s.created, s.namespace + "/" + s.name)
  }

  function Unmarked(listener: Listener, source: Source, namespace: string, name: string): Effective {
    Effective(listener, source, namespace, name, false, NoReason, false)
  }

  function EntriesOf(listeners: seq<Listener>, source: Source, namespace: string, name: string): (r: seq<Effective>)
    ensures |r| == |listeners|
    ensures forall i :: 0 <= i < |r| ==> r[i] == Unmarked(listeners[i], source, namespace, name)
  {
    seq(|listeners|, i requires 0 <= i < |listeners| => Unmarked(listeners[i], source, namespace, name))
  }

  function SetEntries(sets: seq<ListenerSet>): seq<Effective> {
    if sets == [] then []
    else EntriesOf(sets[0].listeners, FromListenerSet, sets[0].namespace, sets[0].name) + SetEntries(sets[1..])
  }

  function Collect(gateway: Gateway, sets: seq<ListenerSet>): seq<Effective> {
    EntriesOf(gateway.listeners, FromGateway, gateway.namespace, gateway.name) + SetEntries(sets)
  }

  function EffectiveListeners(gateway: Gateway, sets: seq<ListenerSet>): seq<Effective> {
    MarkAll(Collect(gateway, Sort(sets, SetRank)))
  }

  lemma {:induction false} SetEntriesAppend(a: seq<ListenerSet>, b: seq<ListenerSet>)
    ensures SetEntries(a + b) == SetEntries(a) + SetEntries(b)
  {
    if a == [] {
      assert a + b == b;
    } else {
      assert (a + b)[1..] == a[1..] + b;
      SetEntriesAppend(a[1..], b);
    }
  }

  method EffectiveListenersForGateway(gateway: Gateway, listenerSets: seq<ListenerSet>)
    returns (result: array<Effective>)
    ensures fresh(result) && result[..] == EffectiveListeners(gateway, listenerSets)
  {
    var collected: seq<Effective> := [];
    for i := 0 to |gateway.listeners|
      invariant collected == EntriesOf(gateway.listeners, FromGateway, gateway.namespace, gateway.name)[..i]
    {
      collected := collected + [Unmarked(gateway.listeners[i], FromGateway, gateway.namespace, gateway.name)];
    }
    var sorted := Sort(listenerSets, SetRank);
    for i := 0 to |sorted|
      invariant collected == Collect(gateway, sorted[..i])
    {
      var s := sorted[i];
      ghost var start, entries := collected, EntriesOf(s.listeners, FromListenerSet, s.namespace, s.name);
      for j := 0 to |s.listeners|
        invariant collected == start + entries[..j]
      {
        collected := collected + [Unmarked(s.listeners[j], FromListenerSet, s.namespace, s.name)];
      }
      SetEntriesAppend(sorted[..i], [s]);
      assert sorted[..i + 1] == sorted[..i] + [s];
      assert [s][1..] == [];
    }
    assert sorted[..|sorted|] == sorted;
    result := new Effective[|collected|](i requires 0 <= i < |collected| => collected[i]);
    assert result[..] == collected;
    MarkConflicted(result);
  }

  // ----- verdicts

  /** A listener conflicts exactly when an earlier one uses its port; the reason comes from the first such one. */
  ghost predicate Verdicts(listeners: seq<Effective>) {
    forall i :: 0 <= i < |listeners| ==>
      (listeners[i].conflicted <==>
         exists j :: 0 <= j < i && listeners[j].listener.port == listeners[i].listener.port)
  }

  lemma {:induction false} FirstConflictIsByPort(earlier: seq<Effective>, listener: Listener)
    ensures FirstConflict(earlier, listener) != NoReason <==>
            exists j :: 0 <= j < |earlier| && earlier[j].listener.port == listener.port
  {
    if earlier != [] {
      FirstConflictIsByPort(earlier[1..], listener);
      if earlier[0].listener.port != listener.port {
        if j :| 0 <= j < |earlier| && earlier[j].listener.port == listener.port {
          assert earlier[1..][j - 1] == earlier[j];
        }
      }
    }
  }

  lemma {:induction false} EffectiveVerdicts(gateway: Gateway, sets: seq<ListenerSet>)
    ensures Verdicts(EffectiveListeners(gateway, sets))
  {
    var collected := Collect(gateway, Sort(sets, SetRank));
    var marked := EffectiveListeners(gateway, sets);
    CollectedUnmarked(gateway, Sort(sets, SetRank));
    forall i | 0 <= i < |marked|
      ensures marked[i].conflicted <==>
              exists j :: 0 <= j < i && marked[j].listener.port == marked[i].listener.port
    {
      FirstConflictIsByPort(collected[..i], collected[i].listener);
      assert forall j :: 0 <= j < i ==> marked[j].listener == collected[..i][j].listener;
    }
  }

  lemma {:induction false} CollectedUnmarked(gateway: Gateway, sets: seq<ListenerSet>)
    ensures forall e :: e in Collect(gateway, sets) ==> !e.conflicted && e.reason == NoReason
  {
    SetEntriesUnmarked(sets);
  }

  lemma {:induction false} SetEntriesUnmarked(sets: seq<ListenerSet>)
    ensures forall e :: e in SetEntries(sets) ==> !e.conflicted && e.reason == NoReason
  {
    if sets != [] { SetEntriesUnmarked(sets[1..]); }
  }

  /** The reported reason compares the listener with the first earlier one on its port. */
  lemma {:induction false} ReasonIsFromFirst(gateway: Gateway, sets: seq<ListenerSet>, i: nat, j: nat)
    requires j < i < |EffectiveListeners(gateway, sets)|
    requires var e := EffectiveListeners(gateway, sets);
             && e[j].listener.port == e[i].listener.port
             && forall k :: 0 <= k < j ==> e[k].listener.port != e[i].listener.port
    ensures var e := EffectiveListeners(gateway, sets);
            && e[i].conflicted && !e[j].conflicted
            && e[i].reason == (
                 if e[j].listener.protocol != e[i].listener.protocol then ProtocolConflict
                 else if Hostnames.PatternsIntersect(Hostnames.ListenerPattern(e[j].listener.hostname),
                                                     Hostnames.ListenerPattern(e[i].listener.hostname))
                 then HostnameConflict else PortUnavailable)
  {
    var collected := Collect(gateway, Sort(sets, SetRank));
    var e := EffectiveListeners(gateway, sets);
    CollectedUnmarked(gateway, Sort(sets, SetRank));
    EffectiveVerdicts(gateway, sets);
    var earlier := collected[..i];
    assert forall k :: 0 <= k < |e| ==> e[k].listener == collected[k].listener;
    forall k | 0 <= k < j ensures Conflict(earlier[k].listener, collected[i].listener) == NoReason {
      assert e[k].listener == collected[k].listener;
    }
    FirstConflictSkips(earlier, collected[i].listener, j);
    assert earlier[j..][0] == collected[j];
    assert collected[i] in collected;
  }

  // ----- programmed listeners

  /** What is programmed: neither conflicted nor unsupported. */
  function Programmed(listeners: seq<Effective>): seq<Listener> {
    if listeners == [] then []
    else
      var last := listeners[|listeners| - 1];
      Programmed(listeners[..|listeners| - 1]) + if last.conflicted || last.unsupported then [] else [last.listener]
  }

  lemma {:induction false} ProgrammedAreUnconflicted(listeners: seq<Effective>)
    ensures forall l :: l in Programmed(listeners) ==>
              exists i :: 0 <= i < |listeners| && listeners[i].listener == l && !listeners[i].conflicted
  {
    if listeners != [] {
      var init := listeners[..|listeners| - 1];
      ProgrammedAreUnconflicted(init);
      forall l | l in Programmed(listeners)
        ensures exists i :: 0 <= i < |listeners| && listeners[i].listener == l && !listeners[i].conflicted
      {
        if l in Programmed(init) {
          var i :| 0 <= i < |init| && init[i].listener == l && !init[i].conflicted;
          assert listeners[i] == init[i];
        } else {
          assert listeners[|listeners| - 1].listener == l;
        }
      }
    }
  }

  lemma {:induction false} ProgrammedPortsDiffer(listeners: seq<Effective>)
    requires Verdicts(listeners)
    ensures forall i, j :: 0 <= i < j < |Programmed(listeners)| ==>
              Programmed(listeners)[i].port != Programmed(listeners)[j].port
  {
    if listeners != [] {
      var n := |listeners| - 1;
      var init, last := listeners[..n], listeners[n];
      assert Verdicts(init) by {
        forall i | 0 <= i < n
          ensures init[i].conflicted <==> exists j :: 0 <= j < i && init[j].listener.port == init[i].listener.port
        {
          assert init[i] == listeners[i] && forall j :: 0 <= j < i ==> init[j] == listeners[j];
        }
      }
      ProgrammedPortsDiffer(init);
      ProgrammedAreUnconflicted(init);
      if !last.conflicted {
        forall l | l in Programmed(init) ensures l.port != last.listener.port {
          var i :| 0 <= i < |init| && init[i].listener == l && !init[i].conflicted;
          assert listeners[i] == init[i];
        }
      }
    }
  }

  ghost predicate PortIsServed(listeners: seq<Effective>, i: nat)
    requires i < |listeners|
  {
    exists j :: 0 <= j <= i && listeners[j].listener.port == listeners[i].listener.port && !listeners[j].conflicted
  }

  /** Whatever else is found unsupported later, the programmed listeners use distinct ports, and every port that
      is asked for has exactly one listener without a conflict: the first to ask. */
  lemma {:induction false} OneListenerPerPort(gateway: Gateway, sets: seq<ListenerSet>, checked: seq<Effective>)
    requires var e := EffectiveListeners(gateway, sets);
             |checked| == |e| && forall i :: 0 <= i < |e| ==> checked[i] == e[i].(unsupported := checked[i].unsupported)
    ensures forall i, j :: 0 <= i < j < |Programmed(checked)| ==>
              Programmed(checked)[i].port != Programmed(checked)[j].port
    ensures forall i :: 0 <= i < |checked| ==> PortIsServed(checked, i)
  {
    EffectiveVerdicts(gateway, sets);
    var e := EffectiveListeners(gateway, sets);
    assert forall i :: 0 <= i < |e| ==>
        checked[i].conflicted == e[i].conflicted && checked[i].listener == e[i].listener;
    assert Verdicts(checked) by {
      forall i | 0 <= i < |checked|
        ensures checked[i].conflicted <==>
                exists j :: 0 <= j < i && checked[j].listener.port == checked[i].listener.port
      {
        assert e[i].conflicted <==> exists j :: 0 <= j < i && e[j].listener.port == e[i].listener.port;
      }
    }
    ProgrammedPortsDiffer(checked);
    forall i | 0 <= i < |checked| ensures PortIsServed(checked, i) {
      FirstOnPort(checked, i);
    }
  }

  lemma {:induction false} FirstOnPort(listeners: seq<Effective>, i: nat)
    requires Verdicts(listeners) && i < |listeners|
    ensures PortIsServed(listeners, i)
    decreases i
  {
    if listeners[i].conflicted {
      var j :| 0 <= j < i && listeners[j].listener.port == listeners[i].listener.port;
      FirstOnPort(listeners, j);
    }
  }

  // ----- order and later sets

  /** Verdicts do not depend on the order the ListenerSets are listed in. */
  lemma {:induction false} ListingOrderIsIrrelevant(gateway: Gateway, a: seq<ListenerSet>, b: seq<ListenerSet>)
    requires multiset(a) == multiset(b) && DistinctRanks(a, SetRank)
    ensures EffectiveListeners(gateway, a) == EffectiveListeners(gateway, b)
  {
    SortIgnoresOrder(a, b, SetRank);
  }

  /** The sets that take precedence over `s`. */
  function Earlier(sets: seq<ListenerSet>, s: ListenerSet): seq<ListenerSet> {
    if sets == [] then []
    else (if Before(SetRank(sets[0]), SetRank(s)) then [sets[0]] else []) + Earlier(sets[1..], s)
  }

  lemma {:induction false} NoneEarlier(sets: seq<ListenerSet>, s: ListenerSet)
    requires forall x :: x in sets ==> !Before(SetRank(x), SetRank(s))
    ensures Earlier(sets, s) == []
  {
    if sets != [] { NoneEarlier(sets[1..], s); }
  }

  lemma {:induction false} NoneBefore(sets: seq<ListenerSet>, s: ListenerSet)
    requires Sorted(sets, SetRank) && sets != [] && !Before(SetRank(sets[0]), SetRank(s))
    ensures Earlier(sets, s) == []
  {
    forall x | x in sets ensures !Before(SetRank(x), SetRank(s)) {
      BeforeIsStrictTotal(SetRank(sets[0]), SetRank(sets[0]));
      Precedence.NotAfterTransitive(SetRank(s), SetRank(sets[0]), SetRank(x));
    }
    NoneEarlier(sets, s);
  }

  /** Inserting `s` splits the sorted list into what precedes it and the rest. */
  ghost predicate SplitsAt(sets: seq<ListenerSet>, s: ListenerSet, rest: seq<ListenerSet>) {
    sets == Earlier(sets, s) + rest && Insert(s, sets, SetRank) == Earlier(sets, s) + ([s] + rest)
  }

  lemma {:induction false} SplitStep(sets: seq<ListenerSet>, s: ListenerSet, rest: seq<ListenerSet>)
    requires sets != [] && Before(SetRank(sets[0]), SetRank(s)) && SplitsAt(sets[1..], s, rest)
    ensures SplitsAt(sets, s, rest)
  {
    var first, tail := [sets[0]], sets[1..];
    assert sets == first + tail;
    assert Earlier(sets, s) == first + Earlier(tail, s);
    assert first + (Earlier(tail, s) + rest) == first + Earlier(tail, s) + rest;
    assert first + (Earlier(tail, s) + ([s] + rest)) == first + Earlier(tail, s) + ([s] + rest);
  }

  lemma {:induction false} InsertSplits(sets: seq<ListenerSet>, s: ListenerSet) returns (rest: seq<ListenerSet>)
    requires Sorted(sets, SetRank)
    ensures SplitsAt(sets, s, rest)
  {
    rest := sets;
    if sets != [] && Before(SetRank(sets[0]), SetRank(s)) {
      TailKeeps(sets, SetRank);
      rest := InsertSplits(sets[1..], s);
      SplitStep(sets, s, rest);
    } else if sets != [] {
      NoneBefore(sets, s);
    }
  }

  lemma {:induction false} MarkAllPrefix(front: seq<Effective>, a: seq<Effective>, b: seq<Effective>)
    ensures MarkAll(front + a)[..|front|] == MarkAll(front + b)[..|front|]
  {
    forall i | 0 <= i < |front| ensures MarkAll(front + a)[i] == MarkAll(front + b)[i] {
      assert (front + a)[..i] == front[..i] == (front + b)[..i];
    }
  }

  lemma {:induction false} SortWith(sets: seq<ListenerSet>, s: ListenerSet)
    requires DistinctRanks(sets + [s], SetRank)
    ensures Sort(sets + [s], SetRank) == Insert(s, Sort(sets, SetRank), SetRank)
  {
    assert multiset(sets + [s]) == multiset([s] + sets);
    SortIgnoresOrder(sets + [s], [s] + sets, SetRank);
    assert ([s] + sets)[1..] == sets;
  }

  lemma {:induction false} CollectAppend(gateway: Gateway, a: seq<ListenerSet>, b: seq<ListenerSet>)
    ensures Collect(gateway, a + b) == Collect(gateway, a) + SetEntries(b)
  {
    SetEntriesAppend(a, b);
  }

  /** Adding a ListenerSet leaves the verdicts of the Gateway and of every ListenerSet before it as they were. */
  lemma {:induction false} LaterSetChangesNoVerdict(gateway: Gateway, sets: seq<ListenerSet>, s: ListenerSet)
    requires DistinctRanks(sets + [s], SetRank)
    ensures var n := |Collect(gateway, Earlier(Sort(sets, SetRank), s))|;
            && n <= |EffectiveListeners(gateway, sets)| && n <= |EffectiveListeners(gateway, sets + [s])|
            && EffectiveListeners(gateway, sets + [s])[..n] == EffectiveListeners(gateway, sets)[..n]
  {
    var sorted := Sort(sets, SetRank);
    var earlier := Earlier(sorted, s);
    SortSorts(sets, SetRank);
    var rest := InsertSplits(sorted, s);
    SortWith(sets, s);
    CollectAppend(gateway, earlier, [s] + rest);
    CollectAppend(gateway, earlier, rest);
    MarkAllPrefix(Collect(gateway, earlier), SetEntries([s] + rest), SetEntries(rest));
  }
}
