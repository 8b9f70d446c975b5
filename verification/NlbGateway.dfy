/** Programming the listeners of a Network Load Balancer for a Gateway: each listener with its backend set first,
    then the removal of what an earlier run left behind. */
module NlbGateway {
  import opened Text
  import opened NameLists
  import opened ListenerPrecedence

  const TCP_IDLE_TIMEOUT_SECONDS := 360
  const UDP_IDLE_TIMEOUT_SECONDS := 120

  datatype RemoteListener = RemoteListener(
    protocol: string, port: nat, backendSet: string, tcpIdleTimeout: nat, udpIdleTimeout: nat)

  datatype Remote = Remote(listeners: map<string, RemoteListener>, backendSets: set<string>)

  datatype Answer = Applied | WaitFails | Rejected

  // ----- names and details

  function Underscored(s: string): (t: string)
    ensures |t| == |s|
    ensures forall i :: 0 <= i < |s| ==> t[i] == if s[i] == '-' then '_' else s[i]
  {
    if s == "" then "" else [if s[0] == '-' then '_' else s[0]] + Underscored(s[1..])
  }

  function BackendSetName(listenerName: string): string {
    "bs_" + Underscored(listenerName)
  }

  function ListenerProtocol(protocol: string): Option<string> {
    if protocol == "TCP" then Some("TCP") else if protocol == "UDP" then Some("UDP") else None
  }

  predicate Preserved(protocol: string) {
    ListenerProtocol(protocol).Some? || protocol == "TLS"
  }

  function Details(protocol: string, port: nat, backendSet: string): RemoteListener {
    RemoteListener(protocol, port, backendSet,
                   if protocol == "TCP" then TCP_IDLE_TIMEOUT_SECONDS else 0,
                   if protocol == "UDP" then UDP_IDLE_TIMEOUT_SECONDS else 0)
  }

  predicate ListenerMatches(actual: RemoteListener, protocol: string, port: nat, backendSet: string) {
    && actual.protocol == protocol && actual.port == port && actual.backendSet == backendSet
    && (protocol == "TCP" ==> actual.tcpIdleTimeout == TCP_IDLE_TIMEOUT_SECONDS)
    && (protocol == "UDP" ==> actual.udpIdleTimeout == UDP_IDLE_TIMEOUT_SECONDS)
  }

  function DesiredListenerNames(listeners: seq<Listener>): set<string> {
    set l | l in listeners && Preserved(l.protocol) :: l.name
  }

  function DesiredBackendSetNames(listeners: seq<Listener>): set<string> {
    set l | l in listeners && Preserved(l.protocol) :: BackendSetName(l.name)
  }

  // ----- what is kept

  /** Every listener's backend set exists. */
  ghost predicate Intact(remote: Remote) {
    forall l :: l in remote.listeners ==> remote.listeners[l].backendSet in remote.backendSets
  }

  /** The listeners of this Gateway use the sets named after them; all others use sets of other names. */
  ghost predicate Conventional(remote: Remote, own: set<string>) {
    forall l :: l in remote.listeners ==>
      if l in own then remote.listeners[l].backendSet == BackendSetName(l)
      else remote.listeners[l].backendSet !in OwnSets(own)
  }

  function OwnSets(own: set<string>): set<string> {
    set n | n in own :: BackendSetName(n)
  }

  ghost predicate Kept(remote: Remote, own: set<string>) {
    Intact(remote) && Conventional(remote, own)
  }

  /** All names the Gateway's listeners ever carry: clean, and told apart by their backend sets. */
  ghost predicate NamesOfOneGateway(own: set<string>) {
    (forall n :: n in own ==> Clean(n)) &&
    (forall a, b :: a in own && b in own && BackendSetName(a) == BackendSetName(b) ==> a == b)
  }

  /** The two annotations list the listener and the backend-set names of one earlier listener list. */
  ghost predicate Annotated(listenerNames: string, backendSetNames: string, own: set<string>) {
    AnnotatedNames(listenerNames) <= own && AnnotatedNames(backendSetNames) == OwnSets(AnnotatedNames(listenerNames))
  }

  /** Outside `names` the listeners are the same, and no backend set is gone. */
  ghost predicate Touches(after: Remote, before: Remote, names: set<string>) {
    && before.backendSets <= after.backendSets
    && forall l :: l !in names ==>
         && (l in after.listeners <==> l in before.listeners)
         && (l in before.listeners ==> after.listeners[l] == before.listeners[l])
  }

  lemma {:induction false} TouchesStep(after: Remote, middle: Remote, before: Remote, names: set<string>, name: string)
    requires Touches(middle, before, names) && Touches(after, middle, {name})
    ensures Touches(after, before, names + {name})
  {
    forall l | l !in names + {name}
      ensures (l in after.listeners <==> l in before.listeners)
      ensures l in before.listeners ==> after.listeners[l] == before.listeners[l]
    {
      assert l !in names && l !in {name};
    }
  }

  /** The listeners of others are as they were. */
  ghost predicate OthersStay(after: Remote, before: Remote, own: set<string>) {
    forall l :: l in before.listeners && l !in own ==>
      l in after.listeners && after.listeners[l] == before.listeners[l]
  }

  ghost predicate AllKept(states: seq<Remote>, own: set<string>) {
    forall s :: s in states ==> Kept(s, own)
  }

  /** Names without underscores are told apart. */
  lemma {:induction false} BackendSetNameInjective(a: string, b: string)
    requires '_' !in a && '_' !in b && BackendSetName(a) == BackendSetName(b)
    ensures a == b
  {
    assert BackendSetName(a)[3..] == Underscored(a) && BackendSetName(b)[3..] == Underscored(b);
    forall i | 0 <= i < |a| ensures a[i] == b[i] {
      assert Underscored(a)[i] == Underscored(b)[i];
    }
  }

  lemma {:induction false} BackendSetNameIsClean(name: string)
    requires Clean(name)
    ensures Clean(BackendSetName(name))
  {
    var text := BackendSetName(name);
    assert text[0] == 'b' && text[|text| - 1] == Underscored(name)[|name| - 1];
    assert forall i :: 3 <= i < |text| ==> text[i] == Underscored(name)[i - 3];
  }

  // ----- the remote load balancer

  /** Creating what exists and changing what does not exist fails; the service does not guard references. */
  class NlbClient {
    var remote: Remote
    var made: nat
    const answers: nat -> Answer
    ghost var states: seq<Remote>

    constructor (remote: Remote, answers: nat -> Answer)
      ensures this.remote == remote && this.answers == answers && states == []
    {
      this.remote, this.answers, made, states := remote, answers, 0, [];
    }

    method CreateBackendSet(name: string) returns (ok: bool)
      modifies this
      ensures states == old(states) + [remote]
      ensures if name in old(remote).backendSets || answers(old(made)).Rejected? then !ok && remote == old(remote)
              else (ok <==> answers(old(made)).Applied?) &&
                   remote == old(remote).(backendSets := old(remote).backendSets + {name})
    {
      var answer := answers(made);
      ok := name !in remote.backendSets && answer.Applied?;
      if name !in remote.backendSets && !answer.Rejected? {
        remote := remote.(backendSets := remote.backendSets + {name});
      }
      made, states := made + 1, states + [remote];
    }

    method PutListener(name: string, details: RemoteListener, create: bool) returns (ok: bool)
      modifies this
      ensures states == old(states) + [remote]
      ensures if (name in old(remote).listeners) == create || answers(old(made)).Rejected?
              then !ok && remote == old(remote)
              else (ok <==> answers(old(made)).Applied?) &&
                   remote == old(remote).(listeners := old(remote).listeners[name := details])
    {
      var answer := answers(made);
      ok := (name in remote.listeners) != create && answer.Applied?;
      if (name in remote.listeners) != create && !answer.Rejected? {
        remote := remote.(listeners := remote.listeners[name := details]);
      }
      made, states := made + 1, states + [remote];
    }

    method DeleteListener(name: string) returns (ok: bool)
      modifies this
      ensures states == old(states) + [remote]
      ensures if name !in old(remote).listeners || answers(old(made)).Rejected? then !ok && remote == old(remote)
              else (ok <==> answers(old(made)).Applied?) &&
                   remote == old(remote).(listeners := old(remote).listeners - {name})
    {
      var answer := answers(made);
      ok := name in remote.listeners && answer.Applied?;
      if name in remote.listeners && !answer.Rejected? {
        remote := remote.(listeners := remote.listeners - {name});
      }
      made, states := made + 1, states + [remote];
    }

    /** Others change their part of the load balancer. */
    method ChangeOthers(others: Others, own: set<string>)
      modifies this
      ensures remote == WithOthers(old(remote), others, own) && states == old(states) + [remote]
    {
      remote := WithOthers(remote, others, own);
      states := states + [remote];
    }

    method DeleteBackendSet(name: string) returns (ok: bool)
      modifies this
      ensures states == old(states) + [remote]
      ensures if name !in old(remote).backendSets || answers(old(made)).Rejected? then !ok && remote == old(remote)
              else (ok <==> answers(old(made)).Applied?) &&
                   remote == old(remote).(backendSets := old(remote).backendSets - {name})
    {
      var answer := answers(made);
      ok := name in remote.backendSets && answer.Applied?;
      if name in remote.backendSets && !answer.Rejected? {
        remote := remote.(backendSets := remote.backendSets - {name});
      }
      made, states := made + 1, states + [remote];
    }
  }

  // ----- reconciling listeners

  ghost predicate IsProgrammed(remote: Remote, l: Listener) {
    && l.name in remote.listeners && ListenerProtocol(l.protocol).Some?
    && ListenerMatches(remote.listeners[l.name], ListenerProtocol(l.protocol).value, l.port, BackendSetName(l.name))
  }

  ghost predicate AllProgrammed(remote: Remote, listeners: seq<Listener>) {
    forall l :: l in listeners ==> IsProgrammed(remote, l)
  }

  // The load balancer is read before the run starts, and `nlb` is what was read then. It may be out of date.

  /** A backend set that was read is still there, unless its listener was read too. */
  ghost predicate SetSeen(nlb: Remote, remote: Remote, name: string) {
    BackendSetName(name) in nlb.backendSets ==> BackendSetName(name) in remote.backendSets || name in nlb.listeners
  }

  /** A listener that was read is still as it was. */
  ghost predicate ListenerSeen(nlb: Remote, remote: Remote, name: string) {
    name in nlb.listeners ==> name in remote.listeners && remote.listeners[name] == nlb.listeners[name]
  }

  method ReconcileListenerBackendSet(client: NlbClient, nlb: Remote, listener: Listener, ghost own: set<string>)
    returns (ok: bool)
    modifies client
    ensures old(client.states) <= client.states
    ensures Kept(old(client.remote), own) ==>
              AllKept(client.states[|old(client.states)|..], own) && Kept(client.remote, own)
    ensures client.remote.listeners == old(client.remote.listeners)
    ensures client.remote.backendSets >= old(client.remote.backendSets)
    ensures var name := BackendSetName(listener.name);
            if name in nlb.backendSets then ok && client.remote == old(client.remote)
            else
              && (ok ==> name in client.remote.backendSets)
              && ((forall n :: client.answers(n) == Applied) ==>
                    client.remote == old(client.remote).(backendSets := old(client.remote.backendSets) + {name}) &&
                    (ok <==> name !in old(client.remote.backendSets)))
  {
    var name := BackendSetName(listener.name);
    if name in nlb.backendSets { return true; }
    ok := client.CreateBackendSet(name);
  }

  /** What reconciling a listener makes of the load balancer when every call is applied. */
  function ReconcileOutcome(remote: Remote, nlb: Remote, listener: Listener): Remote {
    var protocol, backendSet := ListenerProtocol(listener.protocol), BackendSetName(listener.name);
    if protocol.None? || (backendSet !in nlb.backendSets && backendSet in remote.backendSets) then remote
    else
      var prepared := if backendSet in nlb.backendSets then remote
                      else remote.(backendSets := remote.backendSets + {backendSet});
      if listener.name in nlb.listeners &&
         ListenerMatches(nlb.listeners[listener.name], protocol.value, listener.port, backendSet) then prepared
      else if (listener.name in nlb.listeners) != (listener.name in remote.listeners) then prepared
      else
        var details := Details(protocol.value, listener.port, backendSet);
        prepared.(listeners := prepared.listeners[listener.name := details])
  }

  method ReconcileListener(client: NlbClient, nlb: Remote, listener: Listener, ghost own: set<string>)
    returns (ok: bool)
    requires listener.name in own
    modifies client
    ensures old(client.states) <= client.states
    ensures Kept(old(client.remote), own) && SetSeen(nlb, old(client.remote), listener.name) ==>
              AllKept(client.states[|old(client.states)|..], own) && Kept(client.remote, own)
    ensures Touches(client.remote, old(client.remote), {listener.name})
    ensures ok && ListenerSeen(nlb, old(client.remote), listener.name) ==> IsProgrammed(client.remote, listener)
    ensures (forall n :: client.answers(n) == Applied) ==>
              client.remote == ReconcileOutcome(old(client.remote), nlb, listener)
  {
    var protocol := ListenerProtocol(listener.protocol);
    if protocol.None? { return false; }
    ok := ReconcileListenerBackendSet(client, nlb, listener, own);
    if !ok { return; }
    var backendSet := BackendSetName(listener.name);
    if listener.name in nlb.listeners &&
       ListenerMatches(nlb.listeners[listener.name], protocol.value, listener.port, backendSet)
    {
      return true;
    }
    ok := client.PutListener(
      listener.name, Details(protocol.value, listener.port, backendSet), listener.name !in nlb.listeners);
  }

  /** With every call applied, reconciling a listener keeps all backend sets in place if and only if its own set,
      when it was read, is still there, or the listener was read too. */
  lemma {:induction false} ReconcileIsExact(remote: Remote, nlb: Remote, listener: Listener, own: set<string>)
    requires Kept(remote, own) && listener.name in own && ListenerProtocol(listener.protocol).Some?
    ensures Intact(ReconcileOutcome(remote, nlb, listener)) <==> SetSeen(nlb, remote, listener.name)
  {
    var after, name := ReconcileOutcome(remote, nlb, listener), listener.name;
    if !SetSeen(nlb, remote, name) {
      assert name !in remote.listeners;
      assert name in after.listeners && after.listeners[name].backendSet == BackendSetName(name);
    }
  }

  // ----- removing what is missing

  /** `candidates` limits the removal when given. */
  predicate Removable(name: string, desired: set<string>, candidates: Option<set<string>>) {
    name !in desired && (candidates.Some? ==> name in candidates.value)
  }

  method RemoveMissingListeners(
      client: NlbClient, current: set<string>, desired: set<string>, candidates: Option<set<string>>,
      ghost own: set<string>)
    returns (ok: bool)
    modifies client
    ensures old(client.states) <= client.states
    ensures Kept(old(client.remote), own) ==>
              AllKept(client.states[|old(client.states)|..], own) && Kept(client.remote, own)
    ensures client.remote.backendSets == old(client.remote.backendSets)
    ensures forall l :: l in client.remote.listeners ==>
              l in old(client.remote.listeners) && client.remote.listeners[l] == old(client.remote.listeners)[l]
    ensures forall l :: l in old(client.remote.listeners) && (l !in current || !Removable(l, desired, candidates)) ==>
              l in client.remote.listeners
    ensures ok ==> forall l :: l in current && Removable(l, desired, candidates) ==> l !in client.remote.listeners
  {
    ghost var n := |client.states|;
    var pending := current;
    while pending != {}
      invariant pending <= current
      invariant old(client.states) <= client.states
      invariant Kept(old(client.remote), own) ==> AllKept(client.states[n..], own) && Kept(client.remote, own)
      invariant client.remote.backendSets == old(client.remote.backendSets)
      invariant forall l :: l in client.remote.listeners ==>
                  l in old(client.remote.listeners) && client.remote.listeners[l] == old(client.remote.listeners)[l]
      invariant forall l ::
                  l in old(client.remote.listeners) && (l !in current || !Removable(l, desired, candidates)) ==>
                  l in client.remote.listeners
      invariant forall l :: l in current - pending && Removable(l, desired, candidates) ==>
                  l !in client.remote.listeners
      decreases |pending|
    {
      var name :| name in pending;
      pending := pending - {name};
      if !Removable(name, desired, candidates) { continue; }
      ok := client.DeleteListener(name);
      if !ok { return; }
    }
    return true;
  }

  /** No listener uses a backend set that is to go. */
  ghost predicate Unused(remote: Remote, current: set<string>, desired: set<string>, candidates: Option<set<string>>) {
    forall l :: l in remote.listeners ==>
      || !Removable(remote.listeners[l].backendSet, desired, candidates)
      || remote.listeners[l].backendSet !in current
  }

  /** A set that nobody uses can go. */
  method RemoveMissingBackendSets(
      client: NlbClient, current: set<string>, desired: set<string>, candidates: Option<set<string>>,
      ghost own: set<string>)
    returns (ok: bool)
    modifies client
    ensures old(client.states) <= client.states
    ensures Kept(old(client.remote), own) && Unused(old(client.remote), current, desired, candidates) ==>
              AllKept(client.states[|old(client.states)|..], own) && Kept(client.remote, own)
    ensures client.remote.listeners == old(client.remote.listeners)
    ensures forall b :: b in old(client.remote.backendSets) && (b !in current || !Removable(b, desired, candidates)) ==>
              b in client.remote.backendSets
    ensures ok ==> forall b :: b in current && Removable(b, desired, candidates) ==> b !in client.remote.backendSets
  {
    ghost var n := |client.states|;
    var pending := current;
    while pending != {}
      invariant pending <= current
      invariant old(client.states) <= client.states
      invariant Kept(old(client.remote), own) && Unused(old(client.remote), current, desired, candidates) ==>
                  AllKept(client.states[n..], own) && Kept(client.remote, own)
      invariant client.remote.listeners == old(client.remote.listeners)
      invariant forall b ::
                  b in old(client.remote.backendSets) && (b !in current || !Removable(b, desired, candidates)) ==>
                  b in client.remote.backendSets
      invariant forall b :: b in current - pending && Removable(b, desired, candidates) ==>
                  b !in client.remote.backendSets
      invariant client.remote.backendSets <= old(client.remote.backendSets)
      decreases |pending|
    {
      var name :| name in pending;
      pending := pending - {name};
      if !Removable(name, desired, candidates) { continue; }
      ok := client.DeleteBackendSet(name);
      if !ok { return; }
    }
    return true;
  }

  // ----- programming a gateway

  function Managed(listeners: seq<Listener>): (r: seq<Listener>)
    ensures forall l :: l in r <==> l in listeners && ListenerProtocol(l.protocol).Some?
  {
    if listeners == [] then []
    else
      (if ListenerProtocol(listeners[0].protocol).Some? then [listeners[0]] else []) + Managed(listeners[1..])
  }

  ghost predicate UniqueListenerNames(listeners: seq<Listener>) {
    forall i, j :: 0 <= i < j < |listeners| ==> listeners[i].name != listeners[j].name
  }

  lemma {:induction false} ManagedUnique(listeners: seq<Listener>)
    requires UniqueListenerNames(listeners)
    ensures UniqueListenerNames(Managed(listeners))
  {
    if listeners != [] {
      ManagedUnique(listeners[1..]);
      var rest := Managed(listeners[1..]);
      forall i | 0 <= i < |rest| ensures rest[i].name != listeners[0].name {
        assert rest[i] in rest && rest[i] in listeners[1..];
      }
    }
  }

  function Names(listeners: seq<Listener>): set<string> {
    set l | l in listeners :: l.name
  }

  lemma {:induction false} StillProgrammed(after: Remote, before: Remote, done: seq<Listener>, next: Listener)
    requires AllProgrammed(before, done) && next.name !in Names(done)
    requires Touches(after, before, {next.name}) && IsProgrammed(after, next)
    ensures AllProgrammed(after, done + [next])
  {
    forall l | l in done ensures IsProgrammed(after, l) {
      assert l.name in Names(done) && l.name !in {next.name};
    }
  }

  lemma {:induction false} NotYetNamed(listeners: seq<Listener>, i: nat)
    requires UniqueListenerNames(listeners) && i < |listeners|
    ensures listeners[i].name !in Names(listeners[..i])
    ensures Names(listeners[..i + 1]) == Names(listeners[..i]) + {listeners[i].name}
  {
    assert listeners[..i + 1] == listeners[..i] + [listeners[i]];
  }

  lemma {:induction false} NamesOfPrefix(listeners: seq<Listener>, i: nat)
    requires i <= |listeners|
    ensures Names(listeners[..i]) <= Names(listeners)
  {
  }

  ghost predicate SetsSeen(nlb: Remote, remote: Remote, listeners: seq<Listener>) {
    forall l :: l in listeners ==> SetSeen(nlb, remote, l.name)
  }

  ghost predicate ListenersSeen(nlb: Remote, remote: Remote, listeners: seq<Listener>) {
    forall l :: l in listeners ==> ListenerSeen(nlb, remote, l.name)
  }

  lemma {:induction false} StillSeen(nlb: Remote, after: Remote, before: Remote, names: set<string>, l: Listener)
    requires Touches(after, before, names)
    ensures SetSeen(nlb, before, l.name) ==> SetSeen(nlb, after, l.name)
    ensures l.name !in names && ListenerSeen(nlb, before, l.name) ==> ListenerSeen(nlb, after, l.name)
  {
  }

  /** The first `i` listeners are done. */
  ghost predicate Progress(nlb: Remote, now: Remote, start: Remote, managed: seq<Listener>, i: nat)
    requires i <= |managed|
  {
    && Touches(now, start, Names(managed[..i]))
    && (ListenersSeen(nlb, start, managed) ==> AllProgrammed(now, managed[..i]))
  }

  lemma {:induction false} ProgressStep(
      nlb: Remote, after: Remote, before: Remote, start: Remote, managed: seq<Listener>, i: nat)
    requires UniqueListenerNames(managed) && i < |managed| && Progress(nlb, before, start, managed, i)
    requires Touches(after, before, {managed[i].name})
    requires ListenerSeen(nlb, before, managed[i].name) ==> IsProgrammed(after, managed[i])
    ensures Progress(nlb, after, start, managed, i + 1)
  {
    NotYetNamed(managed, i);
    TouchesStep(after, before, start, Names(managed[..i]), managed[i].name);
    if ListenersSeen(nlb, start, managed) {
      assert managed[i] in managed;
      StillSeen(nlb, before, start, Names(managed[..i]), managed[i]);
      StillProgrammed(after, before, managed[..i], managed[i]);
      assert managed[..i + 1] == managed[..i] + [managed[i]];
    }
  }

  lemma {:induction false} TouchedInAll(
      after: Remote, before: Remote, start: Remote, managed: seq<Listener>, i: nat)
    requires i < |managed| && Touches(before, start, Names(managed[..i])) && Touches(after, before, {managed[i].name})
    ensures Touches(after, start, Names(managed))
  {
    TouchesStep(after, before, start, Names(managed[..i]), managed[i].name);
    NamesOfPrefix(managed, i);
    assert managed[i].name in Names(managed);
  }

  method ReconcileListeners(client: NlbClient, nlb: Remote, managed: seq<Listener>, ghost own: set<string>)
    returns (ok: bool)
    requires UniqueListenerNames(managed) && Names(managed) <= own
    modifies client
    ensures old(client.states) <= client.states
    ensures Kept(old(client.remote), own) && SetsSeen(nlb, old(client.remote), managed) ==>
              AllKept(client.states[|old(client.states)|..], own) && Kept(client.remote, own)
    ensures Touches(client.remote, old(client.remote), Names(managed))
    ensures ok && ListenersSeen(nlb, old(client.remote), managed) ==> AllProgrammed(client.remote, managed)
  {
    ghost var start, n := client.remote, |client.states|;
    for i := 0 to |managed|
      invariant old(client.states) <= client.states
      invariant Kept(start, own) && SetsSeen(nlb, start, managed) ==>
                  AllKept(client.states[n..], own) && Kept(client.remote, own)
      invariant Progress(nlb, client.remote, start, managed, i)
    {
      ghost var before := client.remote;
      assert managed[i] in managed && managed[i].name in Names(managed);
      StillSeen(nlb, before, start, Names(managed[..i]), managed[i]);
      ok := ReconcileListener(client, nlb, managed[i], own);
      if !ok {
        TouchedInAll(client.remote, before, start, managed, i);
        return;
      }
      ProgressStep(nlb, client.remote, before, start, managed, i);
    }
    assert managed[..|managed|] == managed;
    return true;
  }

  /** A recorded listener that is no longer wanted was read, or its backend set was not. */
  ghost predicate LeftoversSeen(nlb: Remote, remote: Remote, desired: set<string>, owned: set<string>) {
    forall l :: l in remote.listeners && l in owned && l !in desired ==>
      l in nlb.listeners || BackendSetName(l) !in nlb.backendSets
  }

  /** Otherwise deleting the set, which the run is about to do, breaks a listener. */
  lemma {:induction false} UnseenLeftoverBreaks(
      nlb: Remote, remote: Remote, own: set<string>, listeners: seq<Listener>, owned: set<string>, l: string)
    requires Kept(remote, own) && NamesOfOneGateway(own) && owned <= own && DesiredListenerNames(listeners) <= own
    requires l in remote.listeners && l in owned && l !in DesiredListenerNames(listeners)
    requires l !in nlb.listeners && BackendSetName(l) in nlb.backendSets
    ensures Removable(BackendSetName(l), DesiredBackendSetNames(listeners), Some(OwnSets(owned)))
    ensures !Intact(remote.(backendSets := remote.backendSets - {BackendSetName(l)}))
  {
    var after := remote.(backendSets := remote.backendSets - {BackendSetName(l)});
    assert after.listeners[l].backendSet == BackendSetName(l);
    forall d | d in listeners && Preserved(d.protocol) ensures BackendSetName(d.name) != BackendSetName(l) {
      assert d.name in DesiredListenerNames(listeners);
    }
  }

  /** Once the listeners that went missing are gone, no remaining listener uses a set that is to go. */
  lemma {:induction false} StaleSetsAreUnused(
      remote: Remote, own: set<string>, listeners: seq<Listener>, owned: set<string>, sets: set<string>)
    requires Kept(remote, own) && NamesOfOneGateway(own) && owned <= own
    requires forall l :: l in remote.listeners && l in owned ==>
               l in DesiredListenerNames(listeners) || BackendSetName(l) !in sets
    ensures Unused(remote, sets, DesiredBackendSetNames(listeners), Some(OwnSets(owned)))
  {
    forall l | l in remote.listeners
      ensures || !Removable(remote.listeners[l].backendSet, DesiredBackendSetNames(listeners), Some(OwnSets(owned)))
              || remote.listeners[l].backendSet !in sets
    {
      var b := remote.listeners[l].backendSet;
      if b in OwnSets(owned) && b in sets {
        var e :| e in owned && b == BackendSetName(e);
        assert b in OwnSets(own);
        assert l == e;
        var d :| d in listeners && Preserved(d.protocol) && d.name == l;
        assert BackendSetName(d.name) in DesiredBackendSetNames(listeners);
      }
    }
  }

  /** The Gateway object: what its annotations record. */
  class Gateway {
    var listenerNames: string
    var backendSetNames: string

    constructor ()
      ensures listenerNames == "" && backendSetNames == ""
    {
      listenerNames, backendSetNames := "", "";
    }
  }

  lemma {:induction false} AreDesired(listeners: seq<Listener>, managed: seq<Listener>)
    requires managed == Managed(listeners)
    ensures Names(managed) <= DesiredListenerNames(listeners)
  {
  }

  lemma {:induction false} StillAllProgrammed(
      after: Remote, before: Remote, managed: seq<Listener>, desired: set<string>)
    requires AllProgrammed(before, managed) && Names(managed) <= desired
    requires forall l :: l in before.listeners && l in desired ==>
               l in after.listeners && after.listeners[l] == before.listeners[l]
    ensures AllProgrammed(after, managed)
  {
    forall l | l in managed ensures IsProgrammed(after, l) { assert l.name in Names(managed); }
  }

  /** The two removals, listeners first. `nlb` is the load balancer as read before the run. */
  method RemoveMissing(
      client: NlbClient, nlb: Remote, listeners: seq<Listener>, owned: set<string>, candidates: set<string>,
      ghost own: set<string>)
    returns (ok: bool)
    requires NamesOfOneGateway(own) && owned <= own && candidates == OwnSets(owned)
    modifies client
    ensures old(client.states) <= client.states
    ensures Kept(old(client.remote), own) &&
            LeftoversSeen(nlb, old(client.remote), DesiredListenerNames(listeners), owned) ==>
              AllKept(client.states[|old(client.states)|..], own) && Kept(client.remote, own)
    ensures OthersStay(client.remote, old(client.remote), own)
    ensures forall l :: l in old(client.remote).listeners && l in DesiredListenerNames(listeners) ==>
              l in client.remote.listeners && client.remote.listeners[l] == old(client.remote).listeners[l]
    ensures forall b :: b in old(client.remote).backendSets && b !in candidates ==> b in client.remote.backendSets
    ensures ok ==> forall l :: l in owned && l in nlb.listeners && l in client.remote.listeners ==>
              l in DesiredListenerNames(listeners)
    ensures ok ==> forall b :: b in candidates && b in nlb.backendSets && b in client.remote.backendSets ==>
              b in DesiredBackendSetNames(listeners)
  {
    ghost var start := client.remote;
    ok := RemoveMissingListeners(client, nlb.listeners.Keys, DesiredListenerNames(listeners), Some(owned), own);
    if !ok { return; }
    if Kept(start, own) && LeftoversSeen(nlb, start, DesiredListenerNames(listeners), owned) {
      StaleSetsAreUnused(client.remote, own, listeners, owned, nlb.backendSets);
    }
    ok := RemoveMissingBackendSets(client, nlb.backendSets, DesiredBackendSetNames(listeners), Some(candidates), own);
  }

  /** What was read of the load balancer is recent enough for a run: sets of wanted listeners, and recorded listeners
      that are to go. It is, when nothing changed since. */
  ghost predicate RecentEnough(nlb: Remote, remote: Remote, listeners: seq<Listener>, owned: set<string>)
  {
    SetsSeen(nlb, remote, Managed(listeners)) && LeftoversSeen(nlb, remote, DesiredListenerNames(listeners), owned)
  }

  lemma {:induction false} LeftoversStaySeen(
      nlb: Remote, after: Remote, before: Remote, names: set<string>, desired: set<string>, owned: set<string>)
    requires Touches(after, before, names) && names <= desired
    requires LeftoversSeen(nlb, before, desired, owned)
    ensures LeftoversSeen(nlb, after, desired, owned)
  {
    forall l | l in after.listeners && l in owned && l !in desired
      ensures l in nlb.listeners || BackendSetName(l) !in nlb.backendSets
    {
      assert l !in names && l in before.listeners;
    }
  }

  /** One run. However far it gets, every state on the way keeps every listener's backend set; a run that succeeds
      has programmed all TCP and UDP listeners, if those that were read are as they were, and removed exactly the
      recorded listeners and sets that were read and are no longer wanted. */
  method ProgramGateway(
      client: NlbClient, gateway: Gateway, nlb: Remote, busy: bool, valid: bool, listeners: seq<Listener>,
      ghost own: set<string>)
    returns (ok: bool)
    requires Kept(client.remote, own) && NamesOfOneGateway(own)
    requires Annotated(gateway.listenerNames, gateway.backendSetNames, own)
    requires UniqueListenerNames(listeners) && DesiredListenerNames(listeners) <= own
    modifies client
    ensures old(client.states) <= client.states
    ensures RecentEnough(nlb, old(client.remote), listeners, AnnotatedNames(gateway.listenerNames)) ==>
              AllKept(client.states[|old(client.states)|..], own) && Kept(client.remote, own)
    ensures OthersStay(client.remote, old(client.remote), own)
    ensures forall b :: b in old(client.remote.backendSets) && b !in AnnotatedNames(gateway.backendSetNames) ==>
              b in client.remote.backendSets
    ensures ok && ListenersSeen(nlb, old(client.remote), Managed(listeners)) ==>
              AllProgrammed(client.remote, Managed(listeners))
    ensures ok ==> forall l :: l in AnnotatedNames(gateway.listenerNames) && l in nlb.listeners ==>
              (l in client.remote.listeners ==> l in DesiredListenerNames(listeners))
    ensures ok ==> forall b :: b in AnnotatedNames(gateway.backendSetNames) && b in nlb.backendSets ==>
              (b in client.remote.backendSets ==> b in DesiredBackendSetNames(listeners))
  {
    if busy || !valid { return false; }
    ghost var start := client.remote;
    var managed := Managed(listeners);
    ManagedUnique(listeners);
    AreDesired(listeners, managed);
    ok := ReconcileListeners(client, nlb, managed, own);
    if !ok { return; }
    var owned := AnnotatedResourceNames(gateway.listenerNames);
    var candidates := AnnotatedResourceNames(gateway.backendSetNames);
    ghost var middle := client.remote;
    if LeftoversSeen(nlb, start, DesiredListenerNames(listeners), owned) {
      LeftoversStaySeen(nlb, middle, start, Names(managed), DesiredListenerNames(listeners), owned);
    }
    ok := RemoveMissing(client, nlb, listeners, owned, candidates, own);
    if ok && ListenersSeen(nlb, start, managed) {
      StillAllProgrammed(client.remote, middle, managed, DesiredListenerNames(listeners));
    }
  }

  lemma {:induction false} DesiredSetsAreOwn(listeners: seq<Listener>)
    ensures DesiredBackendSetNames(listeners) == OwnSets(DesiredListenerNames(listeners))
  {
    forall b | b in DesiredBackendSetNames(listeners) ensures b in OwnSets(DesiredListenerNames(listeners)) {
      var l :| l in listeners && Preserved(l.protocol) && b == BackendSetName(l.name);
      assert l.name in DesiredListenerNames(listeners);
    }
  }

  lemma {:induction false} OwnSetsAreClean(own: set<string>)
    requires forall n :: n in own ==> Clean(n)
    ensures forall b :: b in OwnSets(own) ==> Clean(b)
  {
    forall b | b in OwnSets(own) ensures Clean(b) {
      var n :| n in own && b == BackendSetName(n);
      BackendSetNameIsClean(n);
    }
  }

  /** Records the names of a listener list in both annotations at once. */
  method SetProgrammed(gateway: Gateway, listeners: seq<Listener>, ghost own: set<string>)
    requires NamesOfOneGateway(own) && DesiredListenerNames(listeners) <= own
    modifies gateway
    ensures Annotated(gateway.listenerNames, gateway.backendSetNames, own)
    ensures AnnotatedNames(gateway.listenerNames) == DesiredListenerNames(listeners)
  {
    var names := JoinedAnnotationNames(DesiredListenerNames(listeners));
    var sets := JoinedAnnotationNames(DesiredBackendSetNames(listeners));
    DesiredSetsAreOwn(listeners);
    OwnSetsAreClean(DesiredListenerNames(listeners));
    NamesSurvive(names, DesiredListenerNames(listeners));
    NamesSurvive(sets, DesiredBackendSetNames(listeners));
    gateway.listenerNames, gateway.backendSetNames := names, sets;
  }

  lemma {:induction false} OwnedSetsAreUnused(remote: Remote, own: set<string>, owned: set<string>, sets: set<string>)
    requires Kept(remote, own) && NamesOfOneGateway(own) && owned <= own
    requires forall l :: l in remote.listeners && l in owned ==> BackendSetName(l) !in sets
    ensures forall l :: l in remote.listeners ==> remote.listeners[l].backendSet !in sets * OwnSets(owned)
  {
    forall l | l in remote.listeners ensures remote.listeners[l].backendSet !in sets * OwnSets(owned) {
      forall n | n in owned && BackendSetName(n) in sets ensures remote.listeners[l].backendSet != BackendSetName(n) {
        assert n in own && BackendSetName(n) in OwnSets(own) && l != n;
      }
    }
  }

  method RemoveOwned(client: NlbClient, nlb: Remote, owned: set<string>, ownedSets: set<string>, ghost own: set<string>)
    returns (ok: bool)
    requires NamesOfOneGateway(own) && owned <= own && ownedSets == OwnSets(owned)
    modifies client
    ensures old(client.states) <= client.states
    ensures Kept(old(client.remote), own) && LeftoversSeen(nlb, old(client.remote), {}, owned) ==>
              AllKept(client.states[|old(client.states)|..], own) && Kept(client.remote, own)
    ensures OthersStay(client.remote, old(client.remote), own)
    ensures ok ==> (owned * nlb.listeners.Keys) !! client.remote.listeners.Keys
  {
    ghost var start := client.remote;
    ok := RemoveMissingListeners(client, nlb.listeners.Keys * owned, {}, None, own);
    if !ok { return; }
    if Kept(start, own) && LeftoversSeen(nlb, start, {}, owned) {
      OwnedSetsAreUnused(client.remote, own, owned, nlb.backendSets);
    }
    ok := RemoveMissingBackendSets(client, nlb.backendSets * ownedSets, {}, None, own);
  }

  /** Removes the recorded and the current listeners and sets of the Gateway, as far as they were read, listeners
      first; then forgets them. A load balancer that is already gone has nothing to remove. */
  method DeprovisionGateway(
      client: NlbClient, gateway: Gateway, nlb: Option<Remote>, busy: bool, updateFails: bool, listeners: seq<Listener>,
      ghost own: set<string>)
    returns (ok: bool)
    requires Kept(client.remote, own) && NamesOfOneGateway(own)
    requires Annotated(gateway.listenerNames, gateway.backendSetNames, own)
    requires DesiredListenerNames(listeners) <= own
    modifies client, gateway
    ensures old(client.states) <= client.states
    ensures (nlb.Some? ==>
               LeftoversSeen(nlb.value, old(client.remote), {},
                             AnnotatedNames(old(gateway.listenerNames)) + DesiredListenerNames(listeners))) ==>
              AllKept(client.states[|old(client.states)|..], own) && Kept(client.remote, own)
    ensures Annotated(gateway.listenerNames, gateway.backendSetNames, own)
    ensures OthersStay(client.remote, old(client.remote), own)
    ensures nlb.None? ==> client.remote == old(client.remote) && client.states == old(client.states)
    ensures ok && nlb.Some? ==>
              var names := AnnotatedNames(old(gateway.listenerNames)) + DesiredListenerNames(listeners);
              (names * nlb.value.listeners.Keys) !! client.remote.listeners.Keys
    ensures ok ==> gateway.listenerNames == "" && gateway.backendSetNames == ""
  {
    if nlb.Some? {
      if busy { return false; }
      var listed := AnnotatedResourceNames(gateway.listenerNames);
      var listedSets := AnnotatedResourceNames(gateway.backendSetNames);
      var owned := listed + DesiredListenerNames(listeners);
      var ownedSets := listedSets + DesiredBackendSetNames(listeners);
      DesiredSetsAreOwn(listeners);
      OwnSetsJoin(listed, DesiredListenerNames(listeners));
      ok := RemoveOwned(client, nlb.value, owned, ownedSets, own);
      if !ok { return; }
    }
    if updateFails { return false; }
    gateway.listenerNames, gateway.backendSetNames := "", "";
    NothingAnnotated();
    return true;
  }

  lemma {:induction false} OwnSetsJoin(a: set<string>, b: set<string>)
    ensures OwnSets(a + b) == OwnSets(a) + OwnSets(b)
  {
  }

  lemma {:induction false} NothingAnnotated()
    ensures AnnotatedNames("") == {}
  {
    assert Split("", ',') == [""];
    assert TrimmedSet([""]) == {} by { assert [""][1..] == []; }
  }

  // ----- many runs

  /** The part of the load balancer that other Gateways and TLS routes keep. */
  datatype Others = Others(listeners: map<string, RemoteListener>, backendSets: set<string>)

  ghost predicate OthersFit(others: Others, own: set<string>) {
    && others.backendSets !! OwnSets(own) && others.listeners.Keys !! own
    && forall l :: l in others.listeners ==> others.listeners[l].backendSet in others.backendSets
  }

  /** The load balancer after others have changed their part in any way. */
  function WithOthers(remote: Remote, others: Others, own: set<string>): Remote {
    Remote((map l | l in remote.listeners && l in own :: remote.listeners[l]) + others.listeners,
           remote.backendSets * OwnSets(own) + others.backendSets)
  }

  lemma {:induction false} WithOthersKept(remote: Remote, others: Others, own: set<string>)
    requires Kept(remote, own) && OthersFit(others, own)
    ensures Kept(WithOthers(remote, others, own), own)
  {
    var after := WithOthers(remote, others, own);
    forall l | l in after.listeners && l in own
      ensures after.listeners[l] == remote.listeners[l] && remote.listeners[l].backendSet in OwnSets(own)
    {
      assert remote.listeners[l].backendSet == BackendSetName(l);
    }
  }

  /** What others change after the load balancer was read leaves what was read recent enough. */
  lemma {:induction false} OthersLeaveItRecent(
      remote: Remote, others: Others, own: set<string>, listeners: seq<Listener>, owned: set<string>)
    requires Kept(remote, own) && OthersFit(others, own) && owned <= own && DesiredListenerNames(listeners) <= own
    ensures var now := WithOthers(remote, others, own);
            && RecentEnough(remote, now, listeners, owned) && ListenersSeen(remote, now, Managed(listeners))
            && LeftoversSeen(remote, now, {}, owned + DesiredListenerNames(listeners))
  {
    var now := WithOthers(remote, others, own);
    forall l | l in Managed(listeners) ensures SetSeen(remote, now, l.name) && ListenerSeen(remote, now, l.name) {
      assert l.name in DesiredListenerNames(listeners);
      assert BackendSetName(l.name) in OwnSets(own);
    }
  }

  /** One reconciliation with whatever listeners are wanted by then. `others` is what others have made of their part
      between the reading of the load balancer and the run. `recorded` is the list whose names reach the annotations
      after a successful run, if that write happens. */
  datatype Plan =
    | Program(others: Others, busy: bool, valid: bool, listeners: seq<Listener>, recorded: Option<seq<Listener>>)
    | Deprovision(others: Others, gone: bool, busy: bool, updateFails: bool, listeners: seq<Listener>)

  ghost predicate PlanFits(plan: Plan, own: set<string>) {
    && DesiredListenerNames(plan.listeners) <= own && OthersFit(plan.others, own)
    && (plan.Program? ==>
          && UniqueListenerNames(plan.listeners)
          && (plan.recorded.Some? ==> DesiredListenerNames(plan.recorded.value) <= own))
  }

  ghost predicate HasOthers(remote: Remote, others: Others) {
    forall l :: l in others.listeners ==> l in remote.listeners && remote.listeners[l] == others.listeners[l]
  }

  /** One reconciliation: reading, what others do meanwhile, and the run. */
  method Reconcile(client: NlbClient, gateway: Gateway, plan: Plan, own: set<string>)
    requires Kept(client.remote, own) && NamesOfOneGateway(own) && PlanFits(plan, own)
    requires Annotated(gateway.listenerNames, gateway.backendSetNames, own)
    modifies client, gateway
    ensures old(client.states) <= client.states && AllKept(client.states[|old(client.states)|..], own)
    ensures Kept(client.remote, own) && Annotated(gateway.listenerNames, gateway.backendSetNames, own)
    ensures HasOthers(client.remote, plan.others)
  {
    var nlb := client.remote;
    client.ChangeOthers(plan.others, own);
    WithOthersKept(nlb, plan.others, own);
    OthersLeaveItRecent(nlb, plan.others, own, plan.listeners, AnnotatedNames(gateway.listenerNames));
    match plan
    case Program(_, busy, valid, listeners, recorded) =>
      var ok := ProgramGateway(client, gateway, nlb, busy, valid, listeners, own);
      if ok && recorded.Some? {
        SetProgrammed(gateway, recorded.value, own);
      }
    case Deprovision(_, gone, busy, updateFails, listeners) =>
      var ok := DeprovisionGateway(
        client, gateway, if gone then None else Some(nlb), busy, updateFails, listeners, own);
  }

  /** Over any number of runs, each of which may stop after any call and may be based on what was read before others
      changed their part: in every state every listener's backend set exists, and each run leaves the listeners of
      others as it found them. */
  method Lifetime(client: NlbClient, gateway: Gateway, plans: seq<Plan>, own: set<string>)
    requires Kept(client.remote, own) && NamesOfOneGateway(own)
    requires gateway.listenerNames == "" && gateway.backendSetNames == ""
    requires forall p :: p in plans ==> PlanFits(p, own)
    modifies client, gateway
    ensures old(client.states) <= client.states
    ensures forall s :: s in client.states[|old(client.states)|..] ==> Intact(s)
    ensures Kept(client.remote, own) && Annotated(gateway.listenerNames, gateway.backendSetNames, own)
    ensures plans != [] ==> HasOthers(client.remote, plans[|plans| - 1].others)
  {
    NothingAnnotated();
    ghost var n := |client.states|;
    for i := 0 to |plans|
      invariant old(client.states) <= client.states && AllKept(client.states[n..], own)
      invariant Kept(client.remote, own) && Annotated(gateway.listenerNames, gateway.backendSetNames, own)
      invariant i > 0 ==> HasOthers(client.remote, plans[i - 1].others)
    {
      assert PlanFits(plans[i], own);
      Reconcile(client, gateway, plans[i], own);
    }
  }
}
