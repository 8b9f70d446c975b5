/** The CA bundles a BackendTLSPolicy owns in OCI, and the finalizer and annotation on the policy that are written
    before any bundle is created and dropped only after the bundles found are gone. Listing bundles reads one page
    of the service's answer, and bundles behind it are not found. */
module CaBundles {
  import opened Text
  import opened NameLists

  datatype Lifecycle = Creating | Active | Updating | Deleting | Deleted | FailedState

  /** `owned`: the tags name this controller and this policy. */
  datatype Bundle = Bundle(compartment: string, name: string, owned: bool, hash: string, state: Lifecycle)

  /** The policy object and all CA bundles of the tenancy; a bundle is identified by its position. */
  datatype State = State(finalizer: bool, annotation: string, bundles: seq<Bundle>)

  predicate Live(b: Bundle) {
    !b.state.Deleting? && !b.state.Deleted?
  }

  /** The policy has the finalizer and lists the compartment. */
  ghost predicate Covered(s: State, compartment: string) {
    s.finalizer && compartment in AnnotatedNames(s.annotation)
  }

  predicate OwnedLive(s: State, id: nat) {
    id < |s.bundles| && s.bundles[id].owned && Live(s.bundles[id])
  }

  /** Every live bundle of the policy, other than those in `lost`, is written down on the policy. */
  ghost predicate SafeExcept(s: State, lost: set<nat>) {
    forall id: nat :: OwnedLive(s, id) && id !in lost ==> Covered(s, s.bundles[id].compartment)
  }

  ghost predicate Safe(s: State) {
    SafeExcept(s, {})
  }

  ghost predicate NoLiveBundle(s: State) {
    forall id: nat :: !OwnedLive(s, id)
  }

  ghost predicate AllSafe(trace: seq<State>) {
    forall s :: s in trace ==> Safe(s)
  }

  ghost predicate AllSafeExcept(trace: seq<State>, lost: set<nat>) {
    forall s :: s in trace ==> SafeExcept(s, lost)
  }

  // ----- pages

  predicate Listed(b: Bundle, compartment: string, name: Option<string>) {
    b.compartment == compartment && (name.Some? ==> b.name == name.value)
  }

  function Count(bundles: seq<Bundle>, compartment: string, name: Option<string>): nat {
    if bundles == [] then 0
    else
      var n := |bundles| - 1;
      Count(bundles[..n], compartment, name) + if Listed(bundles[n], compartment, name) then 1 else 0
  }

  /** The bundle is on the first page of the list for the compartment and, when one is given, the
      name. A page holds `limit` bundles. */
  predicate Shown(bundles: seq<Bundle>, id: nat, compartment: string, name: Option<string>, limit: nat) {
    id < |bundles| && Listed(bundles[id], compartment, name) && Count(bundles[..id], compartment, name) < limit
  }

  /** The bundle is on the first page of its compartment's list. */
  predicate OnPage(bundles: seq<Bundle>, id: nat, limit: nat)
    requires id < |bundles|
  {
    Shown(bundles, id, bundles[id].compartment, None, limit)
  }

  /** What cleaning up can see: every live bundle of the policy is on the page read for its compartment. */
  ghost predicate PagesShowAll(s: State, limit: nat) {
    forall id: nat :: OwnedLive(s, id) ==> OnPage(s.bundles, id, limit)
  }

  /** A guard that can be checked beforehand: the bundles of each listed compartment fit on one page. */
  ghost predicate CompartmentsFit(s: State, limit: nat) {
    forall c :: c in AnnotatedNames(s.annotation) ==> Count(s.bundles, c, None) <= limit
  }

  lemma {:induction false} CountGrows(bundles: seq<Bundle>, i: nat, compartment: string)
    requires i < |bundles| && bundles[i].compartment == compartment
    ensures Count(bundles[..i], compartment, None) < Count(bundles, compartment, None)
    decreases |bundles|
  {
    var n := |bundles| - 1;
    if i < n {
      assert bundles[..n][..i] == bundles[..i];
      CountGrows(bundles[..n], i, compartment);
    }
  }

  /** In a compartment that fits, every bundle is on the page. */
  lemma {:induction false} FittingShows(s: State, limit: nat, id: nat)
    requires id < |s.bundles| && s.bundles[id].compartment in AnnotatedNames(s.annotation) && CompartmentsFit(s, limit)
    ensures OnPage(s.bundles, id, limit)
  {
    CountGrows(s.bundles, id, s.bundles[id].compartment);
  }

  lemma {:induction false} CountReadsPlaces(a: seq<Bundle>, b: seq<Bundle>, compartment: string)
    requires |a| == |b| && forall i :: 0 <= i < |a| ==> a[i].compartment == b[i].compartment
    ensures Count(a, compartment, None) == Count(b, compartment, None)
  {
    if a != [] { CountReadsPlaces(a[..|a| - 1], b[..|b| - 1], compartment); }
  }

  lemma {:induction false} CountSnoc(bundles: seq<Bundle>, id: nat, compartment: string, name: Option<string>)
    requires id < |bundles|
    ensures Count(bundles[..id + 1], compartment, name) ==
            Count(bundles[..id], compartment, name) + (if Listed(bundles[id], compartment, name) then 1 else 0)
  {
    assert bundles[..id + 1][..id] == bundles[..id];
  }

  method FirstPage(bundles: seq<Bundle>, compartment: string, name: Option<string>, limit: nat)
    returns (ids: seq<nat>)
    ensures |ids| <= limit
    ensures forall id: nat :: id in ids <==> Shown(bundles, id, compartment, name, limit)
  {
    ids := [];
    var matching := 0;
    for id := 0 to |bundles|
      invariant matching == Count(bundles[..id], compartment, name)
      invariant |ids| == if matching <= limit then matching else limit
      invariant forall i: nat :: i in ids <==> i < id && Shown(bundles, i, compartment, name, limit)
    {
      CountSnoc(bundles, id, compartment, name);
      if Listed(bundles[id], compartment, name) {
        if matching < limit { ids := ids + [id]; }
        matching := matching + 1;
      }
    }
  }

  // ----- external calls

  /** `Lost`: the call takes effect but the caller sees an error or stops. `Gone`: a bundle to be deleted has been
      deleted by then, or the name of a bundle to be created has been taken by then. */
  datatype Answer = Applied | Lost | Rejected | Gone

  datatype Outcome = Done | NotFound | Conflict | Failed

  class World {
    var now: State
    var made: nat
    const answers: nat -> Answer
    const limit: nat
    ghost const start: State
    ghost var trace: seq<State>

    /** `limit` is the number of bundles on one page of a list. */
    constructor (start: State, limit: nat, answers: nat -> Answer)
      ensures now == start == this.start && this.limit == limit && this.answers == answers && trace == []
    {
      now, made, this.limit, this.answers := start, 0, limit, answers;
      this.start, trace := start, [];
    }

    /** The present state is the last one of the log, or the first one when there was no call. */
    ghost predicate Recorded()
      reads this
    {
      now == if trace == [] then start else trace[|trace| - 1]
    }

    method UpdatePolicy(finalizer: bool, annotation: string) returns (ok: bool)
      modifies this
      ensures trace == old(trace) + [now]
      ensures now == old(now) || now == old(now).(finalizer := finalizer, annotation := annotation)
      ensures ok ==> now == old(now).(finalizer := finalizer, annotation := annotation)
      ensures answers(old(made)).Applied? ==> ok
    {
      var answer := answers(made);
      if answer.Applied? || answer.Lost? {
        now := now.(finalizer := finalizer, annotation := annotation);
      }
      ok := answer.Applied?;
      made, trace := made + 1, trace + [now];
    }

    /** The first page of the bundles of the compartment, and of the name when one is given, oldest first. */
    method ListBundles(compartment: string, name: Option<string>) returns (ok: bool, ids: seq<nat>)
      modifies this
      ensures trace == old(trace) + [now] && now == old(now)
      ensures ok <==> answers(old(made)).Applied?
      ensures forall id: nat :: id in ids <==> Shown(now.bundles, id, compartment, name, limit)
      ensures |ids| <= limit
    {
      ok := answers(made).Applied?;
      ids := FirstPage(now.bundles, compartment, name, limit);
      made, trace := made + 1, trace + [now];
    }

    method CreateBundle(b: Bundle) returns (r: Outcome, id: nat)
      modifies this
      ensures trace == old(trace) + [now]
      ensures now == old(now) || now == old(now).(bundles := old(now).bundles + [b])
      ensures r.Done? ==> now == old(now).(bundles := old(now).bundles + [b]) && id == |old(now).bundles|
    {
      var answer := answers(made);
      id := |now.bundles|;
      if answer.Applied? || answer.Lost? {
        now := now.(bundles := now.bundles + [b]);
      }
      r := match answer case Applied => Done case Gone => Conflict case _ => Failed;
      made, trace := made + 1, trace + [now];
    }

    method UpdateBundle(id: nat, hash: string) returns (ok: bool)
      requires id < |now.bundles| && now.bundles[id].owned
      modifies this
      ensures trace == old(trace) + [now]
      ensures now == old(now) || now == Rehashed(old(now), id, hash)
      ensures ok ==> now == Rehashed(old(now), id, hash)
    {
      var answer := answers(made);
      if answer.Applied? || answer.Lost? {
        now := Rehashed(now, id, hash);
      }
      ok := answer.Applied?;
      made, trace := made + 1, trace + [now];
    }

    method DeleteBundle(id: nat) returns (r: Outcome)
      requires id < |now.bundles|
      modifies this
      ensures trace == old(trace) + [now]
      ensures now.finalizer == old(now).finalizer && now.annotation == old(now).annotation
      ensures |now.bundles| == |old(now).bundles|
      ensures forall i :: 0 <= i < |now.bundles| ==>
                now.bundles[i] == old(now).bundles[i].(state := now.bundles[i].state)
      ensures forall i :: 0 <= i < |now.bundles| && i != id ==> now.bundles[i] == old(now).bundles[i]
      ensures now.bundles[id] == old(now).bundles[id] || !Live(now.bundles[id])
      ensures r.Done? || r.NotFound? ==> !Live(now.bundles[id])
      ensures answers(old(made)).Applied? ==> r.Done? && now.bundles[id].state == Deleting
    {
      var answer := answers(made);
      if answer.Applied? || answer.Lost? {
        now := now.(bundles := now.bundles[id := now.bundles[id].(state := Deleting)]);
      } else if answer.Gone? {
        now := now.(bundles := now.bundles[id := now.bundles[id].(state := Deleted)]);
      }
      r := match answer case Applied => Done case Gone => NotFound case _ => Failed;
      made, trace := made + 1, trace + [now];
    }
  }

  function Rehashed(s: State, id: nat, hash: string): State
    requires id < |s.bundles|
  {
    s.(bundles := s.bundles[id := s.bundles[id].(hash := hash)])
  }

  // ----- the compartments annotation

  method CompartmentIDs(annotation: string) returns (ids: seq<string>)
    ensures ListsSet(ids, AnnotatedNames(annotation))
  {
    ids := [];
    var names := AnnotatedResourceNames(annotation);
    ghost var all := names;
    while names != {}
      invariant names <= all && ListsSet(ids, all - names)
      decreases |names|
    {
      var n :| n in names;
      ids, names := ids + [n], names - {n};
    }
    assert all - {} == all;
  }

  /** Adds a compartment to what the annotation lists, whatever text it holds. */
  method AddCompartment(annotation: string, compartment: string) returns (text: string, changed: bool)
    requires compartment == "" || Clean(compartment)
    ensures AnnotatedNames(text) == AnnotatedNames(annotation) + (if compartment == "" then {} else {compartment})
    ensures changed <==> AnnotatedNames(text) != AnnotatedNames(annotation)
    ensures !changed ==> text == annotation
  {
    if compartment == "" { return annotation, false; }
    var ids := CompartmentIDs(annotation);
    if compartment in ids { return annotation, false; }
    ghost var names := AnnotatedNames(annotation) + {compartment};
    assert ListsSet(ids + [compartment], names);
    text, changed := Join(SortNames(ids + [compartment]), ","), true;
    AnnotatedAreClean(annotation);
    NamesSurvive(text, names);
  }

  // ----- creating

  method EnsurePolicyFinalizerAndCompartment(world: World, compartment: string, ghost lost: set<nat>) returns (ok: bool)
    requires world.Recorded()
    requires Clean(compartment) && SafeExcept(world.now, lost)
    modifies world
    ensures world.Recorded()
    ensures old(world.trace) <= world.trace && AllSafeExcept(world.trace[|old(world.trace)|..], lost)
    ensures SafeExcept(world.now, lost)
    ensures world.now.bundles == old(world.now).bundles
    ensures ok ==> world.now.finalizer && compartment in AnnotatedNames(world.now.annotation)
  {
    var text, changed := AddCompartment(world.now.annotation, compartment);
    if world.now.finalizer && !changed { return true; }
    ok := world.UpdatePolicy(true, text);
  }

  /** A CA reference of the policy: the name of its bundle and the hash of its certificates. */
  datatype CARef = CARef(name: string, hash: string)

  datatype CacheKey = CacheKey(compartment: string, name: string, hash: string)

  /** The policy's bundle for a reference, as OCI would show it. */
  ghost predicate IsBundleOf(s: State, id: nat, compartment: string, name: string) {
    id < |s.bundles| && s.bundles[id].owned && s.bundles[id].compartment == compartment && s.bundles[id].name == name
  }

  ghost predicate IsCurrent(s: State, id: nat, compartment: string, ref: CARef) {
    IsBundleOf(s, id, compartment, ref.name) && s.bundles[id].hash == ref.hash && s.bundles[id].state.Active?
  }

  class BundleCache {
    var entries: map<CacheKey, nat>

    ghost predicate Sound(s: State)
      reads this
    {
      forall k :: k in entries ==> IsBundleOf(s, entries[k], k.compartment, k.name)
    }

    constructor ()
      ensures entries == map[]
    {
      entries := map[];
    }
  }

  /** No bundle moves, changes owner or disappears from the list. */
  ghost predicate Continues(after: State, before: State) {
    && |before.bundles| <= |after.bundles|
    && forall id :: 0 <= id < |before.bundles| ==>
         && after.bundles[id].owned == before.bundles[id].owned
         && after.bundles[id].compartment == before.bundles[id].compartment
         && after.bundles[id].name == before.bundles[id].name
  }

  /** The bundles found by name: the first that is not deleted must be this policy's and usable. */
  method ResolveListed(
      world: World, ids: seq<nat>, compartment: string, ref: CARef, update: bool, ghost lost: set<nat>)
    returns (ok: bool, matched: bool, id: nat)
    requires world.Recorded()
    requires SafeExcept(world.now, lost) && Covered(world.now, compartment)
    requires forall i :: i in ids ==>
               i < |world.now.bundles| && Listed(world.now.bundles[i], compartment, Some(ref.name))
    modifies world
    ensures world.Recorded()
    ensures old(world.trace) <= world.trace && AllSafeExcept(world.trace[|old(world.trace)|..], lost)
    ensures SafeExcept(world.now, lost) && Covered(world.now, compartment) && Continues(world.now, old(world.now))
    ensures ok && matched ==> IsCurrent(world.now, id, compartment, ref)
    ensures ok && !matched ==> forall i :: i in ids ==> world.now.bundles[i].state.Deleted?
  {
    id := 0;
    for k := 0 to |ids|
      invariant world.Recorded() && world.trace == old(world.trace) && world.now == old(world.now)
      invariant forall j :: 0 <= j < k ==> ids[j] < |world.now.bundles| && world.now.bundles[ids[j]].state.Deleted?
    {
      assert ids[k] in ids;
      var b := world.now.bundles[ids[k]];
      if b.state.Deleted? { continue; }
      if !b.owned || !b.state.Active? { return false, true, 0; }
      if b.hash != ref.hash {
        if !update { return false, true, 0; }
        var updated := world.UpdateBundle(ids[k], ref.hash);
        if !updated { return false, true, 0; }
      }
      return true, true, ids[k];
    }
    return true, false, 0;
  }

  /** After a conflict, the bundle that took the name is adopted when it is this policy's and up to date. */
  method Adopt(world: World, compartment: string, ref: CARef, ghost lost: set<nat>) returns (ok: bool, id: nat)
    requires world.Recorded()
    requires SafeExcept(world.now, lost) && Covered(world.now, compartment)
    modifies world
    ensures world.Recorded()
    ensures old(world.trace) <= world.trace && AllSafeExcept(world.trace[|old(world.trace)|..], lost)
    ensures SafeExcept(world.now, lost) && Covered(world.now, compartment) && Continues(world.now, old(world.now))
    ensures ok ==> IsCurrent(world.now, id, compartment, ref)
  {
    var listed, ids := world.ListBundles(compartment, Some(ref.name));
    if !listed { return false, 0; }
    var matched;
    ok, matched, id := ResolveListed(world, ids, compartment, ref, false, lost);
    return ok && matched, id;
  }

  method CreateOrAdopt(world: World, compartment: string, ref: CARef, ghost lost: set<nat>)
    returns (ok: bool, id: nat)
    requires world.Recorded()
    requires SafeExcept(world.now, lost) && Covered(world.now, compartment)
    modifies world
    ensures world.Recorded()
    ensures old(world.trace) <= world.trace && AllSafeExcept(world.trace[|old(world.trace)|..], lost)
    ensures SafeExcept(world.now, lost) && Covered(world.now, compartment) && Continues(world.now, old(world.now))
    ensures ok ==> IsCurrent(world.now, id, compartment, ref)
  {
    var r;
    r, id := world.CreateBundle(Bundle(compartment, ref.name, true, ref.hash, Active));
    if r.Conflict? {
      ok, id := Adopt(world, compartment, ref, lost);
      return;
    }
    return r.Done?, id;
  }

  method FindOrCreate(world: World, compartment: string, ref: CARef, ghost lost: set<nat>)
    returns (ok: bool, id: nat)
    requires world.Recorded()
    requires SafeExcept(world.now, lost) && Covered(world.now, compartment)
    modifies world
    ensures world.Recorded()
    ensures old(world.trace) <= world.trace && AllSafeExcept(world.trace[|old(world.trace)|..], lost)
    ensures SafeExcept(world.now, lost) && Covered(world.now, compartment) && Continues(world.now, old(world.now))
    ensures ok ==> IsCurrent(world.now, id, compartment, ref)
  {
    var listed, ids := world.ListBundles(compartment, Some(ref.name));
    if !listed { return false, 0; }
    var matched;
    ok, matched, id := ResolveListed(world, ids, compartment, ref, true, lost);
    if ok && !matched {
      ok, id := CreateOrAdopt(world, compartment, ref, lost);
    }
  }

  /** Finds, refreshes or creates the bundle of one reference. It is called only after the policy has been
      written, so a bundle created here is covered whatever happens next. */
  method EnsureBundle(
      world: World, cache: BundleCache, expired: bool, compartment: string, ref: CARef, ghost lost: set<nat>)
    returns (ok: bool, id: nat)
    requires world.Recorded()
    requires SafeExcept(world.now, lost) && Covered(world.now, compartment) && cache.Sound(world.now)
    modifies world, cache
    ensures world.Recorded()
    ensures old(world.trace) <= world.trace && AllSafeExcept(world.trace[|old(world.trace)|..], lost)
    ensures SafeExcept(world.now, lost) && Covered(world.now, compartment) && cache.Sound(world.now)
    ensures Continues(world.now, old(world.now))
    ensures ok ==> IsBundleOf(world.now, id, compartment, ref.name)
    ensures ok && (expired || CacheKey(compartment, ref.name, ref.hash) !in old(cache.entries)) ==>
              IsCurrent(world.now, id, compartment, ref)
  {
    var key := CacheKey(compartment, ref.name, ref.hash);
    if key in cache.entries && !expired { return true, cache.entries[key]; }
    ok, id := FindOrCreate(world, compartment, ref, lost);
    if !ok { return; }
    cache.entries := cache.entries[key := id];
  }

  /** Accepting a policy: the policy is written first, then the bundles of its references are ensured in order. */
  method ResolveAcceptedPolicy(
      world: World, cache: BundleCache, ready: bool, compartment: string, refs: seq<CARef>, expired: seq<bool>,
      ghost lost: set<nat>)
    returns (ok: bool, ids: seq<nat>)
    requires world.Recorded()
    requires compartment == "" || Clean(compartment)
    requires |expired| == |refs|
    requires SafeExcept(world.now, lost) && cache.Sound(world.now)
    modifies world, cache
    ensures world.Recorded()
    ensures old(world.trace) <= world.trace && AllSafeExcept(world.trace[|old(world.trace)|..], lost)
    ensures SafeExcept(world.now, lost) && cache.Sound(world.now)
    ensures ok ==> |ids| == |refs| && Covered(world.now, compartment)
    ensures ok ==> forall i :: 0 <= i < |refs| ==> IsBundleOf(world.now, ids[i], compartment, refs[i].name)
  {
    ids := [];
    if !ready || compartment == "" { return false, []; }
    ok := EnsurePolicyFinalizerAndCompartment(world, compartment, lost);
    if !ok { return; }
    ghost var n := |old(world.trace)|;
    for i := 0 to |refs|
      invariant world.Recorded()
      invariant old(world.trace) <= world.trace && AllSafeExcept(world.trace[n..], lost)
      invariant SafeExcept(world.now, lost) && Covered(world.now, compartment) && cache.Sound(world.now)
      invariant |ids| == i
      invariant forall j :: 0 <= j < i ==> IsBundleOf(world.now, ids[j], compartment, refs[j].name)
    {
      var id;
      ok, id := EnsureBundle(world, cache, expired[i], compartment, refs[i], lost);
      if !ok { return; }
      ids := ids + [id];
    }
    return true, ids;
  }

  // ----- cleaning up

  /** Only lifecycle states change, and nothing comes back to life. */
  ghost predicate OnlyDeletes(after: State, before: State) {
    && after.finalizer == before.finalizer && after.annotation == before.annotation
    && |after.bundles| == |before.bundles|
    && forall id :: 0 <= id < |after.bundles| ==>
         && after.bundles[id] == before.bundles[id].(state := after.bundles[id].state)
         && (Live(after.bundles[id]) ==> Live(before.bundles[id]))
  }

  lemma {:induction false} OnlyDeletesKeeps(after: State, before: State, lost: set<nat>)
    requires OnlyDeletes(after, before) && SafeExcept(before, lost)
    ensures SafeExcept(after, lost)
  {
    forall id: nat | OwnedLive(after, id) && id !in lost ensures Covered(after, after.bundles[id].compartment) {
      assert OwnedLive(before, id);
    }
  }

  lemma {:induction false} OnlyDeletesKeepsPages(after: State, before: State, id: nat, limit: nat)
    requires OnlyDeletes(after, before) && id < |after.bundles|
    ensures OnPage(after.bundles, id, limit) == OnPage(before.bundles, id, limit)
  {
    CountReadsPlaces(after.bundles[..id], before.bundles[..id], before.bundles[id].compartment);
  }

  /** What searching these compartments finds: the policy's bundles on their first pages. */
  predicate Found(s: State, id: nat, compartments: set<string>, limit: nat)
    requires id < |s.bundles|
  {
    s.bundles[id].owned && s.bundles[id].compartment in compartments && OnPage(s.bundles, id, limit)
  }

  /** Exactly the live bundles found are dead afterwards. */
  ghost predicate Clears(after: State, before: State, compartments: set<string>, limit: nat) {
    && OnlyDeletes(after, before)
    && forall id :: 0 <= id < |before.bundles| ==>
         (Live(after.bundles[id]) <==> Live(before.bundles[id]) && !Found(before, id, compartments, limit))
  }

  /** When every call is applied, what changes is exactly marked as being deleted. */
  ghost predicate OnlyMarks(after: State, before: State) {
    && |after.bundles| == |before.bundles|
    && forall id :: 0 <= id < |after.bundles| ==>
         || after.bundles[id] == before.bundles[id]
         || (Live(before.bundles[id]) && after.bundles[id] == before.bundles[id].(state := Deleting))
  }

  lemma {:induction false} ClearsStep(
      after: State, middle: State, before: State, compartments: set<string>, c: string, limit: nat)
    requires Clears(middle, before, compartments, limit) && Clears(after, middle, {c}, limit)
    ensures Clears(after, before, compartments + {c}, limit)
  {
    forall id | 0 <= id < |before.bundles|
      ensures Live(after.bundles[id]) <==> Live(before.bundles[id]) && !Found(before, id, compartments + {c}, limit)
    {
      OnlyDeletesKeepsPages(middle, before, id, limit);
    }
  }

  /** One deletion: at most the bundle itself changes, and it is dead unless the call failed. */
  method DeleteOne(world: World, id: nat, ghost lost: set<nat>) returns (ok: bool)
    requires id < |world.now.bundles| && OwnedLive(world.now, id)
    requires SafeExcept(world.now, lost)
    modifies world
    ensures world.trace == old(world.trace) + [world.now]
    ensures SafeExcept(world.now, lost) && OnlyDeletes(world.now, old(world.now))
    ensures forall i :: 0 <= i < |world.now.bundles| && i != id ==> world.now.bundles[i] == old(world.now).bundles[i]
    ensures ok ==> !OwnedLive(world.now, id)
    ensures world.answers(old(world.made)) == Applied ==> ok && OnlyMarks(world.now, old(world.now))
  {
    ghost var before := world.now;
    var r := world.DeleteBundle(id);
    OnlyDeletesKeeps(world.now, before, lost);
    return r.Done? || r.NotFound?;
  }

  /** After the deletions, exactly the owned ones among `ids` may have changed. */
  ghost predicate OnlyAmong(after: State, before: State, ids: set<nat>) {
    && OnlyDeletes(after, before)
    && forall id :: 0 <= id < |before.bundles| && !(before.bundles[id].owned && id in ids) ==>
         after.bundles[id] == before.bundles[id]
  }

  ghost predicate AllDead(s: State, ids: set<nat>) {
    forall id :: id in ids ==> !OwnedLive(s, id)
  }

  lemma {:induction false} AmongStep(after: State, middle: State, before: State, ids: set<nat>, id: nat)
    requires OnlyAmong(middle, before, ids) && AllDead(middle, ids)
    requires OnlyDeletes(after, middle) && id < |middle.bundles|
    requires middle.bundles[id].owned
    requires forall i :: 0 <= i < |after.bundles| && i != id ==> after.bundles[i] == middle.bundles[i]
    ensures OnlyAmong(after, before, ids + {id}) && AllDead(after, ids)
    ensures OnlyMarks(middle, before) && OnlyMarks(after, middle) ==> OnlyMarks(after, before)
  {
  }

  function IdSet(ids: seq<nat>): set<nat> {
    set id | id in ids
  }

  lemma {:induction false} IdSetSnoc(ids: seq<nat>, k: nat)
    requires k < |ids|
    ensures IdSet(ids[..k + 1]) == IdSet(ids[..k]) + {ids[k]}
  {
    assert ids[..k + 1] == ids[..k] + [ids[k]];
  }

  method DeleteListed(world: World, ids: seq<nat>, ghost lost: set<nat>) returns (ok: bool)
    requires world.Recorded()
    requires SafeExcept(world.now, lost)
    requires forall id :: id in ids ==> id < |world.now.bundles|
    modifies world
    ensures world.Recorded()
    ensures old(world.trace) <= world.trace && AllSafeExcept(world.trace[|old(world.trace)|..], lost)
    ensures SafeExcept(world.now, lost) && OnlyAmong(world.now, old(world.now), IdSet(ids))
    ensures ok ==> AllDead(world.now, IdSet(ids))
    ensures (forall n :: world.answers(n) == Applied) ==> ok && OnlyMarks(world.now, old(world.now))
  {
    ghost var n, start := |old(world.trace)|, world.now;
    for k := 0 to |ids|
      invariant world.Recorded()
      invariant old(world.trace) <= world.trace && AllSafeExcept(world.trace[n..], lost)
      invariant SafeExcept(world.now, lost)
      invariant OnlyAmong(world.now, start, IdSet(ids[..k])) && AllDead(world.now, IdSet(ids[..k]))
      invariant (forall n :: world.answers(n) == Applied) ==> OnlyMarks(world.now, start)
    {
      assert ids[k] in ids;
      IdSetSnoc(ids, k);
      var b := world.now.bundles[ids[k]];
      if !b.owned || !Live(b) { continue; }
      ghost var before := world.now;
      ok := DeleteOne(world, ids[k], lost);
      AmongStep(world.now, before, start, IdSet(ids[..k]), ids[k]);
      if !ok {
        MoreAmong(world.now, start, IdSet(ids[..k + 1]), IdSet(ids));
        return;
      }
    }
    assert ids[..|ids|] == ids;
    return true;
  }

  lemma {:induction false} MoreAmong(after: State, before: State, ids: set<nat>, more: set<nat>)
    requires OnlyAmong(after, before, ids) && ids <= more
    ensures OnlyAmong(after, before, more)
  {
  }

  /** Deleting everything on the page clears the compartment of what can be found in it. */
  lemma {:induction false} PageIsCleared(after: State, before: State, compartment: string, ids: seq<nat>, limit: nat)
    requires OnlyAmong(after, before, IdSet(ids)) && AllDead(after, IdSet(ids))
    requires forall id: nat :: id in ids <==> Shown(before.bundles, id, compartment, None, limit)
    ensures Clears(after, before, {compartment}, limit)
  {
    forall id | 0 <= id < |before.bundles|
      ensures Live(after.bundles[id]) <==> Live(before.bundles[id]) && !Found(before, id, {compartment}, limit)
    {
      assert id in ids && before.bundles[id].owned <==> Found(before, id, {compartment}, limit);
      if Found(before, id, {compartment}, limit) { assert id in IdSet(ids) && !OwnedLive(after, id); }
    }
  }

  method DeleteOwnedBundles(world: World, compartment: string, ghost lost: set<nat>) returns (ok: bool)
    requires world.Recorded()
    requires SafeExcept(world.now, lost)
    modifies world
    ensures world.Recorded()
    ensures old(world.trace) <= world.trace && AllSafeExcept(world.trace[|old(world.trace)|..], lost)
    ensures SafeExcept(world.now, lost) && OnlyDeletes(world.now, old(world.now))
    ensures ok ==> Clears(world.now, old(world.now), {compartment} - {""}, world.limit)
    ensures (forall n :: world.answers(n) == Applied) ==> ok && OnlyMarks(world.now, old(world.now))
  {
    if compartment == "" {
      ClearsNothing(world.now, world.limit);
      assert {compartment} - {""} == {};
      return true;
    }
    ghost var start := world.now;
    var listed, ids := world.ListBundles(compartment, None);
    if !listed { return false; }
    ok := DeleteListed(world, ids, lost);
    if ok { PageIsCleared(world.now, start, compartment, ids, world.limit); }
    assert {compartment} - {""} == {compartment};
  }

  /** The compartments a cleanup searches. */
  function Searched(annotation: string, discovered: Option<seq<string>>): set<string> {
    (if AnnotatedNames(annotation) != {} || discovered.None? then AnnotatedNames(annotation)
     else set c | c in discovered.value) - {""}
  }

  function PlaceSet(compartments: seq<string>): set<string> {
    (set c | c in compartments) - {""}
  }

  lemma {:induction false} PlaceSetSnoc(compartments: seq<string>, k: nat)
    requires k < |compartments|
    ensures PlaceSet(compartments[..k + 1]) == PlaceSet(compartments[..k]) + ({compartments[k]} - {""})
  {
    assert compartments[..k + 1] == compartments[..k] + [compartments[k]];
  }

  lemma {:induction false} ClearsNothing(s: State, limit: nat)
    ensures Clears(s, s, {}, limit)
  {
  }

  lemma {:induction false} ClearsMore(
      after: State, middle: State, before: State, compartments: set<string>, c: string, limit: nat)
    requires Clears(middle, before, compartments, limit) && Clears(after, middle, {c} - {""}, limit)
    ensures Clears(after, before, compartments + ({c} - {""}), limit)
  {
    if c == "" {
      assert {c} - {""} == {} && compartments + ({c} - {""}) == compartments;
    } else {
      assert {c} - {""} == {c};
      ClearsStep(after, middle, before, compartments, c, limit);
    }
  }

  method SearchedCompartments(annotation: string, discovered: Option<seq<string>>)
    returns (compartments: Option<seq<string>>)
    ensures compartments.None? <==> AnnotatedNames(annotation) == {} && discovered.None?
    ensures compartments.Some? ==> PlaceSet(compartments.value) == Searched(annotation, discovered)
  {
    var ids := CompartmentIDs(annotation);
    assert ids == [] <==> AnnotatedNames(annotation) == {} by {
      if ids != [] { assert ids[0] in AnnotatedNames(annotation); }
      assert forall c :: c in AnnotatedNames(annotation) ==> c in ids;
    }
    compartments := if ids == [] then discovered else Some(ids);
  }

  /** The loop over the compartments. */
  method DeleteInAll(world: World, compartments: seq<string>, ghost lost: set<nat>) returns (ok: bool)
    requires world.Recorded()
    requires SafeExcept(world.now, lost)
    modifies world
    ensures world.Recorded()
    ensures old(world.trace) <= world.trace && AllSafeExcept(world.trace[|old(world.trace)|..], lost)
    ensures SafeExcept(world.now, lost) && OnlyDeletes(world.now, old(world.now))
    ensures ok ==> Clears(world.now, old(world.now), PlaceSet(compartments), world.limit)
    ensures (forall n :: world.answers(n) == Applied) ==> ok && OnlyMarks(world.now, old(world.now))
  {
    ghost var n, start := |old(world.trace)|, world.now;
    ClearsNothing(start, world.limit);
    assert PlaceSet(compartments[..0]) == {};
    for k := 0 to |compartments|
      invariant world.Recorded()
      invariant old(world.trace) <= world.trace && AllSafeExcept(world.trace[n..], lost)
      invariant SafeExcept(world.now, lost) && Clears(world.now, start, PlaceSet(compartments[..k]), world.limit)
      invariant (forall n :: world.answers(n) == Applied) ==> OnlyMarks(world.now, start)
    {
      ghost var middle := world.now;
      ok := DeleteOwnedBundles(world, compartments[k], lost);
      if !ok { return; }
      ClearsMore(world.now, middle, start, PlaceSet(compartments[..k]), compartments[k], world.limit);
      PlaceSetSnoc(compartments, k);
    }
    assert compartments[..|compartments|] == compartments;
    return true;
  }

  /** The live bundles of the policy. */
  ghost function LiveBundles(s: State): set<nat> {
    set id: nat | id < |s.bundles| && OwnedLive(s, id)
  }

  /** What a search leaves live was either lost before or lies behind the page of a listed compartment. */
  lemma {:induction false} LeftBehind(
      after: State, before: State, lost: set<nat>, discovered: Option<seq<string>>, limit: nat, id: nat)
    requires SafeExcept(before, lost) && Clears(after, before, Searched(before.annotation, discovered), limit)
    requires OwnedLive(after, id) && id !in lost
    ensures Covered(before, before.bundles[id].compartment) && !OnPage(before.bundles, id, limit)
  {
    assert OwnedLive(before, id);
    AnnotatedAreClean(before.annotation);
    assert !Found(before, id, Searched(before.annotation, discovered), limit);
  }

  lemma {:induction false} WiderLost(trace: seq<State>, lost: set<nat>, more: set<nat>)
    requires AllSafeExcept(trace, lost) && lost <= more
    ensures AllSafeExcept(trace, more)
  {
    forall s | s in trace ensures SafeExcept(s, more) { assert SafeExcept(s, lost); }
  }

  /** Without the finalizer, the live bundles are exactly those no longer written down. */
  lemma {:induction false} DroppedFinalizer(s: State, lost: set<nat>)
    requires !s.finalizer
    ensures SafeExcept(s, lost + LiveBundles(s))
    ensures LiveBundles(s) - lost != {} ==> !Safe(s)
  {
    if id :| id in LiveBundles(s) - lost {
      assert OwnedLive(s, id) && !Covered(s, s.bundles[id].compartment);
    }
  }

  /** What a search leaves live, in a compartment that fits on a page, was lost before. */
  lemma {:induction false} FitLosesNothing(s: State, lost: set<nat>, nowLost: set<nat>, limit: nat)
    requires CompartmentsFit(s, limit) && lost <= nowLost
    requires forall id :: id in nowLost - lost ==>
               OwnedLive(s, id) && !OnPage(s.bundles, id, limit) && Covered(s, s.bundles[id].compartment)
    ensures nowLost == lost
  {
    forall id | id in nowLost ensures id in lost {
      if OwnedLive(s, id) && Covered(s, s.bundles[id].compartment) { FittingShows(s, limit, id); }
    }
  }

  /** The outcome when every call is applied. */
  function CleanupOutcome(s: State, limit: nat): State {
    State(false, "", MarkFound(s, limit))
  }

  function MarkFound(s: State, limit: nat): (bundles: seq<Bundle>)
    ensures |bundles| == |s.bundles|
    ensures forall id :: 0 <= id < |bundles| ==>
              bundles[id] == if Live(s.bundles[id]) && Found(s, id, AnnotatedNames(s.annotation), limit)
                             then s.bundles[id].(state := Deleting) else s.bundles[id]
  {
    seq(|s.bundles|, id requires 0 <= id < |s.bundles| =>
      if Live(s.bundles[id]) && Found(s, id, AnnotatedNames(s.annotation), limit)
      then s.bundles[id].(state := Deleting) else s.bundles[id])
  }

  lemma {:induction false} SearchedAsListed(annotation: string, discovered: Option<seq<string>>)
    requires AnnotatedNames(annotation) != {}
    ensures Searched(annotation, discovered) == AnnotatedNames(annotation)
  {
    AnnotatedAreClean(annotation);
  }

  lemma {:induction false} OutcomeIsMarked(cleared: State, start: State, discovered: Option<seq<string>>, limit: nat)
    requires Clears(cleared, start, Searched(start.annotation, discovered), limit) && OnlyMarks(cleared, start)
    requires AnnotatedNames(start.annotation) != {}
    ensures cleared.bundles == MarkFound(start, limit)
  {
    SearchedAsListed(start.annotation, discovered);
    forall id | 0 <= id < |cleared.bundles| ensures cleared.bundles[id] == MarkFound(start, limit)[id] {
    }
  }

  /** A search that clears what it finds leaves no live bundle exactly when the pages read show all of them. */
  lemma {:induction false} SearchIsExact(after: State, before: State, discovered: Option<seq<string>>, limit: nat)
    requires Safe(before)
    requires forall id: nat :: OwnedLive(after, id) <==>
               OwnedLive(before, id) && !Found(before, id, Searched(before.annotation, discovered), limit)
    ensures NoLiveBundle(after) <==> PagesShowAll(before, limit)
  {
    AnnotatedAreClean(before.annotation);
    forall id: nat | OwnedLive(before, id)
      ensures OwnedLive(after, id) <==> !OnPage(before.bundles, id, limit)
    {
      assert Covered(before, before.bundles[id].compartment);
      SearchedAsListed(before.annotation, discovered);
    }
  }

  /** What dropping the finalizer adds to the lost bundles. */
  ghost predicate Accounts(start: State, lost: set<nat>, nowLost: set<nat>, limit: nat) {
    && lost <= nowLost
    && forall id :: id in nowLost - lost ==>
         OwnedLive(start, id) && !OnPage(start.bundles, id, limit) && Covered(start, start.bundles[id].compartment)
  }

  /** A completed cleanup of a policy that had the finalizer. */
  ghost predicate CleanedUp(after: State, before: State, discovered: Option<seq<string>>, limit: nat) {
    && !after.finalizer && after.annotation == "" && |after.bundles| == |before.bundles|
    && forall id: nat :: OwnedLive(after, id) <==>
         OwnedLive(before, id) && !Found(before, id, Searched(before.annotation, discovered), limit)
  }

  /** The last step: the finalizer and the annotation go. */
  method DropFinalizer(world: World, ghost lost: set<nat>) returns (ok: bool, ghost nowLost: set<nat>)
    requires world.now.finalizer && SafeExcept(world.now, lost)
    modifies world
    ensures world.trace == old(world.trace) + [world.now] && SafeExcept(world.now, nowLost)
    ensures world.now == old(world.now) || world.now == old(world.now).(finalizer := false, annotation := "")
    ensures ok ==> !world.now.finalizer
    ensures nowLost == if world.now.finalizer then lost else lost + LiveBundles(old(world.now))
    ensures nowLost != lost ==> !Safe(world.now)
    ensures world.answers(old(world.made)) == Applied ==> ok
  {
    nowLost := lost;
    ghost var cleared := world.now;
    ok := world.UpdatePolicy(false, "");
    if world.now.finalizer { return; }
    assert LiveBundles(world.now) == LiveBundles(cleared);
    nowLost := lost + LiveBundles(cleared);
    DroppedFinalizer(world.now, lost);
  }

  lemma {:induction false} ClearedAccounts(
      cleared: State, start: State, lost: set<nat>, discovered: Option<seq<string>>, limit: nat)
    requires SafeExcept(start, lost) && Clears(cleared, start, Searched(start.annotation, discovered), limit)
    ensures Accounts(start, lost, lost + LiveBundles(cleared), limit)
  {
    forall id | id in LiveBundles(cleared) - lost
      ensures OwnedLive(start, id) && !OnPage(start.bundles, id, limit)
      ensures Covered(start, start.bundles[id].compartment)
    {
      LeftBehind(cleared, start, lost, discovered, limit, id);
    }
  }

  lemma {:induction false} ClearedIsCleanedUp(
      after: State, cleared: State, start: State, discovered: Option<seq<string>>, limit: nat)
    requires Clears(cleared, start, Searched(start.annotation, discovered), limit)
    requires after == cleared.(finalizer := false, annotation := "")
    ensures CleanedUp(after, start, discovered, limit)
  {
    forall id: nat ensures OwnedLive(after, id) <==>
                           OwnedLive(start, id) && !Found(start, id, Searched(start.annotation, discovered), limit) {
    }
  }

  /** Cleaning up a policy that is being deleted. The bundles it may leave live without the finalizer are added to
      `lost`: each lies behind the page that was read for its compartment. `CleanupIsExact` and
      `CleanupLosesNothing` say when there are none. */
  method CleanupDeletingPolicy(world: World, discovered: Option<seq<string>>, ghost lost: set<nat>)
    returns (ok: bool, ghost nowLost: set<nat>)
    requires world.Recorded()
    requires SafeExcept(world.now, lost)
    modifies world
    ensures world.Recorded()
    ensures old(world.trace) <= world.trace && AllSafeExcept(world.trace[|old(world.trace)|..], nowLost)
    ensures SafeExcept(world.now, nowLost) && Accounts(old(world.now), lost, nowLost, world.limit)
    ensures nowLost != lost ==> !Safe(world.now) && world.now in world.trace[|old(world.trace)|..]
    ensures ok && old(world.now).finalizer ==> CleanedUp(world.now, old(world.now), discovered, world.limit)
    ensures !old(world.now).finalizer ==> ok && world.now == old(world.now) && nowLost == lost
    ensures (forall n :: world.answers(n) == Applied) && old(world.now).finalizer ==>
              AnnotatedNames(old(world.now).annotation) != {} ==>
                ok && world.now == CleanupOutcome(old(world.now), world.limit)
    ensures Continues(world.now, old(world.now))
  {
    nowLost := lost;
    if !world.now.finalizer { return true, lost; }
    ghost var start, n := world.now, |old(world.trace)|;
    var compartments := SearchedCompartments(world.now.annotation, discovered);
    if compartments.None? { return false, lost; }
    ok := DeleteInAll(world, compartments.value, lost);
    if !ok { return; }
    ghost var cleared, trace := world.now, world.trace;
    ClearedAccounts(cleared, start, lost, discovered, world.limit);
    ok, nowLost := DropFinalizer(world, lost);
    WiderLost(trace[n..], lost, nowLost);
    assert world.trace[n..] == trace[n..] + [world.now];
    if ok { ClearedIsCleanedUp(world.now, cleared, start, discovered, world.limit); }
    if OnlyMarks(cleared, start) && AnnotatedNames(start.annotation) != {} {
      OutcomeIsMarked(cleared, start, discovered, world.limit);
    }
  }

  // ----- when cleaning up is complete

  /** A completed cleanup leaves no live bundle of the policy if and only if the live bundles in each listed
      compartment all lie on the page that is read. */
  lemma {:induction false} CleanupIsExact(after: State, before: State, discovered: Option<seq<string>>, limit: nat)
    requires Safe(before) && CleanedUp(after, before, discovered, limit)
    ensures NoLiveBundle(after) <==> PagesShowAll(before, limit)
    ensures Safe(after) <==> PagesShowAll(before, limit)
  {
    SearchIsExact(after, before, discovered, limit);
    assert Safe(after) <==> NoLiveBundle(after);
  }

  /** Whether or not it completes, a cleanup loses nothing when the bundles of each listed compartment fit on one
      page; a completed one then leaves no live bundle of the policy anywhere. */
  lemma {:induction false} CleanupLosesNothing(
      before: State, lost: set<nat>, nowLost: set<nat>, after: State, discovered: Option<seq<string>>, limit: nat)
    requires CompartmentsFit(before, limit) && Accounts(before, lost, nowLost, limit)
    ensures nowLost == lost
    ensures Safe(before) && CleanedUp(after, before, discovered, limit) ==> NoLiveBundle(after)
  {
    FitLosesNothing(before, lost, nowLost, limit);
    if Safe(before) && CleanedUp(after, before, discovered, limit) {
      forall id: nat | OwnedLive(before, id) ensures OnPage(before.bundles, id, limit) {
        assert Covered(before, before.bundles[id].compartment);
        FittingShows(before, limit, id);
      }
      CleanupIsExact(after, before, discovered, limit);
    }
  }

  const FOREIGN := Bundle("c", "foreign", false, "", Active)
  const BEHIND := Bundle("c", "behind", true, "", Active)

  /** A full page of other bundles, and one live bundle of the policy behind it. */
  function FullPage(limit: nat): State {
    State(true, "c", seq(limit, _ => FOREIGN) + [BEHIND])
  }

  lemma {:induction false} CountForeign(limit: nat)
    ensures Count(seq(limit, _ => FOREIGN), "c", None) == limit
  {
    if limit > 0 {
      assert seq(limit, _ => FOREIGN)[..limit - 1] == seq(limit - 1, _ => FOREIGN);
      CountForeign(limit - 1);
    }
  }

  lemma {:induction false} ListsC()
    ensures AnnotatedNames("c") == {"c"}
  {
    assert "c"[1..] == "" && IndexOf("c", ',') == 1;
    assert Split("c", ',') == ["c"];
    TrimTrimmed("c");
    assert ["c"][1..] == [] && TrimmedSet(["c"]) == {"c"} + TrimmedSet([]);
  }

  /** For every page size: from this safe state the cleanup, with every call applied, drops the finalizer and
      leaves the policy's bundle live. */
  lemma {:induction false} CleanupLeavesBundleBehind(limit: nat)
    ensures var before := FullPage(limit);
            && Safe(before) && Count(before.bundles[..limit], "c", None) == limit
            && AnnotatedNames(before.annotation) != {}
    ensures var after := CleanupOutcome(FullPage(limit), limit);
            !after.finalizer && OwnedLive(after, limit) && !Safe(after)
  {
    var before := FullPage(limit);
    ListsC();
    CountForeign(limit);
    assert before.bundles[..limit] == seq(limit, _ => FOREIGN);
    assert before.bundles[limit] == BEHIND && !OnPage(before.bundles, limit, limit);
    var after := CleanupOutcome(before, limit);
    assert after.bundles[limit] == BEHIND;
    assert OwnedLive(after, limit) && !Covered(after, "c");
  }

  // ----- any sequence of resolves and cleanups

  datatype Event =
    | Resolve(ready: bool, compartment: string, refs: seq<CARef>, expired: seq<bool>)
    | Cleanup(discovered: Option<seq<string>>)

  predicate Fits(e: Event) {
    e.Resolve? ==> (e.compartment == "" || Clean(e.compartment)) && |e.expired| == |e.refs|
  }

  ghost predicate AllFit(trace: seq<State>, limit: nat) {
    forall s :: s in trace ==> CompartmentsFit(s, limit)
  }

  method Handle(world: World, cache: BundleCache, event: Event, ghost lost: set<nat>) returns (ghost nowLost: set<nat>)
    requires world.Recorded()
    requires SafeExcept(world.now, lost) && cache.Sound(world.now) && Fits(event)
    modifies world, cache
    ensures world.Recorded()
    ensures old(world.trace) <= world.trace && AllSafeExcept(world.trace[|old(world.trace)|..], nowLost)
    ensures SafeExcept(world.now, nowLost) && cache.Sound(world.now) && lost <= nowLost
    ensures nowLost != lost ==> !AllSafe(world.trace[|old(world.trace)|..])
    ensures CompartmentsFit(old(world.now), world.limit) ==> nowLost == lost
  {
    ghost var start := world.now;
    match event
    case Resolve(ready, compartment, refs, expired) =>
      nowLost := lost;
      var ok, ids := ResolveAcceptedPolicy(world, cache, ready, compartment, refs, expired, lost);
    case Cleanup(discovered) =>
      var ok;
      ok, nowLost := CleanupDeletingPolicy(world, discovered, lost);
      if CompartmentsFit(start, world.limit) {
        CleanupLosesNothing(start, lost, nowLost, world.now, discovered, world.limit);
      }
  }

  /** Resolves and cleanups follow each other in any order and number, and each may stop after any call. In every
      state in between, every live bundle of the policy is written down on the policy, except for those in `lost`;
      no state is unsafe exactly when none is lost; and none is lost when, in every state, the bundles of each
      listed compartment fit on one page. */
  method History(world: World, cache: BundleCache, events: seq<Event>) returns (ghost lost: set<nat>)
    requires world.Recorded() && world.trace == [] && NoLiveBundle(world.now) && cache.Sound(world.now)
    requires forall e :: e in events ==> Fits(e)
    modifies world, cache
    ensures AllSafeExcept(world.trace, lost)
    ensures AllSafe(world.trace) <==> lost == {}
    ensures AllFit([world.start] + world.trace, world.limit) ==> lost == {}
  {
    lost := {};
    for i := 0 to |events|
      invariant world.Recorded()
      invariant AllSafeExcept(world.trace, lost) && SafeExcept(world.now, lost) && cache.Sound(world.now)
      invariant AllSafe(world.trace) <==> lost == {}
      invariant AllFit([world.start] + world.trace, world.limit) ==> lost == {}
    {
      assert Fits(events[i]);
      ghost var before, trace, now := lost, world.trace, world.now;
      assert now in [world.start] + trace;
      lost := Handle(world, cache, events[i], before);
      WiderLost(trace, before, lost);
      assert world.trace == trace + world.trace[|trace|..];
    }
  }
}
