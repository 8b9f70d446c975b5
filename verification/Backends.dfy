/** Merging the endpoints of a layer-4 route into one backend per address, with added weights. */
module Backends {
  import opened Text

  /** Absent pointers of the source read as 0, false or "". */
  datatype Backend = Backend(
    name: string, ip: string, port: nat, weight: int, drain: bool, backup: bool, offline: bool, target: string)

  function Key(b: Backend): string {
    b.ip + ":" + Itoa(b.port)
  }

  // ----- the code

  function MergeBackend(desired: map<string, Backend>, backend: Backend): map<string, Backend> {
    var key := Key(backend);
    var named := backend.(name := key);
    desired[key := if key in desired
                   then named.(weight := desired[key].weight + backend.weight,
                               drain := desired[key].drain && backend.drain)
                   else named]
  }

  /** Merging one list after another, from the left. */
  function MergeAll(desired: map<string, Backend>, backends: seq<Backend>): map<string, Backend>
    decreases |backends|
  {
    if backends == [] then desired else MergeAll(MergeBackend(desired, backends[0]), backends[1..])
  }

  function Normalized(backends: seq<Backend>): map<string, Backend> {
    MergeAll(map[], backends)
  }

  lemma {:induction false} MergeAllAppend(desired: map<string, Backend>, a: seq<Backend>, b: seq<Backend>)
    ensures MergeAll(desired, a + b) == MergeAll(MergeAll(desired, a), b)
    decreases |a|
  {
    if a == [] {
      assert a + b == b;
    } else {
      assert (a + b)[1..] == a[1..] + b;
      MergeAllAppend(MergeBackend(desired, a[0]), a[1..], b);
    }
  }

  lemma {:induction false} MergeAllSnoc(desired: map<string, Backend>, a: seq<Backend>, last: Backend)
    ensures MergeAll(desired, a + [last]) == MergeBackend(MergeAll(desired, a), last)
  {
    MergeAllAppend(desired, a, [last]);
    assert [last][1..] == [];
  }

  /** `list` holds the values of the map, each once, in some order. */
  ghost predicate Lists(list: seq<Backend>, m: map<string, Backend>) {
    && (forall i, j :: 0 <= i < j < |list| ==> Key(list[i]) != Key(list[j]))
    && (forall b :: b in list ==> Key(b) in m && m[Key(b)] == b)
    && (forall k :: k in m ==> m[k] in list && Key(m[k]) == k)
  }

  lemma {:induction false} ListsSnoc(list: seq<Backend>, m: map<string, Backend>, pending: set<string>, k: string)
    requires Lists(list, m - pending) && k in pending && k in m && Key(m[k]) == k
    ensures Lists(list + [m[k]], m - (pending - {k}))
  {
    var more := list + [m[k]];
    forall j | j in m - (pending - {k}) ensures m[j] in more && Key(m[j]) == j {
      assert j != k ==> j in m - pending;
      assert more[|list|] == m[k];
    }
  }

  /** The values of the map in whatever order the runtime iterates it. */
  method Values(m: map<string, Backend>) returns (list: seq<Backend>)
    requires forall k :: k in m ==> Key(m[k]) == k
    ensures Lists(list, m)
  {
    list := [];
    var pending := m.Keys;
    while pending != {}
      invariant pending <= m.Keys
      invariant Lists(list, m - pending)
      decreases |pending|
    {
      var k :| k in pending;
      ListsSnoc(list, m, pending, k);
      list := list + [m[k]];
      pending := pending - {k};
    }
    assert m - {} == m;
  }

  method NormalizeBackendDetails(backends: seq<Backend>) returns (result: seq<Backend>)
    ensures Lists(result, Normalized(backends))
  {
    var normalized: map<string, Backend> := map[];
    for i := 0 to |backends|
      invariant normalized == Normalized(backends[..i])
    {
      MergeAllSnoc(map[], backends[..i], backends[i]);
      assert backends[..i + 1] == backends[..i] + [backends[i]];
      normalized := MergeBackend(normalized, backends[i]);
    }
    assert backends[..|backends|] == backends;
    NormalizedIsKeyed(backends);
    result := Values(normalized);
  }

  function Flatten(groups: seq<seq<Backend>>): seq<Backend> {
    if groups == [] then [] else groups[0] + Flatten(groups[1..])
  }

  lemma {:induction false} FlattenSnoc(groups: seq<seq<Backend>>, last: seq<Backend>)
    ensures Flatten(groups + [last]) == Flatten(groups) + last
  {
    if groups == [] {
      assert [last][1..] == [] && [] + [last] == [last] && last + [] == last;
    } else {
      assert (groups + [last])[1..] == groups[1..] + [last];
      FlattenSnoc(groups[1..], last);
    }
  }

  /** The backends of a route: one group of endpoints per backend reference, merged as they come. */
  method EndpointBackendsForRoute(groups: seq<seq<Backend>>) returns (result: seq<Backend>)
    ensures Lists(result, Normalized(Flatten(groups)))
  {
    var desired: map<string, Backend> := map[];
    for i := 0 to |groups|
      invariant desired == Normalized(Flatten(groups[..i]))
    {
      ghost var done := Flatten(groups[..i]);
      assert done + groups[i][..0] == done;
      for j := 0 to |groups[i]|
        invariant desired == Normalized(done + groups[i][..j])
      {
        MergeAllSnoc(map[], done + groups[i][..j], groups[i][j]);
        assert done + groups[i][..j + 1] == done + groups[i][..j] + [groups[i][j]];
        desired := MergeBackend(desired, groups[i][j]);
      }
      FlattenSnoc(groups[..i], groups[i]);
      assert groups[..i + 1] == groups[..i] + [groups[i]];
      assert groups[i][..|groups[i]|] == groups[i];
    }
    assert groups[..|groups|] == groups;
    NormalizedIsKeyed(Flatten(groups));
    result := Values(desired);
  }

  // ----- keys tell addresses apart

  lemma {:induction false} ColonsPrecedeDigits(ip: string, digits: string, i: nat)
    requires ':' !in digits && i < |ip| + 1 + |digits| && (ip + ":" + digits)[i] == ':'
    ensures i <= |ip|
  {
  }

  /** Addresses may hold colons themselves; the last one ends the address. */
  lemma {:induction false} KeyIsInjective(a: Backend, b: Backend)
    requires Key(a) == Key(b)
    ensures a.ip == b.ip && a.port == b.port
  {
    var x, y := Itoa(a.port), Itoa(b.port);
    assert ':' !in x && ':' !in y;
    assert Key(a)[|a.ip|] == ':' && Key(b)[|b.ip|] == ':';
    ColonsPrecedeDigits(a.ip, x, |b.ip|);
    ColonsPrecedeDigits(b.ip, y, |a.ip|);
    assert Key(a)[..|a.ip|] == a.ip && Key(b)[..|b.ip|] == b.ip;
    assert Key(a)[|a.ip| + 1..] == x && Key(b)[|b.ip| + 1..] == y;
    ItoaInjective(a.port, b.port);
  }

  // ----- what a merged backend holds

  function TotalWeight(backends: seq<Backend>): int {
    if backends == [] then 0 else backends[0].weight + TotalWeight(backends[1..])
  }

  function OfKey(backends: seq<Backend>, key: string): (r: seq<Backend>)
    ensures forall b :: b in r <==> b in backends && Key(b) == key
  {
    if backends == [] then []
    else (if Key(backends[0]) == key then [backends[0]] else []) + OfKey(backends[1..], key)
  }

  /** What merging makes of all entries of one key: the last one, with the weights added up, draining only when
      all of them drain. */
  function Combined(entries: seq<Backend>): Backend
    requires entries != []
  {
    var last := entries[|entries| - 1];
    last.(name := Key(last), weight := TotalWeight(entries), drain := forall b :: b in entries ==> b.drain)
  }

  lemma {:induction false} TotalWeightAppend(a: seq<Backend>, b: seq<Backend>)
    ensures TotalWeight(a + b) == TotalWeight(a) + TotalWeight(b)
  {
    if a == [] {
      assert a + b == b;
    } else {
      assert (a + b)[1..] == a[1..] + b;
      TotalWeightAppend(a[1..], b);
    }
  }

  lemma {:induction false} OfKeyAppend(a: seq<Backend>, b: seq<Backend>, key: string)
    ensures OfKey(a + b, key) == OfKey(a, key) + OfKey(b, key)
  {
    if a == [] {
      assert a + b == b;
    } else {
      assert (a + b)[1..] == a[1..] + b;
      OfKeyAppend(a[1..], b, key);
    }
  }

  lemma {:induction false} CombinedSnoc(entries: seq<Backend>, last: Backend)
    requires entries != []
    ensures Combined(entries + [last]) ==
            last.(name := Key(last), weight := Combined(entries).weight + last.weight,
                  drain := Combined(entries).drain && last.drain)
  {
    TotalWeightAppend(entries, [last]);
    assert TotalWeight([last]) == last.weight by { assert [last][1..] == []; }
    var all := entries + [last];
    assert (forall b :: b in all ==> b.drain) <==> (forall b :: b in entries ==> b.drain) && last.drain by {
      assert all[|entries|] == last;
      assert forall b :: b in entries ==> b in all;
    }
  }

  lemma {:induction false} CombinedOne(b: Backend)
    ensures Combined([b]) == b.(name := Key(b))
  {
    assert [b][1..] == [] && TotalWeight([b]) == b.weight;
    assert b in [b] && forall x :: x in [b] ==> x == b;
  }

  /** The merged map, key by key. */
  lemma {:induction false} MergedEntries(backends: seq<Backend>, key: string)
    ensures key in Normalized(backends) <==> OfKey(backends, key) != []
    ensures key in Normalized(backends) ==> Normalized(backends)[key] == Combined(OfKey(backends, key))
    decreases |backends|
  {
    if backends != [] {
      var n := |backends| - 1;
      var init, last := backends[..n], backends[n];
      assert backends == init + [last];
      MergedEntries(init, key);
      MergeAllSnoc(map[], init, last);
      OfKeyAppend(init, [last], key);
      assert OfKey([last], key) == if Key(last) == key then [last] else [] by { assert [last][1..] == []; }
      if Key(last) == key {
        if OfKey(init, key) == [] {
          CombinedOne(last);
          assert OfKey(backends, key) == [last];
        } else {
          CombinedSnoc(OfKey(init, key), last);
        }
      } else {
        assert OfKey(backends, key) == OfKey(init, key);
      }
    }
  }

  lemma {:induction false} NormalizedIsKeyed(backends: seq<Backend>)
    ensures forall k :: k in Normalized(backends) ==>
              Key(Normalized(backends)[k]) == k && Normalized(backends)[k].name == k
  {
    forall k | k in Normalized(backends)
      ensures Key(Normalized(backends)[k]) == k && Normalized(backends)[k].name == k
    {
      MergedEntries(backends, k);
      var entries := OfKey(backends, k);
      assert entries[|entries| - 1] in entries;
    }
  }

  // ----- conservation

  function Without(backends: seq<Backend>, key: string): seq<Backend> {
    if backends == [] then []
    else (if Key(backends[0]) == key then [] else [backends[0]]) + Without(backends[1..], key)
  }

  lemma {:induction false} WithoutSplitsWeight(backends: seq<Backend>, key: string)
    ensures TotalWeight(backends) == TotalWeight(OfKey(backends, key)) + TotalWeight(Without(backends, key))
  {
    if backends != [] {
      var first, rest := backends[0], backends[1..];
      WithoutSplitsWeight(rest, key);
      assert TotalWeight([first]) == first.weight by { assert [first][1..] == []; }
      if Key(first) == key {
        TotalWeightAppend([first], OfKey(rest, key));
        assert Without(backends, key) == Without(rest, key);
      } else {
        TotalWeightAppend([first], Without(rest, key));
        assert OfKey(backends, key) == OfKey(rest, key);
      }
    }
  }

  lemma {:induction false} WithoutKeepsOthers(backends: seq<Backend>, key: string, other: string)
    ensures OfKey(Without(backends, key), other) == if other == key then [] else OfKey(backends, other)
  {
    if backends != [] {
      WithoutKeepsOthers(backends[1..], key, other);
      if Key(backends[0]) != key {
        OfKeyAppend([backends[0]], Without(backends[1..], key), other);
        assert [backends[0]][1..] == [];
      } else {
        assert Without(backends, key) == Without(backends[1..], key);
      }
    }
  }

  /** A listing, without reference to a map: each key of the input once, with its combined entries. */
  ghost predicate ListsCombined(list: seq<Backend>, backends: seq<Backend>) {
    && (forall i, j :: 0 <= i < j < |list| ==> Key(list[i]) != Key(list[j]))
    && (forall b :: b in list ==> OfKey(backends, Key(b)) != [] && b == Combined(OfKey(backends, Key(b))))
    && (forall b :: b in backends ==> exists l :: l in list && Key(l) == Key(b))
  }

  lemma {:induction false} ListedIsCombined(list: seq<Backend>, backends: seq<Backend>)
    requires Lists(list, Normalized(backends))
    ensures ListsCombined(list, backends)
  {
    forall b | b in list ensures OfKey(backends, Key(b)) != [] && b == Combined(OfKey(backends, Key(b))) {
      MergedEntries(backends, Key(b));
    }
    forall b | b in backends ensures exists l :: l in list && Key(l) == Key(b) {
      MergedEntries(backends, Key(b));
      assert b in OfKey(backends, Key(b));
      assert Normalized(backends)[Key(b)] in list;
    }
  }

  lemma {:induction false} CombinedListDrops(list: seq<Backend>, backends: seq<Backend>)
    requires ListsCombined(list, backends) && list != []
    ensures ListsCombined(list[1..], Without(backends, Key(list[0])))
  {
    var key := Key(list[0]);
    var fewer := Without(backends, key);
    forall b | b in list[1..] ensures OfKey(fewer, Key(b)) != [] && b == Combined(OfKey(fewer, Key(b))) {
      WithoutKeepsOthers(backends, key, Key(b));
    }
    forall b | b in fewer ensures exists l :: l in list[1..] && Key(l) == Key(b) {
      WithoutKeepsOthers(backends, key, Key(b));
      assert b in OfKey(fewer, Key(b));
      assert OfKey(backends, Key(b)) != [];
      assert OfKey(backends, Key(b))[0] in backends;
      var l :| l in list && Key(l) == Key(b);
      assert l in list[1..];
    }
  }

  lemma {:induction false} CombinedListWeighs(list: seq<Backend>, backends: seq<Backend>)
    requires ListsCombined(list, backends)
    ensures TotalWeight(list) == TotalWeight(backends)
    decreases |list|
  {
    assert backends != [] ==> backends[0] in backends;
    if list != [] {
      assert list[0] in list;
      CombinedListDrops(list, backends);
      CombinedListWeighs(list[1..], Without(backends, Key(list[0])));
      WithoutSplitsWeight(backends, Key(list[0]));
    }
  }

  /** Normalizing makes keys unique and conserves weight: the total over all backends, and for each address the
      total of its entries; an address drains exactly when all its entries drain. */
  lemma {:induction false} NormalizationConserves(backends: seq<Backend>, list: seq<Backend>)
    requires Lists(list, Normalized(backends))
    ensures TotalWeight(list) == TotalWeight(backends)
    ensures forall i, j :: 0 <= i < j < |list| ==> list[i].ip != list[j].ip || list[i].port != list[j].port
    ensures forall b :: b in backends ==> exists l :: l in list && l.ip == b.ip && l.port == b.port
    ensures forall l :: l in list ==>
              && l.weight == TotalWeight(OfKey(backends, Key(l)))
              && (l.drain <==> forall b :: b in OfKey(backends, Key(l)) ==> b.drain)
  {
    ListedIsCombined(list, backends);
    CombinedListWeighs(list, backends);
    forall b | b in backends ensures exists l :: l in list && l.ip == b.ip && l.port == b.port {
      var l :| l in list && Key(l) == Key(b);
      KeyIsInjective(l, b);
    }
  }

  // ----- normalizing twice

  lemma {:induction false} NoneOfKey(list: seq<Backend>, key: string)
    requires forall b :: b in list ==> Key(b) != key
    ensures OfKey(list, key) == []
  {
    if list != [] { NoneOfKey(list[1..], key); }
  }

  lemma {:induction false} UniqueOfKey(list: seq<Backend>, b: Backend)
    requires b in list && forall i, j :: 0 <= i < j < |list| ==> Key(list[i]) != Key(list[j])
    ensures OfKey(list, Key(b)) == [b]
  {
    if list[0] == b {
      var rest := OfKey(list[1..], Key(b));
      assert forall x :: x in list[1..] ==> Key(x) != Key(b);
      NoneOfKey(list[1..], Key(b));
    } else {
      assert b in list[1..];
      UniqueOfKey(list[1..], b);
    }
  }

  /** Normalizing any listing of a normalized list changes nothing. */
  lemma {:induction false} NormalizationIsIdempotent(backends: seq<Backend>, list: seq<Backend>)
    requires Lists(list, Normalized(backends))
    ensures Normalized(list) == Normalized(backends)
  {
    var m := Normalized(backends);
    NormalizedIsKeyed(backends);
    forall k ensures k in Normalized(list) <==> k in m
             ensures k in m ==> Normalized(list)[k] == m[k]
    {
      MergedEntries(list, k);
      assert OfKey(list, k) != [] ==> OfKey(list, k)[0] in list;
      if k in m {
        UniqueOfKey(list, m[k]);
        CombinedOne(m[k]);
      }
    }
  }

  // ----- input order

  predicate SameAddress(a: Backend, b: Backend) {
    a.ip == b.ip && a.port == b.port
  }

  /** The fields that merging takes from one entry only. */
  predicate SameExtras(a: Backend, b: Backend) {
    a.backup == b.backup && a.offline == b.offline && a.target == b.target
  }

  ghost predicate ExtrasAgree(backends: seq<Backend>) {
    forall a, b :: a in backends && b in backends && SameAddress(a, b) ==> SameExtras(a, b)
  }

  lemma {:induction false} SplitAround(backends: seq<Backend>, b: Backend)
    returns (pre: seq<Backend>, post: seq<Backend>)
    requires b in backends
    ensures backends == pre + [b] + post
    ensures multiset(backends) == multiset(pre + post) + multiset{b}
  {
    var i :| 0 <= i < |backends| && backends[i] == b;
    pre, post := backends[..i], backends[i + 1..];
  }

  lemma {:induction false} RemoveOne(backends: seq<Backend>, b: Backend) returns (rest: seq<Backend>)
    requires b in backends
    ensures multiset(backends) == multiset(rest) + multiset{b}
  {
    var pre, post := SplitAround(backends, b);
    rest := pre + post;
  }

  /** The rest of `b` when the first element of its rearrangement `a` is taken out. */
  lemma {:induction false} TakeFirst(a: seq<Backend>, b: seq<Backend>) returns (pre: seq<Backend>, post: seq<Backend>)
    requires multiset(a) == multiset(b) && a != []
    ensures b == pre + [a[0]] + post && multiset(a[1..]) == multiset(pre + post)
  {
    SameMembers(a, b);
    assert a[0] in a;
    pre, post := SplitAround(b, a[0]);
    assert a == [a[0]] + a[1..];
    assert multiset(a) == multiset{a[0]} + multiset(a[1..]);
    assert multiset(pre + post) == multiset(a) - multiset{a[0]};
  }

  lemma {:induction false} WeightAround(pre: seq<Backend>, x: Backend, post: seq<Backend>)
    ensures TotalWeight(pre + [x] + post) == x.weight + TotalWeight(pre + post)
  {
    TotalWeightAppend(pre + [x], post);
    TotalWeightAppend(pre, [x]);
    TotalWeightAppend(pre, post);
    assert TotalWeight([x]) == x.weight by { assert [x][1..] == []; }
  }

  lemma {:induction false} WeightIgnoresOrder(a: seq<Backend>, b: seq<Backend>)
    requires multiset(a) == multiset(b)
    ensures TotalWeight(a) == TotalWeight(b)
    decreases |a|
  {
    SameSize(a, b);
    if a != [] {
      var pre, post := TakeFirst(a, b);
      WeightIgnoresOrder(a[1..], pre + post);
      WeightAround(pre, a[0], post);
    }
  }

  lemma {:induction false} OfKeyAround(pre: seq<Backend>, x: Backend, post: seq<Backend>, key: string)
    ensures multiset(OfKey(pre + [x] + post, key)) == multiset(OfKey([x], key)) + multiset(OfKey(pre + post, key))
  {
    OfKeyAppend(pre + [x], post, key);
    OfKeyAppend(pre, [x], key);
    OfKeyAppend(pre, post, key);
  }

  lemma {:induction false} OfKeyIgnoresOrder(a: seq<Backend>, b: seq<Backend>, key: string)
    requires multiset(a) == multiset(b)
    ensures multiset(OfKey(a, key)) == multiset(OfKey(b, key))
    decreases |a|
  {
    SameSize(a, b);
    if a != [] {
      var pre, post := TakeFirst(a, b);
      OfKeyIgnoresOrder(a[1..], pre + post, key);
      OfKeyAround(pre, a[0], post, key);
      OfKeyAround([], a[0], a[1..], key);
      assert a == [] + [a[0]] + a[1..] && [] + a[1..] == a[1..];
    }
  }

  /** Weights, draining and addresses never depend on the input order. */
  lemma {:induction false} SumsIgnoreOrder(a: seq<Backend>, b: seq<Backend>, key: string)
    requires multiset(a) == multiset(b)
    ensures key in Normalized(a) <==> key in Normalized(b)
    ensures key in Normalized(a) ==>
              && Normalized(a)[key].weight == Normalized(b)[key].weight
              && Normalized(a)[key].drain == Normalized(b)[key].drain
              && SameAddress(Normalized(a)[key], Normalized(b)[key])
              && Normalized(a)[key].name == Normalized(b)[key].name
  {
    MergedEntries(a, key);
    MergedEntries(b, key);
    NormalizedIsKeyed(a);
    NormalizedIsKeyed(b);
    var x, y := OfKey(a, key), OfKey(b, key);
    OfKeyIgnoresOrder(a, b, key);
    assert |multiset(x)| == |x| && |multiset(y)| == |y|;
    if x != [] {
      WeightIgnoresOrder(x, y);
      SameMembers(x, y);
      KeyIsInjective(Normalized(a)[key], Normalized(b)[key]);
    }
  }

  lemma {:induction false} LastWins(rest: seq<Backend>, last: Backend)
    ensures Key(last) in Normalized(rest + [last]) && SameExtras(Normalized(rest + [last])[Key(last)], last)
  {
    MergeAllSnoc(map[], rest, last);
  }

  lemma {:induction false} SameKeyOfSameAddress(a: Backend, b: Backend)
    requires SameAddress(a, b)
    ensures Key(a) == Key(b)
  {
  }

  lemma {:induction false} ExtrasOfEntry(a: seq<Backend>, key: string) returns (last: Backend)
    requires key in Normalized(a)
    ensures last in a && Key(last) == key && SameExtras(Normalized(a)[key], last)
  {
    MergedEntries(a, key);
    var entries := OfKey(a, key);
    last := entries[|entries| - 1];
    assert last in entries;
  }

  lemma {:induction false} AgreeingEntry(a: seq<Backend>, b: seq<Backend>, key: string)
    requires multiset(a) == multiset(b) && ExtrasAgree(a) && key in Normalized(a)
    ensures key in Normalized(b) && Normalized(a)[key] == Normalized(b)[key]
  {
    SumsIgnoreOrder(a, b, key);
    var x := ExtrasOfEntry(a, key);
    var y := ExtrasOfEntry(b, key);
    KeyIsInjective(x, y);
    SameMembers(a, b);
  }

  lemma {:induction false} AgreeingExtras(a: seq<Backend>, b: seq<Backend>)
    requires multiset(a) == multiset(b) && ExtrasAgree(a)
    ensures Normalized(a) == Normalized(b)
  {
    forall key ensures key in Normalized(a) <==> key in Normalized(b) { SumsIgnoreOrder(a, b, key); }
    forall key | key in Normalized(a) ensures Normalized(a)[key] == Normalized(b)[key] { AgreeingEntry(a, b, key); }
  }

  lemma {:induction false} DisagreeingExtras(a: seq<Backend>, x: Backend, y: Backend) returns (b: seq<Backend>)
    requires x in a && y in a && SameAddress(x, y) && !SameExtras(x, y)
    ensures multiset(b) == multiset(a) && Normalized(b) != Normalized(a)
  {
    SameKeyOfSameAddress(x, y);
    var withoutX := RemoveOne(a, x);
    var withoutY := RemoveOne(a, y);
    LastWins(withoutX, x);
    LastWins(withoutY, y);
    b := if Normalized(withoutX + [x]) != Normalized(a) then withoutX + [x] else withoutY + [y];
  }

  /** The whole result is the same for every input order exactly when entries of one address agree on the
      fields that are not added up. */
  lemma {:induction false} OrderIndependence(a: seq<Backend>)
    ensures (forall b :: multiset(b) == multiset(a) ==> Normalized(b) == Normalized(a)) <==> ExtrasAgree(a)
  {
    if ExtrasAgree(a) {
      forall b | multiset(b) == multiset(a) ensures Normalized(b) == Normalized(a) { AgreeingExtras(a, b); }
    } else {
      var x, y :| x in a && y in a && SameAddress(x, y) && !SameExtras(x, y);
      var b := DisagreeingExtras(a, x, y);
    }
  }
}
