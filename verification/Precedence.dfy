/** The order in which competing objects take precedence: older first, then by key. */
module Precedence {
  import opened Text

  datatype Rank = Rank(created: int, key: string)

  predicate Before(a: Rank, b: Rank) {
    a.created < b.created || (a.created == b.created && Less(a.key, b.key))
  }

  lemma {:induction false} BeforeIsStrictTotal(a: Rank, b: Rank)
    ensures Before(a, b) ==> !Before(b, a) && a != b
    ensures a == b || Before(a, b) || Before(b, a)
  {
    LessTotal(a.key, b.key);
    LessIrreflexive(a.key);
    if Less(a.key, b.key) && Less(b.key, a.key) { LessTransitive(a.key, b.key, a.key); }
  }

  lemma {:induction false} NotAfterTransitive(a: Rank, b: Rank, c: Rank)
    requires !Before(b, a) && !Before(c, b)
    ensures !Before(c, a)
  {
    BeforeIsStrictTotal(a, b);
    BeforeIsStrictTotal(b, c);
    if Before(c, a) && Before(a, b) {
      if Less(c.key, a.key) && Less(a.key, b.key) { LessTransitive(c.key, a.key, b.key); }
    }
  }

  // ----- stable sorting

  function Insert<T>(item: T, sorted: seq<T>, rank: T -> Rank): seq<T> {
    if sorted == [] then [item]
    else if Before(rank(sorted[0]), rank(item)) then [sorted[0]] + Insert(item, sorted[1..], rank)
    else [item] + sorted
  }

  function Sort<T>(items: seq<T>, rank: T -> Rank): seq<T> {
    if items == [] then [] else Insert(items[0], Sort(items[1..], rank), rank)
  }

  ghost predicate Sorted<T(!new)>(items: seq<T>, rank: T -> Rank) {
    forall i, j :: 0 <= i < j < |items| ==> !Before(rank(items[j]), rank(items[i]))
  }

  ghost predicate DistinctRanks<T(!new)>(items: seq<T>, rank: T -> Rank) {
    forall x, y :: x in items && y in items && x != y ==> rank(x) != rank(y)
  }

  lemma {:induction false} InsertKeepsItems<T>(item: T, sorted: seq<T>, rank: T -> Rank)
    ensures multiset(Insert(item, sorted, rank)) == multiset(sorted) + multiset{item}
    ensures |Insert(item, sorted, rank)| == |sorted| + 1
  {
    if sorted != [] {
      assert sorted == [sorted[0]] + sorted[1..];
      if Before(rank(sorted[0]), rank(item)) { InsertKeepsItems(item, sorted[1..], rank); }
    }
  }

  lemma {:induction false} SortKeepsItems<T>(items: seq<T>, rank: T -> Rank)
    ensures multiset(Sort(items, rank)) == multiset(items)
  {
    if items != [] {
      assert items == [items[0]] + items[1..];
      SortKeepsItems(items[1..], rank);
      InsertKeepsItems(items[0], Sort(items[1..], rank), rank);
    }
  }

  lemma {:induction false} InsertedMembers<T>(item: T, sorted: seq<T>, rank: T -> Rank)
    ensures forall x :: x in Insert(item, sorted, rank) <==> x == item || x in sorted
  {
    if sorted != [] && Before(rank(sorted[0]), rank(item)) { InsertedMembers(item, sorted[1..], rank); }
  }

  lemma {:induction false} InsertKeepsSorted<T(!new)>(item: T, sorted: seq<T>, rank: T -> Rank)
    requires Sorted(sorted, rank)
    ensures Sorted(Insert(item, sorted, rank), rank)
  {
    if sorted != [] {
      var first, tail := sorted[0], sorted[1..];
      if Before(rank(first), rank(item)) {
        InsertKeepsSorted(item, tail, rank);
        InsertedMembers(item, tail, rank);
        BeforeIsStrictTotal(rank(first), rank(item));
        PrependSorted(first, Insert(item, tail, rank), rank);
      } else {
        BeforeIsStrictTotal(rank(first), rank(first));
        forall x | x in sorted ensures !Before(rank(x), rank(item)) {
          NotAfterTransitive(rank(item), rank(first), rank(x));
        }
        PrependSorted(item, sorted, rank);
      }
    }
  }

  lemma {:induction false} PrependSorted<T(!new)>(first: T, tail: seq<T>, rank: T -> Rank)
    requires Sorted(tail, rank) && forall x :: x in tail ==> !Before(rank(x), rank(first))
    ensures Sorted([first] + tail, rank)
  {
  }

  /** Sorting yields a sorted rearrangement. */
  lemma {:induction false} SortSorts<T(!new)>(items: seq<T>, rank: T -> Rank)
    ensures Sorted(Sort(items, rank), rank)
    ensures multiset(Sort(items, rank)) == multiset(items)
  {
    SortKeepsItems(items, rank);
    if items != [] {
      SortSorts(items[1..], rank);
      InsertKeepsSorted(items[0], Sort(items[1..], rank), rank);
    }
  }

  lemma {:induction false} SameFirst<T(!new)>(a: seq<T>, b: seq<T>, rank: T -> Rank)
    requires Sorted(a, rank) && Sorted(b, rank) && DistinctRanks(a, rank)
    requires a != [] && b != [] && multiset(a) == multiset(b)
    ensures a[0] == b[0]
  {
    SameMembers(a, b);
    FirstIsLeast(a, rank);
    FirstIsLeast(b, rank);
    assert b[0] in a && a[0] in b;
    BeforeIsStrictTotal(rank(a[0]), rank(b[0]));
  }

  lemma {:induction false} TailItems<T>(a: seq<T>)
    requires a != []
    ensures multiset(a[1..]) == multiset(a) - multiset{a[0]}
  {
    assert a == [a[0]] + a[1..];
  }

  lemma {:induction false} TailKeeps<T(!new)>(a: seq<T>, rank: T -> Rank)
    requires a != [] && Sorted(a, rank)
    ensures Sorted(a[1..], rank) && (DistinctRanks(a, rank) ==> DistinctRanks(a[1..], rank))
  {
  }

  lemma {:induction false} TailsMatch<T>(a: seq<T>, b: seq<T>)
    requires a != [] && b != [] && a[0] == b[0] && multiset(a) == multiset(b)
    ensures multiset(a[1..]) == multiset(b[1..])
  {
    TailItems(a);
    TailItems(b);
  }

  /** With distinct ranks there is one sorted arrangement only. */
  lemma {:induction false} SortedIsDetermined<T(!new)>(a: seq<T>, b: seq<T>, rank: T -> Rank)
    requires Sorted(a, rank) && Sorted(b, rank) && DistinctRanks(a, rank)
    requires multiset(a) == multiset(b)
    ensures a == b
  {
    SameSize(a, b);
    if a != [] {
      SameFirst(a, b, rank);
      TailsMatch(a, b);
      TailKeeps(a, rank);
      TailKeeps(b, rank);
      SortedIsDetermined(a[1..], b[1..], rank);
      assert a == [a[0]] + a[1..] && b == [b[0]] + b[1..];
    }
  }

  lemma {:induction false} FirstIsLeast<T(!new)>(a: seq<T>, rank: T -> Rank)
    requires a != [] && Sorted(a, rank)
    ensures forall x :: x in a ==> !Before(rank(x), rank(a[0]))
  {
    BeforeIsStrictTotal(rank(a[0]), rank(a[0]));
  }

  /** The input order does not matter. */
  lemma {:induction false} SortIgnoresOrder<T(!new)>(a: seq<T>, b: seq<T>, rank: T -> Rank)
    requires DistinctRanks(a, rank) && multiset(a) == multiset(b)
    ensures Sort(a, rank) == Sort(b, rank)
  {
    SortSorts(a, rank);
    SortSorts(b, rank);
    SameMembers(a, Sort(a, rank));
    SortedIsDetermined(Sort(a, rank), Sort(b, rank), rank);
  }
}
