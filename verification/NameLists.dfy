/** Sets of names kept in annotations: joined in sorted order with commas, and read back with trimming. */
module NameLists {
  import opened Text
  import opened Precedence

  // ----- writing

  function NameRank(name: string): Rank {
    Rank(0, name)
  }

  function SortNames(names: seq<string>): seq<string> {
    Sort(names, NameRank)
  }

  ghost predicate ListsSet(list: seq<string>, names: set<string>) {
    (forall i, j :: 0 <= i < j < |list| ==> list[i] != list[j]) && (forall n :: n in list <==> n in names)
  }

  /** The text is the sorted names joined by commas. */
  ghost predicate Encodes(text: string, names: set<string>) {
    exists list :: ListsSet(list, names) && text == Join(SortNames(list), ",")
  }

  method JoinedAnnotationNames(names: set<string>) returns (text: string)
    ensures Encodes(text, names)
  {
    var list: seq<string> := [];
    var pending := names;
    while pending != {}
      invariant pending <= names
      invariant ListsSet(list, names - pending)
      decreases |pending|
    {
      var n :| n in pending;
      list := list + [n];
      pending := pending - {n};
    }
    assert names - {} == names;
    text := Join(SortNames(list), ",");
  }

  lemma {:induction false} DistinctCount(list: seq<string>, n: string)
    requires forall i, j :: 0 <= i < j < |list| ==> list[i] != list[j]
    ensures multiset(list)[n] == if n in list then 1 else 0
  {
    if list != [] {
      DistinctCount(list[1..], n);
      assert list == [list[0]] + list[1..];
    }
  }

  /** The order in which a set is iterated does not show: equal sets give equal texts. */
  lemma {:induction false} EncodingIsUnique(a: string, b: string, names: set<string>)
    requires Encodes(a, names) && Encodes(b, names)
    ensures a == b
  {
    var x :| ListsSet(x, names) && a == Join(SortNames(x), ",");
    var y :| ListsSet(y, names) && b == Join(SortNames(y), ",");
    forall n ensures multiset(x)[n] == multiset(y)[n] {
      DistinctCount(x, n);
      DistinctCount(y, n);
    }
    assert multiset(x) == multiset(y);
    SortIgnoresOrder(x, y, NameRank);
  }

  // ----- reading

  /** A name that survives the annotation. */
  predicate Clean(name: string) {
    name != "" && ',' !in name && Trimmed(name)
  }

  function TrimmedSet(parts: seq<string>): (names: set<string>) {
    if parts == [] then {}
    else (if TrimSpace(parts[0]) == "" then {} else {TrimSpace(parts[0])}) + TrimmedSet(parts[1..])
  }

  function AnnotatedNames(text: string): set<string> {
    TrimmedSet(Split(text, ','))
  }

  method AnnotatedResourceNames(text: string) returns (names: set<string>)
    ensures names == AnnotatedNames(text)
  {
    var parts := Split(text, ',');
    names := {};
    for i := 0 to |parts|
      invariant names + TrimmedSet(parts[i..]) == TrimmedSet(parts)
    {
      assert parts[i..][0] == parts[i] && parts[i..][1..] == parts[i + 1..];
      var name := TrimSpace(parts[i]);
      if name != "" {
        names := names + {name};
      }
    }
    assert parts[|parts|..] == [];
  }

  lemma {:induction false} TrimmedSetOfClean(parts: seq<string>)
    requires forall p :: p in parts ==> Clean(p)
    ensures forall n :: n in TrimmedSet(parts) <==> n in parts
  {
    if parts != [] {
      assert parts[0] in parts;
      TrimTrimmed(parts[0]);
      TrimmedSetOfClean(parts[1..]);
    }
  }

  lemma {:induction false} JoinedSurvive(sorted: seq<string>)
    requires forall n :: n in sorted ==> Clean(n)
    ensures forall n :: n in AnnotatedNames(Join(sorted, ",")) <==> n in sorted
  {
    if sorted == [] {
      assert Split("", ',') == [""];
      assert TrimmedSet([""]) == {} by { assert [""][1..] == []; }
    } else {
      SplitJoin(sorted, ',');
      TrimmedSetOfClean(sorted);
    }
  }

  lemma {:induction false} SortedMembers(list: seq<string>)
    ensures forall n :: n in SortNames(list) <==> n in list
  {
    SortKeepsItems(list, NameRank);
    SameMembers(list, SortNames(list));
  }

  /** Reading the annotation gives back exactly the names that were written. */
  lemma {:induction false} NamesSurvive(text: string, names: set<string>)
    requires Encodes(text, names) && forall n :: n in names ==> Clean(n)
    ensures AnnotatedNames(text) == names
  {
    var list :| ListsSet(list, names) && text == Join(SortNames(list), ",");
    SortedMembers(list);
    JoinedSurvive(SortNames(list));
  }

  lemma {:induction false} TrimLeftKeeps(s: string)
    ensures forall c :: c in TrimLeft(s) ==> c in s
  {
    if s != "" { TrimLeftKeeps(s[1..]); }
  }

  lemma {:induction false} TrimmedIsClean(s: string)
    requires ',' !in s && TrimSpace(s) != ""
    ensures Clean(TrimSpace(s))
  {
    TrimLeftKeeps(s);
    var t, u := TrimLeft(s), TrimSpace(s);
    assert u == t[..|u|];
    assert u[0] == t[0];
  }

  lemma {:induction false} SplitHasNoSeparator(text: string, sep: char)
    ensures forall p :: p in Split(text, sep) ==> sep !in p
    decreases |text|
  {
    var i := IndexOf(text, sep);
    if i < |text| { SplitHasNoSeparator(text[i + 1..], sep); }
  }

  lemma {:induction false} TrimmedSetIsClean(parts: seq<string>)
    requires forall p :: p in parts ==> ',' !in p
    ensures forall n :: n in TrimmedSet(parts) ==> Clean(n)
  {
    if parts != [] {
      assert parts[0] in parts;
      if TrimSpace(parts[0]) != "" { TrimmedIsClean(parts[0]); }
      TrimmedSetIsClean(parts[1..]);
    }
  }

  /** Whatever an annotation holds, the names read from it are clean and so can be written again. */
  lemma {:induction false} AnnotatedAreClean(text: string)
    ensures forall n :: n in AnnotatedNames(text) ==> Clean(n)
  {
    SplitHasNoSeparator(text, ',');
    TrimmedSetIsClean(Split(text, ','));
  }
}
