/** Sorting with a caller-supplied strict order, as Go's sort.Slice is used:
    the keys are distinct, so the sorted sequence does not depend on the algorithm. */
module Sorting {
  ghost predicate StrictOrder<T(!new)>(less: (T, T) -> bool) {
    && (forall x, y :: less(x, y) ==> !less(y, x))
    && (forall x, y, z :: less(x, y) && less(y, z) ==> less(x, z))
  }

  predicate Sorted<T>(less: (T, T) -> bool, s: seq<T>) {
    forall i, j :: 0 <= i < j < |s| ==> less(s[i], s[j])
  }

  /** Any two distinct elements of s are ordered one way or the other. */
  predicate Comparable<T(==)>(less: (T, T) -> bool, s: seq<T>) {
    forall i, j :: 0 <= i < |s| && 0 <= j < |s| && i != j ==> less(s[i], s[j]) || less(s[j], s[i])
  }

  function Insert<T>(less: (T, T) -> bool, x: T, s: seq<T>): (r: seq<T>)
    ensures multiset(r) == multiset(s) + multiset{x}
  {
    if s == [] then [x]
    else if less(x, s[0]) then
      [x] + s
    else
      assert s == [s[0]] + s[1..];
      [s[0]] + Insert(less, x, s[1..])
  }

  function Sort<T>(less: (T, T) -> bool, s: seq<T>): (r: seq<T>)
    ensures multiset(r) == multiset(s)
  {
    if s == [] then []
    else
      assert s == [s[0]] + s[1..];
      Insert(less, s[0], Sort(less, s[1..]))
  }

  lemma SameElements<T>(s: seq<T>, t: seq<T>)
    requires multiset(s) == multiset(t)
    ensures |s| == |t|
    ensures forall x :: x in s <==> x in t
  {
    assert |s| == |multiset(s)| == |multiset(t)| == |t|;
    assert forall x :: x in s <==> x in multiset(s);
    assert forall x :: x in t <==> x in multiset(t);
  }

  lemma {:induction false} InsertSorts<T(!new)>(less: (T, T) -> bool, x: T, s: seq<T>)
    requires StrictOrder(less) && Sorted(less, s)
    requires forall y :: y in s ==> less(x, y) || less(y, x)
    ensures Sorted(less, Insert(less, x, s))
  {
    if s != [] && !less(x, s[0]) {
      var tail := Insert(less, x, s[1..]);
      assert s[0] in s;
      assert forall y :: y in s[1..] ==> y in s;
      InsertSorts(less, x, s[1..]);
      forall y | y in tail ensures less(s[0], y) {
        assert y in multiset(tail);
        if y != x { assert y in s[1..]; }
      }
      assert forall j :: 0 <= j < |tail| ==> tail[j] in tail;
    } else if s != [] {
      forall y | y in s ensures less(x, y) {
        var j :| 0 <= j < |s| && s[j] == y;
        if j > 0 { assert less(s[0], s[j]); }
      }
    }
  }

  lemma {:induction false} SortSorts<T(!new)>(less: (T, T) -> bool, s: seq<T>)
    requires StrictOrder(less) && Comparable(less, s)
    ensures Sorted(less, Sort(less, s))
    ensures |Sort(less, s)| == |s|
    ensures forall x :: x in Sort(less, s) <==> x in s
  {
    if s != [] {
      var rest := s[1..];
      assert forall i :: 0 <= i < |rest| ==> rest[i] == s[i + 1];
      SortSorts(less, rest);
      forall y | y in Sort(less, rest) ensures less(s[0], y) || less(y, s[0]) {
        assert y in rest;
        var j :| 0 <= j < |rest| && rest[j] == y;
        assert s[j + 1] == y;
      }
      InsertSorts(less, s[0], Sort(less, rest));
    }
    SameElements(s, Sort(less, s));
  }

  lemma FirstIsLeast<T(!new)>(less: (T, T) -> bool, s: seq<T>, x: T)
    requires Sorted(less, s) && x in s
    ensures s[0] == x || less(s[0], x)
  {
    var i :| 0 <= i < |s| && s[i] == x;
    if i > 0 { assert less(s[0], s[i]); }
  }

  lemma TailMembers<T(!new)>(less: (T, T) -> bool, s: seq<T>, x: T)
    requires StrictOrder(less) && Sorted(less, s) && s != []
    ensures x in s[1..] <==> x in s && x != s[0]
  {
    if x in s[1..] {
      var i :| 0 <= i < |s[1..]| && s[1..][i] == x;
      assert less(s[0], s[i + 1]);
    }
  }

  /** A strictly sorted sequence is determined by its elements. */
  lemma {:induction false} SortedUnique<T(!new)>(less: (T, T) -> bool, s: seq<T>, t: seq<T>)
    requires StrictOrder(less) && Sorted(less, s) && Sorted(less, t)
    requires forall x :: x in s <==> x in t
    ensures s == t
  {
    assert |s| > 0 ==> s[0] in t;
    assert |t| > 0 ==> t[0] in s;
    if s != [] {
      FirstIsLeast(less, s, t[0]);
      FirstIsLeast(less, t, s[0]);
      forall x ensures x in s[1..] <==> x in t[1..] {
        TailMembers(less, s, x);
        TailMembers(less, t, x);
      }
      SortedUnique(less, s[1..], t[1..]);
      assert s == [s[0]] + s[1..] && t == [t[0]] + t[1..];
    }
  }

  predicate Distinct<T(==)>(s: seq<T>) {
    forall i, j :: 0 <= i < j < |s| ==> s[i] != s[j]
  }

  /** The elements of a set in some fixed order: what ranging over a Go map's keys may yield. */
  ghost function Enumerate<T(!new)>(s: set<T>): (r: seq<T>)
    ensures |r| == |s| && Distinct(r)
    ensures forall x :: x in r <==> x in s
  {
    if s == {} then []
    else
      var x :| x in s;
      [x] + Enumerate(s - {x})
  }

  /** No element comes twice exactly if none counts more than once. */
  lemma {:induction false} DistinctCounts<T>(s: seq<T>)
    ensures Distinct(s) <==> forall x :: multiset(s)[x] <= 1
  {
    if s != [] {
      var rest := s[1..];
      assert s == [s[0]] + rest;
      assert multiset(s) == multiset{s[0]} + multiset(rest);
      DistinctCounts(rest);
      assert forall x :: x in rest <==> multiset(rest)[x] > 0;
      assert forall i :: 0 <= i < |rest| ==> rest[i] == s[i + 1];
      if Distinct(s) {
        assert s[0] !in rest;
      }
      if forall x :: multiset(s)[x] <= 1 {
        assert multiset(s)[s[0]] == 1 + multiset(rest)[s[0]];
        assert s[0] !in rest;
        forall x ensures multiset(rest)[x] <= 1 { assert multiset(s)[x] <= 1; }
        assert Distinct(rest);
        forall i, j | 0 <= i < j < |s| ensures s[i] != s[j] {
          if i > 0 { assert rest[i - 1] != rest[j - 1]; } else { assert s[j] == rest[j - 1]; }
        }
      }
    }
  }

  /** What a sorting algorithm leaves behind when it may not be stable: no element precedes a smaller one. */
  predicate WeaklySorted<T>(less: (T, T) -> bool, s: seq<T>) {
    forall i, j :: 0 <= i < j < |s| ==> !less(s[j], s[i])
  }

  /** If some sorting of the elements is strict, every sorting of them is that one. */
  lemma AnySortAgrees<T(!new)>(less: (T, T) -> bool, s: seq<T>, t: seq<T>)
    requires StrictOrder(less) && Sorted(less, s) && WeaklySorted(less, t) && multiset(s) == multiset(t)
    ensures s == t
  {
    SameElements(s, t);
    DistinctCounts(s);
    DistinctCounts(t);
    forall i, j | 0 <= i < j < |t| ensures less(t[i], t[j]) {
      assert t[i] in s && t[j] in s;
      var a :| 0 <= a < |s| && s[a] == t[i];
      var b :| 0 <= b < |s| && s[b] == t[j];
      assert a != b;
    }
    SortedUnique(less, s, t);
  }
}
