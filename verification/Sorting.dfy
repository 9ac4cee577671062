/** Go's sort.Slice and sort.Search, as far as the program relies on them. */
module Sorting {

  // ----- sorting by an integer key -----

  ghost predicate SortedBy<T>(s: seq<T>, key: T -> int) {
    forall i, j :: 0 <= i < j < |s| ==> key(s[i]) <= key(s[j])
  }

  ghost predicate DistinctBy<T>(s: seq<T>, key: T -> int) {
    forall i, j :: 0 <= i < j < |s| ==> key(s[i]) != key(s[j])
  }

  /** sort.Slice by ascending key; elements of equal key keep their order here. */
  function SortBy<T>(s: seq<T>, key: T -> int): seq<T> {
    if s == [] then [] else InsertBy(SortBy(s[..|s| - 1], key), s[|s| - 1], key)
  }

  function InsertBy<T>(s: seq<T>, x: T, key: T -> int): seq<T> {
    if s == [] || key(s[|s| - 1]) <= key(x) then s + [x]
    else InsertBy(s[..|s| - 1], x, key) + [s[|s| - 1]]
  }

  lemma {:induction false} InsertBounded<T>(s: seq<T>, x: T, key: T -> int, bound: int)
    requires forall i :: 0 <= i < |s| ==> key(s[i]) <= bound
    requires key(x) <= bound
    ensures forall i :: 0 <= i < |InsertBy(s, x, key)| ==> key(InsertBy(s, x, key)[i]) <= bound
  {
    if s != [] && key(s[|s| - 1]) > key(x) {
      InsertBounded(s[..|s| - 1], x, key, bound);
    }
  }

  lemma AppendTop<T>(s: seq<T>, top: T, key: T -> int)
    requires SortedBy(s, key)
    requires forall i :: 0 <= i < |s| ==> key(s[i]) <= key(top)
    ensures SortedBy(s + [top], key)
  {
  }

  lemma {:induction false} InsertKeepsSorted<T>(s: seq<T>, x: T, key: T -> int)
    requires SortedBy(s, key)
    ensures SortedBy(InsertBy(s, x, key), key)
  {
    if s == [] || key(s[|s| - 1]) <= key(x) {
      AppendTop(s, x, key);
    } else {
      var front, top := s[..|s| - 1], s[|s| - 1];
      InsertKeepsSorted(front, x, key);
      InsertBounded(front, x, key, key(top));
      AppendTop(InsertBy(front, x, key), top, key);
    }
  }

  lemma {:induction false} InsertAddsOne<T>(s: seq<T>, x: T, key: T -> int)
    ensures multiset(InsertBy(s, x, key)) == multiset(s) + multiset{x}
  {
    if s != [] && key(s[|s| - 1]) > key(x) {
      InsertAddsOne(s[..|s| - 1], x, key);
      WithoutTop(s);
    }
  }

  lemma {:induction false} SortBySorts<T>(s: seq<T>, key: T -> int)
    ensures SortedBy(SortBy(s, key), key)
    ensures multiset(SortBy(s, key)) == multiset(s)
    ensures |SortBy(s, key)| == |s|
  {
    if s == [] {
    } else {
      SortBySorts(s[..|s| - 1], key);
      InsertKeepsSorted(SortBy(s[..|s| - 1], key), s[|s| - 1], key);
      InsertAddsOne(SortBy(s[..|s| - 1], key), s[|s| - 1], key);
      WithoutTop(s);
    }
    assert |multiset(SortBy(s, key))| == |multiset(s)|;
  }

  lemma {:induction false} SortOfSorted<T>(s: seq<T>, key: T -> int)
    requires SortedBy(s, key)
    ensures SortBy(s, key) == s
  {
    if s == [] {
    } else {
      SortOfSorted(s[..|s| - 1], key);
      WithoutTop(s);
    }
  }

  lemma PermutationKeepsDistinct<T>(a: seq<T>, b: seq<T>, key: T -> int)
    requires DistinctBy(a, key) && multiset(a) == multiset(b)
    ensures |a| == |b| && DistinctBy(b, key)
  {
    assert |a| == |multiset(a)| == |multiset(b)| == |b|;
    forall i, j | 0 <= i < j < |b|
      ensures key(b[i]) != key(b[j])
    {
      if key(b[i]) == key(b[j]) {
        assert b[i] in multiset(a) && b[j] in multiset(a);
        var k :| 0 <= k < |a| && a[k] == b[i];
        var l :| 0 <= l < |a| && a[l] == b[j];
        assert k == l;
        TwiceInSequence(b, i, j);
        OnceInSequence(a, k, key);
        assert false;
      }
    }
  }

  lemma TwiceInSequence<T>(s: seq<T>, i: nat, j: nat)
    requires i < j < |s| && s[i] == s[j]
    ensures multiset(s)[s[i]] >= 2
  {
    assert s == s[..i] + [s[i]] + s[i + 1..j] + [s[j]] + s[j + 1..];
  }

  lemma OnceInSequence<T>(s: seq<T>, k: nat, key: T -> int)
    requires k < |s| && DistinctBy(s, key)
    ensures multiset(s)[s[k]] == 1
  {
    assert s == s[..k] + [s[k]] + s[k + 1..];
    assert s[k] !in s[..k] && s[k] !in s[k + 1..];
  }

  lemma WithoutTop<T>(s: seq<T>)
    requires s != []
    ensures s == s[..|s| - 1] + [s[|s| - 1]]
    ensures multiset(s[..|s| - 1]) == multiset(s) - multiset{s[|s| - 1]}
  {
    assert s == s[..|s| - 1] + [s[|s| - 1]];
  }

  lemma SameTop<T>(a: seq<T>, b: seq<T>, key: T -> int)
    requires SortedBy(a, key) && SortedBy(b, key) && DistinctBy(b, key)
    requires |a| == |b| > 0 && multiset(a) == multiset(b)
    ensures a[|a| - 1] == b[|b| - 1]
  {
    var n := |a| - 1;
    assert a[n] in multiset(b) && b[n] in multiset(a);
    var k :| 0 <= k < |b| && b[k] == a[n];
    var l :| 0 <= l < |a| && a[l] == b[n];
    assert key(b[k]) == key(b[n]);
  }

  lemma PeelTop<T>(a: seq<T>, b: seq<T>, key: T -> int)
    requires SortedBy(a, key) && SortedBy(b, key) && DistinctBy(a, key) && a != []
    requires multiset(a) == multiset(b)
    ensures |b| == |a|
    ensures SortedBy(a[..|a| - 1], key) && SortedBy(b[..|a| - 1], key) && DistinctBy(a[..|a| - 1], key)
    ensures multiset(a[..|a| - 1]) == multiset(b[..|a| - 1])
    ensures a[..|a| - 1] == b[..|a| - 1] ==> a == b
  {
    PermutationKeepsDistinct(a, b, key);
    SameTop(a, b, key);
    WithoutTop(a);
    WithoutTop(b);
  }

  /** A list of distinct keys has only one sorted permutation. */
  lemma {:induction false} SortedIsUnique<T>(a: seq<T>, b: seq<T>, key: T -> int)
    requires SortedBy(a, key) && SortedBy(b, key) && DistinctBy(a, key)
    requires multiset(a) == multiset(b)
    ensures a == b
    decreases |a|
  {
    if a == [] {
      assert |multiset(b)| == 0;
    } else {
      PeelTop(a, b, key);
      SortedIsUnique(a[..|a| - 1], b[..|a| - 1], key);
    }
  }

  /** Whatever algorithm sorts them, elements of distinct keys end up as SortBy puts them. */
  lemma SortIsDetermined<T>(s: seq<T>, sorted: seq<T>, key: T -> int)
    requires DistinctBy(s, key)
    requires SortedBy(sorted, key) && multiset(sorted) == multiset(s)
    ensures sorted == SortBy(s, key)
  {
    SortBySorts(s, key);
    PermutationKeepsDistinct(s, sorted, key);
    SortedIsUnique(sorted, SortBy(s, key), key);
  }

  // ----- binary search -----

  /** The index at which sort.Search stops, for any predicate on the indices of [i, j). */
  function Probe(f: nat -> bool, i: nat, j: nat): (r: nat)
    requires i <= j
    ensures i <= r <= j
    decreases j - i
  {
    if i == j then i
    else
      var h := (i + j) / 2;
      if f(h) then Probe(f, i, h) else Probe(f, h + 1, j)
  }

  method Search(n: nat, f: nat -> bool) returns (r: nat)
    ensures r == Probe(f, 0, n)
  {
    var i: nat, j: nat := 0, n;
    while i < j
      invariant i <= j <= n
      invariant Probe(f, i, j) == Probe(f, 0, n)
    {
      var h := (i + j) / 2;
      if f(h) {
        j := h;
      } else {
        i := h + 1;
      }
    }
    r := i;
  }

  /** On a predicate that never turns false again, the search finds where it turns true. */
  lemma {:induction false} ProbeFindsFirst(f: nat -> bool, i: nat, j: nat)
    requires i <= j
    requires forall a, b :: i <= a < b < j && f(a) ==> f(b)
    ensures forall a :: i <= a < Probe(f, i, j) ==> !f(a)
    ensures forall a :: Probe(f, i, j) <= a < j ==> f(a)
    decreases j - i
  {
    if i < j {
      var h := (i + j) / 2;
      if f(h) {
        ProbeFindsFirst(f, i, h);
      } else {
        ProbeFindsFirst(f, h + 1, j);
      }
    }
  }
}
