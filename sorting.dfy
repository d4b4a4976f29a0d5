/** In-place sorting as Go's `sort.Slice` and `sort.SliceStable` provide it:
  * the caller supplies the `less` comparator. */
module Sorting {

  /** What `sort.Slice` asks of `less`: a strict weak order, stated as
    * asymmetry and negative transitivity. */
  ghost predicate StrictWeakOrder<T(!new)>(less: (T, T) -> bool)
  {
    (forall x, y :: less(x, y) ==> !less(y, x))
    && (forall x, y, z :: !less(y, x) && !less(z, y) ==> !less(z, x))
  }

  /** No later element is less than an earlier one. */
  ghost predicate Sorted<T>(s: seq<T>, less: (T, T) -> bool)
  {
    forall p, q :: 0 <= p < q < |s| ==> !less(s[q], s[p])
  }

  /** Each element is not less than the one before it. */
  ghost predicate AdjacentSorted<T>(s: seq<T>, less: (T, T) -> bool)
  {
    forall k :: 0 < k < |s| ==> !less(s[k], s[k - 1])
  }

  lemma {:induction false} AdjacentSortedIsSorted<T(!new)>(s: seq<T>, less: (T, T) -> bool)
    requires StrictWeakOrder(less)
    requires AdjacentSorted(s, less)
    ensures Sorted(s, less)
  {
    if |s| > 1 {
      var t := s[..|s| - 1];
      assert AdjacentSorted(t, less);
      AdjacentSortedIsSorted(t, less);
      forall p | 0 <= p < |s| - 1 ensures !less(s[|s| - 1], s[p]) {
        var q := |s| - 2;
        if p < q {
          assert t[p] == s[p] && t[q] == s[q];
          assert !less(s[q], s[p]);
        }
      }
    }
  }

  /** `sort.Slice`: afterwards the slice holds the same elements, ordered by
    * `less`. Elements that `less` does not separate may end in any order. */
  method SortSlice<T(!new)>(a: array<T>, less: (T, T) -> bool)
    requires StrictWeakOrder(less)
    modifies a
    ensures multiset(a[..]) == multiset(old(a[..]))
    ensures Sorted(a[..], less)
  {
    var i := 0;
    while i < a.Length
      invariant 0 <= i <= a.Length
      invariant multiset(a[..]) == multiset(old(a[..]))
      invariant forall k :: 0 < k < i ==> !less(a[k], a[k - 1])
    {
      InsertLast(a, i, less);
      i := i + 1;
    }
    AdjacentSortedIsSorted(a[..], less);
  }

  /** One step of insertion sort: `a[i]` moves left into the sorted prefix
    * `a[..i]`. */
  method InsertLast<T(!new)>(a: array<T>, i: nat, less: (T, T) -> bool)
    requires i < a.Length
    requires forall x, y :: less(x, y) ==> !less(y, x)
    requires forall k :: 0 < k < i ==> !less(a[k], a[k - 1])
    modifies a
    ensures multiset(a[..]) == multiset(old(a[..]))
    ensures forall k :: 0 < k <= i ==> !less(a[k], a[k - 1])
  {
    var j := i;
    while j > 0 && less(a[j], a[j - 1])
      invariant 0 <= j <= i
      invariant multiset(a[..]) == multiset(old(a[..]))
      invariant forall k :: 0 < k < j ==> !less(a[k], a[k - 1])
      invariant forall k :: j + 1 < k <= i ==> !less(a[k], a[k - 1])
      invariant 0 < j < i ==> !less(a[j + 1], a[j - 1])
      invariant j < i ==> less(a[j], a[j + 1])
    {
      Swap(a, j - 1, j);
      j := j - 1;
    }
  }

  method Swap<T>(a: array<T>, i: nat, j: nat)
    requires i < a.Length && j < a.Length
    modifies a
    ensures a[..] == old(a[..])[i := old(a[j])][j := old(a[i])]
    ensures multiset(a[..]) == multiset(old(a[..]))
  {
    a[i], a[j] := a[j], a[i];
  }

  /** The complement of a predicate. */
  function Not<T>(p: T -> bool): T -> bool
  {
    x => !p(x)
  }

  /** The elements of `s` that satisfy `p`, in their order. */
  function Filter<T>(s: seq<T>, p: T -> bool): (r: seq<T>)
    ensures |r| <= |s|
  {
    if |s| == 0 then []
    else (if p(s[0]) then [s[0]] else []) + Filter(s[1..], p)
  }

  /** Every kept element satisfies the predicate, and the kept elements
    * are among the input's, with no more copies. */
  lemma {:induction false} FilterSpec<T>(s: seq<T>, p: T -> bool)
    ensures forall k :: 0 <= k < |Filter(s, p)| ==> p(Filter(s, p)[k])
    ensures multiset(Filter(s, p)) <= multiset(s)
  {
    if |s| > 0 {
      FilterSpec(s[1..], p);
      assert s == [s[0]] + s[1..];
    }
  }

  lemma {:induction false} FilterAppend<T>(s: seq<T>, x: T, p: T -> bool)
    ensures Filter(s + [x], p) == Filter(s, p) + (if p(x) then [x] else [])
  {
    if |s| == 0 {
      assert [x][1..] == [];
    } else {
      var h := if p(s[0]) then [s[0]] else [];
      assert (s + [x])[0] == s[0];
      assert (s + [x])[1..] == s[1..] + [x];
      FilterAppend(s[1..], x, p);
      AppendAssoc(h, Filter(s[1..], p), if p(x) then [x] else []);
    }
  }

  /** Appending sequences is associative. */
  lemma AppendAssoc<T>(a: seq<T>, b: seq<T>, c: seq<T>)
    ensures (a + b) + c == a + (b + c)
  {
  }

  /** `sort.SliceStable` with the comparator "`p` holds of the first and not
    * of the second": the elements satisfying `p` move to the front, and both
    * groups keep their relative order. A stable sort has exactly one
    * possible outcome, which this method computes in two passes. */
  method StablePartition<T>(a: array<T>, p: T -> bool)
    modifies a
    ensures a[..] == Filter(old(a[..]), p) + Filter(old(a[..]), Not(p))
  {
    var front, back := Partition(a[..], p);
    FilterSplitsLength(a[..], p);
    CopyFrom(a, front + back);
  }

  /** The first pass of `StablePartition`: the elements satisfying `p` and
    * the others, each group in input order. */
  method Partition<T>(s: seq<T>, p: T -> bool) returns (front: seq<T>, back: seq<T>)
    ensures front == Filter(s, p) && back == Filter(s, Not(p))
  {
    front, back := [], [];
    var i := 0;
    while i < |s|
      invariant 0 <= i <= |s|
      invariant front == Filter(s[..i], p) && back == Filter(s[..i], Not(p))
    {
      FilterPrefixStep(s, i, p);
      FilterPrefixStep(s, i, Not(p));
      if p(s[i]) { front := front + [s[i]]; } else { back := back + [s[i]]; }
      i := i + 1;
    }
    assert s[..|s|] == s;
  }

  /** Extending a prefix by one element extends its filter by that element
    * when it is kept. */
  lemma FilterPrefixStep<T>(s: seq<T>, i: nat, p: T -> bool)
    requires i < |s|
    ensures Filter(s[..i + 1], p) == Filter(s[..i], p) + (if p(s[i]) then [s[i]] else [])
  {
    assert s[..i + 1] == s[..i] + [s[i]];
    FilterAppend(s[..i], s[i], p);
  }

  /** Overwrites the whole array with `s`. */
  method CopyFrom<T>(a: array<T>, s: seq<T>)
    requires |s| == a.Length
    modifies a
    ensures a[..] == s
  {
    var k := 0;
    while k < a.Length
      invariant 0 <= k <= a.Length
      invariant a[..k] == s[..k]
    {
      a[k] := s[k];
      assert a[..k + 1] == s[..k + 1];
      k := k + 1;
    }
    assert a[..] == a[..a.Length];
  }

  /** The two groups of a partition together are as long as the input. */
  lemma {:induction false} FilterSplitsLength<T>(s: seq<T>, p: T -> bool)
    ensures |Filter(s, p)| + |Filter(s, Not(p))| == |s|
  {
    if |s| > 0 { FilterSplitsLength(s[1..], p); }
  }
  /** An element is kept exactly when it occurs in the input and satisfies
    * the predicate. */
  lemma {:induction false} FilterMembers<T>(s: seq<T>, p: T -> bool, x: T)
    ensures x in Filter(s, p) <==> x in s && p(x)
  {
    if |s| > 0 {
      assert s == [s[0]] + s[1..];
      FilterMembers(s[1..], p, x);
    }
  }

  /** The two groups of a partition together hold the input's elements with
    * their multiplicities. */
  lemma {:induction false} FilterSplitsMultiset<T>(s: seq<T>, p: T -> bool)
    ensures multiset(Filter(s, p)) + multiset(Filter(s, Not(p))) == multiset(s)
  {
    if |s| > 0 {
      assert s == [s[0]] + s[1..];
      FilterSplitsMultiset(s[1..], p);
    }
  }
}
