/**
 * The sorting helpers of package gslice (sort.go). Go slices that are sorted
 * in place are arrays here: a `nil` slice is the null array, an empty slice
 * an array of length 0. `sort.Slice` is an insertion sort of the model's
 * own; what the library promises is the postcondition: a permutation of the
 * input, in which no element is `less` than the one before it when `less`
 * is a strict weak order (for any other `less` the order is unspecified).
 */
module GSliceSort {
  import opened GValue

  // ---------------------------------------------------------------------
  // Orders

  /** `less` never holds both ways: the least a comparator has to satisfy to be sortable by. */
  ghost predicate Asymmetric<T(!new)>(less: (T, T) -> bool) {
    forall x, y :: less(x, y) ==> !less(y, x)
  }

  /** Incomparability chains: if neither `x` before `y` nor `y` before `z`, then not `x` before `z`. */
  ghost predicate NegativelyTransitive<T(!new)>(less: (T, T) -> bool) {
    forall x, y, z :: !less(x, y) && !less(y, z) ==> !less(x, z)
  }

  ghost predicate Transitive<T(!new)>(less: (T, T) -> bool) {
    forall x, y, z :: less(x, y) && less(y, z) ==> less(x, z)
  }

  /** What `sort.Slice` demands of its `less` function. */
  ghost predicate StrictWeakOrder<T(!new)>(less: (T, T) -> bool) {
    Asymmetric(less) && Transitive(less) && NegativelyTransitive(less)
  }

  /** Sorted by `less`: no element is `less` than its predecessor. */
  predicate SortedBy<T>(s: seq<T>, less: (T, T) -> bool) {
    forall i :: 0 < i < |s| ==> !less(s[i], s[i - 1])
  }

  // ---------------------------------------------------------------------
  // The operations

  /**
   * Sort(s, less): nil for nil; otherwise a new slice holding the elements
   * of `s` sorted by `less`. `s` itself is left as it was (it is not in the
   * modifies clause).
   */
  method Sort<T(!new)>(s: array?<T>, less: (T, T) -> bool) returns (r: array?<T>)
    ensures s == null <==> r == null
    ensures r != null ==> fresh(r) && r.Length == s.Length && multiset(r[..]) == multiset(s[..])
    ensures r != null && StrictWeakOrder(less) ==> SortedBy(r[..], less)
  {
    if s == null {
      return null;
    }
    r := new T[s.Length](i requires 0 <= i < s.Length reads s => s[i]);
    assert r[..] == s[..];
    SortInPlace(r, less);
  }

  /**
   * StealSort(s, less): nil for nil; otherwise `s` itself, sorted in place,
   * so the caller's slice and the result are the same array.
   */
  method StealSort<T(!new)>(s: array?<T>, less: (T, T) -> bool) returns (r: array?<T>)
    modifies s
    ensures r == s
    ensures s != null ==> multiset(s[..]) == old(multiset(s[..]))
    ensures s != null && StrictWeakOrder(less) ==> SortedBy(s[..], less)
  {
    if s == null {
      return null;
    }
    SortInPlace(s, less);
    r := s;
  }

  /**
   * The model's `sort.Slice`: insertion sort by adjacent swaps. It always
   * permutes; it sorts whenever `less` is asymmetric, which every strict
   * weak order is.
   */
  method SortInPlace<T(!new)>(a: array<T>, less: (T, T) -> bool)
    modifies a
    ensures Asymmetric(less) ==> SortedBy(a[..], less)
    ensures multiset(a[..]) == old(multiset(a[..]))
  {
    var i := 0;
    while i < a.Length
      invariant 0 <= i <= a.Length
      invariant Asymmetric(less) ==> forall k :: 0 < k < i ==> !less(a[k], a[k - 1])
      invariant multiset(a[..]) == old(multiset(a[..]))
    {
      var j := i;
      while j > 0 && less(a[j], a[j - 1])
        invariant 0 <= j <= i
        invariant Asymmetric(less) ==> forall k :: 0 < k < j ==> !less(a[k], a[k - 1])
        invariant Asymmetric(less) ==> forall k :: j < k <= i ==> !less(a[k], a[k - 1])
        invariant Asymmetric(less) && 0 < j < i ==> !less(a[j + 1], a[j - 1])
        invariant multiset(a[..]) == old(multiset(a[..]))
        decreases j
      {
        SwapWithPrevious(a, j);
        j := j - 1;
      }
      i := i + 1;
    }
  }

  /** Exchanges `a[j - 1]` and `a[j]`: the step of the insertion sort. */
  method SwapWithPrevious<T>(a: array<T>, j: int)
    requires 0 < j < a.Length
    modifies a
    ensures a[..] == old(a[..])[j - 1 := old(a[j])][j := old(a[j - 1])]
    ensures multiset(a[..]) == old(multiset(a[..]))
  {
    a[j - 1], a[j] := a[j], a[j - 1];
  }

  // ---------------------------------------------------------------------
  // What sortedness means

  /** Under a strict weak order, sortedness of neighbours orders every pair. */
  lemma {:induction false} SortedByOrdersAllPairs<T(!new)>(s: seq<T>, less: (T, T) -> bool, i: int, j: int)
    requires NegativelyTransitive(less)
    requires SortedBy(s, less)
    requires 0 <= i < j < |s|
    ensures !less(s[j], s[i])
    decreases j - i
  {
    if j > i + 1 {
      SortedByOrdersAllPairs(s, less, i, j - 1);
      assert !less(s[j], s[j - 1]);
    }
  }

  /** Go's `gvalue.Less[int]` is a strict weak order. */
  lemma LessIntIsStrictWeakOrder()
    ensures StrictWeakOrder((x: int, y: int) => LessInt(x, y))
  {
  }

  /** Sorted by `Less[int]` means non-decreasing. */
  lemma SortedByLessIntAscending(s: seq<int>, i: int, j: int)
    requires SortedBy(s, (x: int, y: int) => LessInt(x, y))
    requires 0 <= i <= j < |s|
    ensures s[i] <= s[j]
  {
    if i < j {
      LessIntIsStrictWeakOrder();
      SortedByOrdersAllPairs(s, (x: int, y: int) => LessInt(x, y), i, j);
    }
  }

  /** Sorted by "greater than" (the descending comparator of the tests) means non-increasing. */
  lemma SortedByGreaterDescending(s: seq<int>, i: int, j: int)
    requires SortedBy(s, (x: int, y: int) => x > y)
    requires 0 <= i <= j < |s|
    ensures s[i] >= s[j]
  {
    if i < j {
      SortedByOrdersAllPairs(s, (x: int, y: int) => x > y, i, j);
    }
  }

  predicate Ascending(s: seq<int>) {
    forall i, j :: 0 <= i <= j < |s| ==> s[i] <= s[j]
  }

  /** Two non-decreasing arrangements of the same integers are the same sequence. */
  lemma {:induction false} AscendingArrangementUnique(a: seq<int>, b: seq<int>)
    requires Ascending(a) && Ascending(b)
    requires multiset(a) == multiset(b)
    ensures a == b
    decreases |a|
  {
    assert |a| == |multiset(a)| == |multiset(b)| == |b|;
    if |a| > 0 {
      HeadIsLeast(a, b[0]);
      HeadIsLeast(b, a[0]);
      TailAscending(a);
      TailAscending(b);
      assert a[0] == b[0];
      MultisetOfTail(a);
      MultisetOfTail(b);
      AscendingArrangementUnique(a[1..], b[1..]);
      assert a == [a[0]] + a[1..] && b == [b[0]] + b[1..];
    }
  }

  lemma MultisetOfTail(s: seq<int>)
    requires |s| > 0
    ensures multiset(s[1..]) == multiset(s) - multiset{s[0]}
  {
    assert s == [s[0]] + s[1..];
  }

  lemma HeadIsLeast(s: seq<int>, x: int)
    requires Ascending(s) && x in multiset(s)
    ensures s[0] <= x
  {
    var k :| 0 <= k < |s| && s[k] == x;
  }

  lemma TailAscending(s: seq<int>)
    requires Ascending(s) && |s| > 0
    ensures Ascending(s[1..])
  {
    forall i, j | 0 <= i <= j < |s[1..]|
      ensures s[1..][i] <= s[1..][j]
    {
      assert s[1..][i] == s[i + 1] && s[1..][j] == s[j + 1];
    }
  }

  /** The sorted result of the tests' `[3, 1, 4, 1, 5]` under `Less[int]` is `[1, 1, 3, 4, 5]`. */
  lemma SortExample(r: seq<int>)
    requires SortedBy(r, (x: int, y: int) => LessInt(x, y))
    requires multiset(r) == multiset([3, 1, 4, 1, 5])
    ensures r == [1, 1, 3, 4, 5]
  {
    forall i, j | 0 <= i <= j < |r|
      ensures r[i] <= r[j]
    {
      SortedByLessIntAscending(r, i, j);
    }
    assert Ascending(r);
    SameIntegers();
    AscendingArrangementUnique(r, [1, 1, 3, 4, 5]);
  }

  lemma SameIntegers()
    ensures multiset([1, 1, 3, 4, 5]) == multiset([3, 1, 4, 1, 5])
  {
    assert multiset([1, 1, 3, 4, 5]) == multiset{1, 1, 3, 4, 5};
  }
}
