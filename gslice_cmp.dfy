/**
 * CmpWith of package gslice (cmp.go): turns a two-argument comparison into
 * a predicate by fixing its right-hand operand, for use with Filter, Find,
 * Any and All.
 */
module GSliceCmp {
  import opened Go
  import opened GSlice

  /** CmpWith(cmp, b): the predicate that holds of `a` exactly when `cmp(a, b)` does. */
  function CmpWith<T(!new)>(cmp: (T, T) -> bool, b: T): (p: T -> bool)
    ensures forall a :: p(a) == cmp(a, b)
  {
    a => cmp(a, b)
  }

  /** Filtering with CmpWith keeps exactly the elements `a` with `cmp(a, b)`. */
  lemma FilterCmpWith<T(!new)>(s: seq<T>, cmp: (T, T) -> bool, b: T)
    ensures forall x :: x in Filtered(s, CmpWith(cmp, b)) <==> x in s && cmp(x, b)
    ensures |Filtered(s, CmpWith(cmp, b))| == |s| <==> forall x :: x in s ==> cmp(x, b)
  {
    forall x
      ensures x in Filtered(s, CmpWith(cmp, b)) <==> x in s && cmp(x, b)
    {
      FilteredMembers(s, CmpWith(cmp, b), x);
    }
    FilteredLength(s, CmpWith(cmp, b));
  }

  /** The fixed value is the right-hand operand: with `>`, CmpWith(>, b) selects values above `b`, not below. */
  lemma CmpWithFixesRightOperand(a: int, b: int)
    ensures CmpWith((x: int, y: int) => x > y, b)(a) <==> a > b
    ensures CmpWith((x: int, y: int) => x > y, b)(a) ==> !(b > a)
  {
  }

  /** `Filter([1, 2, 3, 4, 5], CmpWith(GT, 3))` is `[4, 5]`. */
  method FilterGreaterThanThree() returns (r: GoSlice<int>)
    ensures r == Arr([4, 5])
  {
    var p := CmpWith((x: int, y: int) => x > y, 3);
    var s := [1, 2, 3, 4, 5];
    r := Filter(Arr(s), p);
    FilteredFromFront(s, p);
    assert s[1..] == [2, 3, 4, 5];
    FilteredFromFront([2, 3, 4, 5], p);
    assert [2, 3, 4, 5][1..] == [3, 4, 5];
    FilteredFromFront([3, 4, 5], p);
    assert [3, 4, 5][1..] == [4, 5];
    FilteredFromFront([4, 5], p);
    assert [4, 5][1..] == [5];
    FilteredFromFront([5], p);
    assert [5][1..] == [];
  }

  /** `Find([1, 2, 3, 4, 5], CmpWith(LTE, 2))` is `(1, true)`. */
  method FindAtMostTwo() returns (v: int, found: bool)
    ensures v == 1 && found
  {
    var s := Arr([1, 2, 3, 4, 5]);
    v, found := Find(s, CmpWith((x: int, y: int) => x <= y, 2), 0);
    assert s.Elems()[0] == 1;
  }

  /** `All([2, 4, 6, 8], CmpWith(GTE, 2))` holds; `All([1, 2, 3, 4], CmpWith(GT, 2))` does not. */
  method AllExamples() returns (b1: bool, b2: bool)
    ensures b1 && !b2
  {
    var s1 := Arr([2, 4, 6, 8]);
    b1 := All(s1, CmpWith((x: int, y: int) => x >= y, 2));
    var s2 := Arr([1, 2, 3, 4]);
    b2 := All(s2, CmpWith((x: int, y: int) => x > y, 2));
    assert s2.Elems()[0] == 1;
  }

  /** Filtering seen from the front: keep or drop the first element, then filter the rest. */
  lemma FilteredFromFront<T>(s: seq<T>, fn: T -> bool)
    requires |s| > 0
    ensures Filtered(s, fn) == (if fn(s[0]) then [s[0]] else []) + Filtered(s[1..], fn)
  {
    assert s == [s[0]] + s[1..];
    FilteredAppend([s[0]], s[1..], fn);
    assert [s[0]][..0] == [];
  }
}
