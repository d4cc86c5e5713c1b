/**
 * The set operations of package gslice (set.go): Unique with a caller's
 * equality, and Union, Intersection and Difference over comparable elements,
 * whose Go maps used as sets are Dafny sets and maps here.
 */
module GSliceSet {
  import opened Go
  import opened GSlice

  // ---------------------------------------------------------------------
  // Specification functions

  /** `s[i]` is the first of its kind: no earlier element is `eq` to it. */
  predicate FirstOfItsKind<T>(s: seq<T>, eq: (T, T) -> bool, i: nat)
    requires i < |s|
  {
    forall j :: 0 <= j < i ==> !eq(s[j], s[i])
  }

  /** The elements among the first `n` of `s` that are the first of their kind, in order. */
  function UniquePrefix<T>(s: seq<T>, eq: (T, T) -> bool, n: nat): seq<T>
    requires n <= |s|
    decreases n
  {
    if n == 0 then []
    else UniquePrefix(s, eq, n - 1) + (if FirstOfItsKind(s, eq, n - 1) then [s[n - 1]] else [])
  }

  /** The distinct elements of `xs`, each at the place of its first occurrence. */
  function Dedup<T(==)>(xs: seq<T>): seq<T>
    decreases |xs|
  {
    if |xs| == 0 then []
    else
      var init, last := xs[..|xs| - 1], xs[|xs| - 1];
      Dedup(init) + (if last in init then [] else [last])
  }

  /** The elements of `xs` that do not occur in `excluded`, in order. */
  function Without<T(==)>(xs: seq<T>, excluded: seq<T>): seq<T>
    decreases |xs|
  {
    if |xs| == 0 then []
    else
      var init, last := xs[..|xs| - 1], xs[|xs| - 1];
      Without(init, excluded) + (if last in excluded then [] else [last])
  }

  /** The number of slices that contain `x` (what Intersection's `countMap[x]` counts). */
  function SlicesContaining<T(==)>(x: T, slices: seq<GoSlice<T>>): nat
    decreases |slices|
  {
    if |slices| == 0 then 0
    else SlicesContaining(x, slices[..|slices| - 1]) + (if x in slices[|slices| - 1].Elems() then 1 else 0)
  }

  ghost predicate InEvery<T>(x: T, slices: seq<GoSlice<T>>) {
    forall k :: 0 <= k < |slices| ==> x in slices[k].Elems()
  }

  /** The index of the first occurrence of `x` in `xs`. */
  function IndexOf<T(==)>(xs: seq<T>, x: T): (k: nat)
    requires x in xs
    ensures k < |xs| && xs[k] == x
    ensures forall j :: 0 <= j < k ==> xs[j] != x
  {
    if xs[0] == x then 0 else 1 + IndexOf(xs[1..], x)
  }

  // ---------------------------------------------------------------------
  // The operations

  /**
   * Unique(s, eq): nil for nil, `[]` for an empty slice, otherwise the
   * elements that no earlier element is `eq` to, in their original order.
   */
  method Unique<T>(s: GoSlice<T>, eq: (T, T) -> bool) returns (r: GoSlice<T>)
    ensures s.Nil? <==> r.Nil?
    ensures r.Arr? ==> r.elems == UniquePrefix(s.elems, eq, |s.elems|)
  {
    if s.Nil? {
      return Nil;
    }
    if |s.elems| == 0 {
      return Arr([]);
    }
    var result: seq<T> := [];
    for i := 0 to |s.elems|
      invariant result == UniquePrefix(s.elems, eq, i)
    {
      var v := s.elems[i];
      var isDuplicate := false;
      for j := 0 to i
        invariant !isDuplicate
        invariant forall k :: 0 <= k < j ==> !eq(s.elems[k], v)
      {
        if eq(s.elems[j], v) {
          isDuplicate := true;
          break;
        }
      }
      assert isDuplicate <==> !FirstOfItsKind(s.elems, eq, i);
      if !isDuplicate {
        result := result + [v];
      }
    }
    r := Arr(result);
  }

  /**
   * Union(slices...): nil for no arguments, `[]` when every slice is empty,
   * otherwise the distinct elements of all slices in order of first occurrence.
   */
  method Union<T(==)>(slices: seq<GoSlice<T>>) returns (r: GoSlice<T>)
    ensures |slices| == 0 <==> r.Nil?
    ensures r.Arr? ==> r.elems == Dedup(Flatten(slices))
  {
    if |slices| == 0 {
      return Nil;
    }
    var totalLen := 0;
    for i := 0 to |slices|
      invariant totalLen == TotalLen(slices[..i])
    {
      assert slices[..i + 1][..i] == slices[..i];
      totalLen := totalLen + slices[i].Len();
    }
    assert slices[..|slices|] == slices;
    if totalLen == 0 {
      FlattenLength(slices);
      return Arr([]);
    }
    var seen: set<T> := {};
    var result: seq<T> := [];
    for i := 0 to |slices|
      invariant result == Dedup(Flatten(slices[..i]))
      invariant forall x :: x in seen <==> x in Flatten(slices[..i])
    {
      FlattenStep(slices, i);
      seen, result := AppendUnseen(slices[i].Elems(), seen, result, Flatten(slices[..i]));
    }
    assert slices[..|slices|] == slices;
    r := Arr(result);
  }

  /**
   * The inner loop of Union: append each element of `s` that is not yet in
   * `seen`, and add it to `seen`.
   */
  method AppendUnseen<T(==)>(s: seq<T>, seen: set<T>, result: seq<T>, ghost visited: seq<T>)
    returns (seen': set<T>, result': seq<T>)
    requires result == Dedup(visited)
    requires forall x :: x in seen <==> x in visited
    ensures result' == Dedup(visited + s)
    ensures forall x :: x in seen' <==> x in visited + s
  {
    seen', result' := seen, result;
    assert visited + s[..0] == visited;
    for j := 0 to |s|
      invariant result' == Dedup(visited + s[..j])
      invariant forall x :: x in seen' <==> x in visited + s[..j]
    {
      var elem := s[j];
      DedupSnoc(visited + s[..j], elem);
      if elem !in seen' {
        seen' := seen' + {elem};
        result' := result' + [elem];
      }
      assert visited + s[..j + 1] == (visited + s[..j]) + [elem];
    }
    assert s[..|s|] == s;
  }

  /**
   * Intersection(slices...): nil for no arguments, Union of the one slice for
   * a single argument, otherwise each element present in every slice exactly
   * once, in the unspecified order in which Go ranges over a map.
   */
  method Intersection<T(==)>(slices: seq<GoSlice<T>>) returns (r: GoSlice<T>)
    ensures |slices| == 0 <==> r.Nil?
    ensures |slices| == 1 ==> r == Arr(Dedup(slices[0].Elems()))
    ensures |slices| >= 2 ==> r.Arr? && NoDuplicates(r.elems) &&
                              forall x :: x in r.elems <==> InEvery(x, slices)
    ensures |slices| >= 2 && (exists k :: 0 <= k < |slices| && slices[k].Len() == 0) ==> r == Arr([])
  {
    if |slices| == 0 {
      return Nil;
    }
    if |slices| == 1 {
      r := Union([slices[0]]);
      FlattenSingle(slices[0]);
      return;
    }
    var countMap: map<T, nat> := map[];
    for i := 0 to |slices|
      invariant CountsSlices(countMap, slices[..i])
    {
      assert slices[..i + 1] == slices[..i] + [slices[i]];
      countMap := CountOncePerSlice(slices[i], countMap, slices[..i]);
    }
    assert slices[..|slices|] == slices;
    var sliceCount := |slices|;
    var result := CollectCommon(countMap, sliceCount);
    forall x
      ensures x in result <==> InEvery(x, slices)
    {
      SlicesContainingCounts(x, slices);
      if InEvery(x, slices) {
        FlattenMembers(slices, x);
        assert x in slices[0].Elems();
      }
    }
    if exists k :: 0 <= k < |slices| && slices[k].Len() == 0 {
      var k :| 0 <= k < |slices| && slices[k].Len() == 0;
      NoMembersIsEmpty(result);
    }
    r := Arr(result);
  }

  /** `countMap` maps exactly the elements of `slices` to the number of slices containing them. */
  predicate CountsSlices<T(==)>(countMap: map<T, nat>, slices: seq<GoSlice<T>>) {
    (forall x :: x in Flatten(slices) ==> x in countMap) &&
    (forall x :: x in countMap ==> x in Flatten(slices) && countMap[x] == SlicesContaining(x, slices))
  }

  /** The counting loop of Intersection for one slice: each distinct element counts once. */
  method CountOncePerSlice<T(==)>(slice: GoSlice<T>, countMap: map<T, nat>, ghost done: seq<GoSlice<T>>)
    returns (countMap': map<T, nat>)
    requires CountsSlices(countMap, done)
    ensures CountsSlices(countMap', done + [slice])
  {
    var s := slice.Elems();
    assert (done + [slice])[..|done|] == done;
    countMap' := countMap;
    var seenInSlice: set<T> := {};
    assert s[..0] == [];
    for j := 0 to |s|
      invariant forall x :: x in seenInSlice <==> x in s[..j]
      invariant forall x :: x in countMap' <==> x in Flatten(done) + s[..j]
      invariant forall x :: x in countMap' ==>
                  countMap'[x] == SlicesContaining(x, done) + (if x in s[..j] then 1 else 0)
    {
      var elem := s[j];
      assert s[..j + 1] == s[..j] + [elem];
      if elem !in seenInSlice {
        seenInSlice := seenInSlice + {elem};
        if elem !in countMap' {
          SlicesContainingCounts(elem, done);
        }
        countMap' := countMap'[elem := (if elem in countMap' then countMap'[elem] else 0) + 1];
      }
    }
    assert s[..|s|] == s;
  }

  /** The collecting loop of Intersection: the keys counted at least `sliceCount` times, in any order. */
  method CollectCommon<T(==)>(countMap: map<T, nat>, sliceCount: nat) returns (result: seq<T>)
    ensures NoDuplicates(result)
    ensures forall x :: x in result <==> x in countMap && countMap[x] >= sliceCount
  {
    result := [];
    var keys := countMap.Keys;
    while keys != {}
      invariant keys <= countMap.Keys
      invariant NoDuplicates(result)
      invariant forall x :: x in result <==> x in countMap && x !in keys && countMap[x] >= sliceCount
      decreases |keys|
    {
      var elem :| elem in keys;
      if countMap[elem] >= sliceCount {
        result := result + [elem];
      }
      keys := keys - {elem};
    }
  }

  /**
   * Difference(first, others...): `[]` (non-nil) when `first` is empty or
   * nil, Union of `first` when there are no others, otherwise the distinct
   * elements of `first` that occur in no other slice, in order of first occurrence.
   */
  method Difference<T(==)>(first: GoSlice<T>, others: seq<GoSlice<T>>) returns (r: GoSlice<T>)
    ensures first.Len() == 0 ==> r == Arr([])
    ensures first.Len() > 0 && |others| == 0 ==> r == Arr(Dedup(first.elems))
    ensures first.Len() > 0 && |others| > 0 ==> r == Arr(Dedup(Without(first.elems, Flatten(others))))
  {
    if first.Len() == 0 {
      return Arr([]);
    }
    if |others| == 0 {
      r := Union([first]);
      FlattenSingle(first);
      return;
    }
    var otherSet: set<T> := {};
    for i := 0 to |others|
      invariant forall x :: x in otherSet <==> x in Flatten(others[..i])
    {
      FlattenStep(others, i);
      otherSet := AddAll(otherSet, others[i].Elems(), Flatten(others[..i]));
    }
    assert others[..|others|] == others;
    var result := KeepAbsent(first.elems, otherSet, Flatten(others));
    r := Arr(result);
  }

  /** The inner loop that builds Difference's `otherSet`: adds every element of `s`. */
  method AddAll<T(==)>(set0: set<T>, s: seq<T>, ghost visited: seq<T>) returns (set1: set<T>)
    requires forall x :: x in set0 <==> x in visited
    ensures forall x :: x in set1 <==> x in visited + s
  {
    set1 := set0;
    for j := 0 to |s|
      invariant forall x :: x in set1 <==> x in visited + s[..j]
    {
      assert visited + s[..j + 1] == (visited + s[..j]) + [s[j]];
      set1 := set1 + {s[j]};
    }
    assert s[..|s|] == s;
  }

  /**
   * The main loop of Difference: each element of `first` that is neither
   * already kept nor in `otherSet`, once, in order.
   */
  method KeepAbsent<T(==)>(first: seq<T>, otherSet: set<T>, ghost excluded: seq<T>) returns (result: seq<T>)
    requires forall x :: x in otherSet <==> x in excluded
    ensures result == Dedup(Without(first, excluded))
  {
    var seen: set<T> := {};
    result := [];
    for i := 0 to |first|
      invariant result == Dedup(Without(first[..i], excluded))
      invariant forall x :: x in seen <==> x in result
    {
      var elem := first[i];
      ghost var kept := Without(first[..i], excluded);
      WithoutStep(first, i, excluded);
      DedupSnoc(kept, elem);
      DedupMembers(kept, elem);
      if elem in seen {
        if elem in excluded {
          assert Without(first[..i + 1], excluded) == kept + [] == kept;
        }
        continue;
      }
      if elem !in otherSet {
        seen := seen + {elem};
        result := result + [elem];
      } else {
        assert Without(first[..i + 1], excluded) == kept + [] == kept;
      }
    }
    assert first[..|first|] == first;
  }

  // ---------------------------------------------------------------------
  // Steps of the loops

  lemma NoMembersIsEmpty<T>(xs: seq<T>)
    ensures (forall x :: x !in xs) ==> xs == []
  {
    if |xs| > 0 {
      assert xs[0] in xs;
    }
  }

  lemma DedupSnoc<T>(xs: seq<T>, e: T)
    ensures Dedup(xs + [e]) == Dedup(xs) + (if e in xs then [] else [e])
    ensures e in xs ==> Dedup(xs + [e]) == Dedup(xs)
  {
    assert (xs + [e])[..|xs|] == xs;
    assert Dedup(xs) + [] == Dedup(xs);
  }

  lemma WithoutStep<T>(xs: seq<T>, i: nat, excluded: seq<T>)
    requires i < |xs|
    ensures Without(xs[..i + 1], excluded) == Without(xs[..i], excluded) + (if xs[i] in excluded then [] else [xs[i]])
  {
    assert xs[..i + 1][..i] == xs[..i];
  }

  lemma FlattenSingle<T>(s: GoSlice<T>)
    ensures Flatten([s]) == s.Elems()
  {
    assert [s][..0] == [];
    assert Flatten([s]) == [] + s.Elems();
  }

  // ---------------------------------------------------------------------
  // Properties of the specification functions

  lemma {:induction false} DedupMembers<T>(xs: seq<T>, x: T)
    ensures x in Dedup(xs) <==> x in xs
    decreases |xs|
  {
    if |xs| > 0 {
      var init := xs[..|xs| - 1];
      DedupMembers(init, x);
      assert xs == init + [xs[|xs| - 1]];
    }
  }

  lemma {:induction false} DedupNoDuplicates<T>(xs: seq<T>)
    ensures NoDuplicates(Dedup(xs))
    decreases |xs|
  {
    if |xs| > 0 {
      var init, last := xs[..|xs| - 1], xs[|xs| - 1];
      DedupNoDuplicates(init);
      DedupMembers(init, last);
    }
  }

  lemma {:induction false} DedupLength<T>(xs: seq<T>)
    ensures |Dedup(xs)| <= |xs|
    decreases |xs|
  {
    if |xs| > 0 {
      DedupLength(xs[..|xs| - 1]);
    }
  }

  /** A sequence without repetitions is its own deduplication. */
  lemma {:induction false} DedupOfDistinct<T>(xs: seq<T>)
    requires NoDuplicates(xs)
    ensures Dedup(xs) == xs
    decreases |xs|
  {
    if |xs| > 0 {
      var init := xs[..|xs| - 1];
      DedupOfDistinct(init);
      assert xs == init + [xs[|xs| - 1]];
    }
  }

  /** Dedup keeps the order of first occurrences: earlier in the result means first seen earlier in `xs`. */
  lemma {:induction false} DedupFollowsFirstOccurrence<T>(xs: seq<T>, i: nat, j: nat)
    requires i < j < |Dedup(xs)|
    ensures Dedup(xs)[i] in xs && Dedup(xs)[j] in xs
    ensures IndexOf(xs, Dedup(xs)[i]) < IndexOf(xs, Dedup(xs)[j])
    decreases |xs|
  {
    var init, last := xs[..|xs| - 1], xs[|xs| - 1];
    var d := Dedup(init);
    assert xs == init + [last];
    DedupMembers(init, Dedup(xs)[i]);
    DedupMembers(xs, Dedup(xs)[i]);
    DedupMembers(xs, Dedup(xs)[j]);
    IndexOfPrefix(init, [last], Dedup(xs)[i]);
    if j < |d| {
      DedupFollowsFirstOccurrence(init, i, j);
      DedupMembers(init, Dedup(xs)[j]);
      IndexOfPrefix(init, [last], Dedup(xs)[j]);
    } else {
      assert Dedup(xs)[j] == last && last !in init;
      assert IndexOf(xs, last) == |init|;
    }
  }

  lemma {:induction false} IndexOfPrefix<T>(a: seq<T>, b: seq<T>, x: T)
    requires x in a
    ensures IndexOf(a + b, x) == IndexOf(a, x)
    decreases |a|
  {
    if a[0] != x {
      assert (a + b)[1..] == a[1..] + b;
      IndexOfPrefix(a[1..], b, x);
    }
  }

  /** With `==` as the equality, Unique deduplicates exactly as Union does. */
  lemma UniqueWithEqualityIsDedup<T>(s: seq<T>, eq: (T, T) -> bool)
    requires forall a, b :: eq(a, b) <==> a == b
    ensures UniquePrefix(s, eq, |s|) == Dedup(s)
  {
    UniquePrefixIsDedup(s, eq, |s|);
    assert s[..|s|] == s;
  }

  lemma {:induction false} UniquePrefixIsDedup<T>(s: seq<T>, eq: (T, T) -> bool, n: nat)
    requires forall a, b :: eq(a, b) <==> a == b
    requires n <= |s|
    ensures UniquePrefix(s, eq, n) == Dedup(s[..n])
    decreases n
  {
    if n > 0 {
      UniquePrefixIsDedup(s, eq, n - 1);
      assert s[..n][..n - 1] == s[..n - 1];
      assert FirstOfItsKind(s, eq, n - 1) <==> s[n - 1] !in s[..n - 1];
    }
  }

  /** Unique with `==`: no duplicates, the same elements, and no longer than the input. */
  lemma UniqueWithEqualityProperties<T>(s: seq<T>, eq: (T, T) -> bool)
    requires forall a, b :: eq(a, b) <==> a == b
    ensures NoDuplicates(UniquePrefix(s, eq, |s|))
    ensures forall x :: x in UniquePrefix(s, eq, |s|) <==> x in s
    ensures |UniquePrefix(s, eq, |s|)| <= |s|
  {
    UniqueWithEqualityIsDedup(s, eq);
    DedupNoDuplicates(s);
    DedupLength(s);
    forall x ensures x in Dedup(s) <==> x in s {
      DedupMembers(s, x);
    }
  }

  /** Union's result holds no duplicates and exactly the elements of the slices. */
  lemma UnionProperties<T>(slices: seq<GoSlice<T>>)
    ensures NoDuplicates(Dedup(Flatten(slices)))
    ensures forall x :: x in Dedup(Flatten(slices)) <==>
                        exists k :: 0 <= k < |slices| && x in slices[k].Elems()
  {
    DedupNoDuplicates(Flatten(slices));
    forall x
      ensures x in Dedup(Flatten(slices)) <==> exists k :: 0 <= k < |slices| && x in slices[k].Elems()
    {
      DedupMembers(Flatten(slices), x);
      FlattenMembers(slices, x);
    }
  }

  /** Difference's result holds no duplicates and exactly the elements of `first` found in no other slice. */
  lemma DifferenceProperties<T>(first: seq<T>, others: seq<GoSlice<T>>)
    ensures NoDuplicates(Dedup(Without(first, Flatten(others))))
    ensures forall x :: x in Dedup(Without(first, Flatten(others))) <==>
                        x in first && forall k :: 0 <= k < |others| ==> x !in others[k].Elems()
  {
    DedupNoDuplicates(Without(first, Flatten(others)));
    forall x
      ensures x in Dedup(Without(first, Flatten(others))) <==>
              x in first && forall k :: 0 <= k < |others| ==> x !in others[k].Elems()
    {
      DedupMembers(Without(first, Flatten(others)), x);
      WithoutMembers(first, Flatten(others), x);
      FlattenMembers(others, x);
    }
  }

  lemma {:induction false} WithoutMembers<T>(xs: seq<T>, excluded: seq<T>, x: T)
    ensures x in Without(xs, excluded) <==> x in xs && x !in excluded
    decreases |xs|
  {
    if |xs| > 0 {
      var init := xs[..|xs| - 1];
      WithoutMembers(init, excluded, x);
      assert xs == init + [xs[|xs| - 1]];
    }
  }

  /** The count of slices containing `x` is at most their number, positive iff `x` occurs, full iff `x` is in every slice. */
  lemma {:induction false} SlicesContainingCounts<T>(x: T, slices: seq<GoSlice<T>>)
    ensures SlicesContaining(x, slices) <= |slices|
    ensures SlicesContaining(x, slices) == 0 <==> x !in Flatten(slices)
    ensures SlicesContaining(x, slices) == |slices| <==> InEvery(x, slices)
    decreases |slices|
  {
    if |slices| > 0 {
      var init := slices[..|slices| - 1];
      SlicesContainingCounts(x, init);
      assert forall k :: 0 <= k < |init| ==> init[k] == slices[k];
    }
  }
}
