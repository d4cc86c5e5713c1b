/**
 * The combinators of package gslice (slice.go): Map, Filter, Reduce, Find,
 * Any, All, Concat and Slice. Each takes its input slice by value, so none of
 * them can change it; each keeps apart a nil input (or no arguments) and an
 * empty one, as the Go code does.
 */
module GSlice {
  import opened Go

  // ---------------------------------------------------------------------
  // Specification functions

  /** The elements of `s` that satisfy `fn`, in their original order. */
  function Filtered<T>(s: seq<T>, fn: T -> bool): seq<T>
    decreases |s|
  {
    if |s| == 0 then []
    else Filtered(s[..|s| - 1], fn) + (if fn(s[|s| - 1]) then [s[|s| - 1]] else [])
  }

  /** The left fold `fn(...fn(fn(initial, s[0]), s[1])..., s[n-1])`. */
  function FoldLeft<T, R>(s: seq<T>, initial: R, fn: (R, T) -> R): R
    decreases |s|
  {
    if |s| == 0 then initial
    else fn(FoldLeft(s[..|s| - 1], initial, fn), s[|s| - 1])
  }

  /** All elements of all slices, slice after slice. */
  function Flatten<T>(slices: seq<GoSlice<T>>): seq<T>
    decreases |slices|
  {
    if |slices| == 0 then []
    else Flatten(slices[..|slices| - 1]) + slices[|slices| - 1].Elems()
  }

  /** The sum of the lengths of the slices (`totalLen` in Concat and Union). */
  function TotalLen<T>(slices: seq<GoSlice<T>>): nat
    decreases |slices|
  {
    if |slices| == 0 then 0
    else TotalLen(slices[..|slices| - 1]) + slices[|slices| - 1].Len()
  }

  // ---------------------------------------------------------------------
  // The operations

  /** Map(s, fn): nil for nil, otherwise a fresh slice with `fn` applied to every element. */
  method Map<T, R(0)>(s: GoSlice<T>, fn: T -> R) returns (r: GoSlice<R>)
    ensures s.Nil? <==> r.Nil?
    ensures r.Len() == s.Len()
    ensures forall i :: 0 <= i < r.Len() ==> r.Elems()[i] == fn(s.Elems()[i])
  {
    if s.Nil? {
      return Nil;
    }
    var result := new R[|s.elems|];
    for i := 0 to |s.elems|
      invariant forall k :: 0 <= k < i ==> result[k] == fn(s.elems[k])
    {
      result[i] := fn(s.elems[i]);
    }
    r := Arr(result[..]);
  }

  /** Filter(s, fn): nil for nil, otherwise the elements satisfying `fn`; no match gives an empty, non-nil slice. */
  method Filter<T>(s: GoSlice<T>, fn: T -> bool) returns (r: GoSlice<T>)
    ensures s.Nil? ==> r.Nil?
    ensures s.Arr? ==> r == Arr(Filtered(s.elems, fn))
  {
    if s.Nil? {
      return Nil;
    }
    var result: seq<T> := [];
    for i := 0 to |s.elems|
      invariant result == Filtered(s.elems[..i], fn)
    {
      assert s.elems[..i + 1][..i] == s.elems[..i];
      if fn(s.elems[i]) {
        result := result + [s.elems[i]];
      }
    }
    assert s.elems[..|s.elems|] == s.elems;
    r := Arr(result);
  }

  /** Reduce(s, initial, fn): the left fold of `fn` over `s` from `initial`; `initial` itself for a nil or empty slice. */
  method Reduce<T, R>(s: GoSlice<T>, initial: R, fn: (R, T) -> R) returns (r: R)
    ensures r == FoldLeft(s.Elems(), initial, fn)
    ensures s.Len() == 0 ==> r == initial
  {
    var elems := s.Elems();
    r := initial;
    for i := 0 to |elems|
      invariant r == FoldLeft(elems[..i], initial, fn)
    {
      assert elems[..i + 1][..i] == elems[..i];
      r := fn(r, elems[i]);
    }
    assert elems[..|elems|] == elems;
  }

  /**
   * Find(s, fn): the first element satisfying `fn` and true, or the zero value
   * of T (passed as `zero`) and false when there is none.
   */
  method Find<T>(s: GoSlice<T>, fn: T -> bool, zero: T) returns (v: T, found: bool)
    ensures found <==> exists i :: 0 <= i < s.Len() && fn(s.Elems()[i])
    ensures found ==> exists i :: 0 <= i < s.Len() && s.Elems()[i] == v && fn(v) &&
                                  forall j :: 0 <= j < i ==> !fn(s.Elems()[j])
    ensures !found ==> v == zero
  {
    if s.Nil? {
      return zero, false;
    }
    for i := 0 to |s.elems|
      invariant forall j :: 0 <= j < i ==> !fn(s.elems[j])
    {
      if fn(s.elems[i]) {
        assert s.Elems()[i] == s.elems[i];
        return s.elems[i], true;
      }
    }
    return zero, false;
  }

  /** Any(s, fn): some element satisfies `fn` (false for nil or empty). */
  method Any<T>(s: GoSlice<T>, fn: T -> bool) returns (b: bool)
    ensures b <==> exists i :: 0 <= i < s.Len() && fn(s.Elems()[i])
  {
    if s.Nil? {
      return false;
    }
    for i := 0 to |s.elems|
      invariant forall j :: 0 <= j < i ==> !fn(s.elems[j])
    {
      if fn(s.elems[i]) {
        assert fn(s.Elems()[i]);
        return true;
      }
    }
    return false;
  }

  /** All(s, fn): every element satisfies `fn` (true for nil or empty). */
  method All<T>(s: GoSlice<T>, fn: T -> bool) returns (b: bool)
    ensures b <==> forall i :: 0 <= i < s.Len() ==> fn(s.Elems()[i])
  {
    if s.Nil? {
      return true;
    }
    for i := 0 to |s.elems|
      invariant forall j :: 0 <= j < i ==> fn(s.elems[j])
    {
      if !fn(s.elems[i]) {
        assert !fn(s.Elems()[i]);
        return false;
      }
    }
    return true;
  }

  /** Concat(slices...): nil for no arguments, otherwise all elements in order, non-nil even when every part is empty. */
  method Concat<T>(slices: seq<GoSlice<T>>) returns (r: GoSlice<T>)
    ensures |slices| == 0 <==> r.Nil?
    ensures r.Arr? ==> r.elems == Flatten(slices) && |r.elems| == TotalLen(slices)
  {
    if |slices| == 0 {
      return Nil;
    }
    var totalLen := 0;
    for i := 0 to |slices|
      invariant totalLen == TotalLen(slices[..i])
    {
      assert slices[..i + 1][..i] == slices[..i];
      totalLen := totalLen + slices[i].Len();
    }
    var result: seq<T> := [];
    for i := 0 to |slices|
      invariant result == Flatten(slices[..i])
    {
      assert slices[..i + 1][..i] == slices[..i];
      result := result + slices[i].Elems();
    }
    assert slices[..|slices|] == slices;
    FlattenLength(slices);
    r := Arr(result);
  }

  /**
   * Slice(s, start, end): nil for nil without any bounds check; otherwise a
   * fresh copy of `s[start:end]`. Out-of-range bounds make Go panic, so they
   * are the caller's obligation.
   */
  method Slice<T(0)>(s: GoSlice<T>, start: int, end: int) returns (r: GoSlice<T>)
    requires s.Arr? ==> 0 <= start <= end <= |s.elems|
    ensures s.Nil? <==> r.Nil?
    ensures r.Arr? ==> |r.elems| == end - start &&
                       forall i :: 0 <= i < end - start ==> r.elems[i] == s.elems[start + i]
  {
    if s.Nil? {
      return Nil;
    }
    var sub := s.elems[start..end];
    var result := new T[|sub|];
    forall i | 0 <= i < |sub| {
      result[i] := sub[i];
    }
    r := Arr(result[..]);
  }

  // ---------------------------------------------------------------------
  // Properties of the specification functions

  /** Filtering distributes over concatenation: the kept elements stay in their order. */
  lemma {:induction false} FilteredAppend<T>(a: seq<T>, b: seq<T>, fn: T -> bool)
    ensures Filtered(a + b, fn) == Filtered(a, fn) + Filtered(b, fn)
    decreases |b|
  {
    if |b| > 0 {
      var b' := b[..|b| - 1];
      assert (a + b)[..|a + b| - 1] == a + b';
      FilteredAppend(a, b', fn);
    } else {
      assert a + b == a;
    }
  }

  /** An element is kept exactly when it occurs in `s` and satisfies `fn`. */
  lemma {:induction false} FilteredMembers<T>(s: seq<T>, fn: T -> bool, x: T)
    ensures x in Filtered(s, fn) <==> x in s && fn(x)
    decreases |s|
  {
    if |s| > 0 {
      var s' := s[..|s| - 1];
      FilteredMembers(s', fn, x);
      assert s == s' + [s[|s| - 1]];
    }
  }

  lemma {:induction false} FilteredLength<T>(s: seq<T>, fn: T -> bool)
    ensures |Filtered(s, fn)| <= |s|
    ensures |Filtered(s, fn)| == |s| <==> forall x :: x in s ==> fn(x)
    decreases |s|
  {
    if |s| > 0 {
      var s' := s[..|s| - 1];
      FilteredLength(s', fn);
      assert s == s' + [s[|s| - 1]];
    }
  }

  /** The left fold processes the elements left to right: folding `a + b` is folding `b` from the fold of `a`. */
  lemma {:induction false} FoldLeftAppend<T, R>(a: seq<T>, b: seq<T>, initial: R, fn: (R, T) -> R)
    ensures FoldLeft(a + b, initial, fn) == FoldLeft(b, FoldLeft(a, initial, fn), fn)
    decreases |b|
  {
    if |b| > 0 {
      var b' := b[..|b| - 1];
      assert (a + b)[..|a + b| - 1] == a + b';
      FoldLeftAppend(a, b', initial, fn);
    } else {
      assert a + b == a;
    }
  }

  /** The fold seen from the front: the first element is combined with `initial` first. */
  lemma FoldLeftFirst<T, R>(s: seq<T>, initial: R, fn: (R, T) -> R)
    requires |s| > 0
    ensures FoldLeft(s, initial, fn) == FoldLeft(s[1..], fn(initial, s[0]), fn)
  {
    assert s == [s[0]] + s[1..];
    FoldLeftAppend([s[0]], s[1..], initial, fn);
    assert [s[0]][..0] == [];
  }

  /** One more slice: the flattening of the first `i + 1` slices extends that of the first `i`. */
  lemma FlattenStep<T>(slices: seq<GoSlice<T>>, i: nat)
    requires i < |slices|
    ensures Flatten(slices[..i + 1]) == Flatten(slices[..i]) + slices[i].Elems()
  {
    assert slices[..i + 1][..i] == slices[..i];
  }

  lemma {:induction false} FlattenLength<T>(slices: seq<GoSlice<T>>)
    ensures |Flatten(slices)| == TotalLen(slices)
    decreases |slices|
  {
    if |slices| > 0 {
      FlattenLength(slices[..|slices| - 1]);
    }
  }

  lemma {:induction false} FlattenAppend<T>(a: seq<GoSlice<T>>, b: seq<GoSlice<T>>)
    ensures Flatten(a + b) == Flatten(a) + Flatten(b)
    decreases |b|
  {
    if |b| > 0 {
      var b' := b[..|b| - 1];
      assert (a + b)[..|a + b| - 1] == a + b';
      FlattenAppend(a, b');
    } else {
      assert a + b == a;
    }
  }

  /** An element occurs in the flattening exactly when it occurs in one of the slices. */
  lemma {:induction false} FlattenMembers<T>(slices: seq<GoSlice<T>>, x: T)
    ensures x in Flatten(slices) <==> exists k :: 0 <= k < |slices| && x in slices[k].Elems()
    decreases |slices|
  {
    if |slices| > 0 {
      var init := slices[..|slices| - 1];
      FlattenMembers(init, x);
      if x in Flatten(init) {
        var k :| 0 <= k < |init| && x in init[k].Elems();
        assert slices[k] == init[k];
      }
      if exists k :: 0 <= k < |slices| && x in slices[k].Elems() {
        var k :| 0 <= k < |slices| && x in slices[k].Elems();
        if k < |init| {
          assert init[k] == slices[k];
        }
      }
    }
  }
}
