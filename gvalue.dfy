/**
 * The generic one-line helpers of package gvalue: a ternary `IfElse`, `Equal`
 * (Go's `==`) and `Less` (Go's `<`), the last two over the types the rest of
 * the library uses them at: integers and strings.
 */
module GValue {

  /** Go's `IfElse[T](condition, t, f)`; both arguments are already evaluated. */
  function IfElse<T>(condition: bool, t: T, f: T): (r: T)
    ensures condition ==> r == t
    ensures !condition ==> r == f
  {
    if condition then t else f
  }

  /** Go's `Equal[T comparable](l, r)`. */
  predicate Equal<T(==)>(l: T, r: T) {
    l == r
  }

  lemma EqualIsEquivalence<T>(x: T, y: T, z: T)
    ensures Equal(x, x)
    ensures Equal(x, y) <==> Equal(y, x)
    ensures Equal(x, y) && Equal(y, z) ==> Equal(x, z)
  {
  }

  /** Go's `Less[int](l, r)`. */
  predicate LessInt(l: int, r: int) {
    l < r
  }

  lemma LessIntIsStrictOrder(x: int, y: int, z: int)
    ensures LessInt(x, y) <==> x < y
    ensures !LessInt(x, x)
    ensures LessInt(x, y) ==> !LessInt(y, x)
    ensures LessInt(x, y) && LessInt(y, z) ==> LessInt(x, z)
    ensures LessInt(x, y) || x == y || LessInt(y, x)
  {
  }

  /**
   * Go's `Less[string](l, r)`: Go compares strings byte by byte, which for
   * UTF-8 text is the order of their code points, character by character.
   */
  predicate LessString(l: string, r: string)
    decreases |l|
  {
    if |r| == 0 then false
    else if |l| == 0 then true
    else if l[0] != r[0] then l[0] < r[0]
    else LessString(l[1..], r[1..])
  }

  /** The textbook definition: `l` and `r` share a prefix of length `k`, after which `l` ends first or has the smaller character. */
  ghost predicate LexicographicallyBefore(l: string, r: string) {
    exists k :: 0 <= k <= |l| && k <= |r| && l[..k] == r[..k] && FirstDifferenceBefore(l, r, k)
  }

  ghost predicate FirstDifferenceBefore(l: string, r: string, k: nat)
    requires k <= |l| && k <= |r|
  {
    (k == |l| && k < |r|) || (k < |l| && k < |r| && l[k] < r[k])
  }

  lemma LessStringIsLexicographic(l: string, r: string)
    ensures LessString(l, r) <==> LexicographicallyBefore(l, r)
  {
    if LessString(l, r) {
      LessStringHasFirstDifference(l, r);
    }
    if LexicographicallyBefore(l, r) {
      var k :| 0 <= k <= |l| && k <= |r| && l[..k] == r[..k] && FirstDifferenceBefore(l, r, k);
      FirstDifferenceGivesLessString(l, r, k);
    }
  }

  lemma {:induction false} LessStringHasFirstDifference(l: string, r: string)
    requires LessString(l, r)
    ensures LexicographicallyBefore(l, r)
    decreases |l|
  {
    if |l| == 0 || l[0] != r[0] {
      assert l[..0] == r[..0];
      assert FirstDifferenceBefore(l, r, 0);
    } else {
      LessStringHasFirstDifference(l[1..], r[1..]);
      var k :| 0 <= k <= |l[1..]| && k <= |r[1..]| && l[1..][..k] == r[1..][..k] && FirstDifferenceBefore(l[1..], r[1..], k);
      assert l[..k + 1] == [l[0]] + l[1..][..k];
      assert r[..k + 1] == [r[0]] + r[1..][..k];
      assert FirstDifferenceBefore(l, r, k + 1);
    }
  }

  lemma {:induction false} FirstDifferenceGivesLessString(l: string, r: string, k: nat)
    requires k <= |l| && k <= |r| && l[..k] == r[..k] && FirstDifferenceBefore(l, r, k)
    ensures LessString(l, r)
    decreases k
  {
    if k > 0 {
      assert l[0] == l[..k][0] && r[0] == r[..k][0];
      assert l[1..][..k - 1] == l[..k][1..];
      assert r[1..][..k - 1] == r[..k][1..];
      FirstDifferenceGivesLessString(l[1..], r[1..], k - 1);
    }
  }

  lemma {:induction false} LessStringIrreflexive(s: string)
    ensures !LessString(s, s)
    decreases |s|
  {
    if |s| > 0 {
      LessStringIrreflexive(s[1..]);
    }
  }

  lemma {:induction false} LessStringTransitive(x: string, y: string, z: string)
    requires LessString(x, y) && LessString(y, z)
    ensures LessString(x, z)
    decreases |x|
  {
    if |x| > 0 && x[0] == y[0] && y[0] == z[0] {
      LessStringTransitive(x[1..], y[1..], z[1..]);
    }
  }

  lemma LessStringExample()
    ensures LessString("apple", "banana")
    ensures !LessString("banana", "apple")
    ensures LessString("app", "apple")
  {
  }
}
