/**
 * A canonical finite set of points on the real line.
 *
 * Points are kept in a strictly ascending sequence, so every finite set has
 * exactly one representation and structural equality is set equality.
 * Values are immutable: every operation returns a new set.
 * `real` stands for a float that is neither NaN nor infinite.
 */
module FiniteSets {

  /** Strictly ascending: sorted, and therefore free of duplicates. */
  predicate Ascending(s: seq<real>) {
    forall i, j :: 0 <= i < j < |s| ==> s[i] < s[j]
  }

  /** The mathematical set a point list denotes. */
  function Elems(s: seq<real>): (e: set<real>) {
    set x | x in s
  }

  datatype FiniteSet = FiniteSet(points: seq<real>)

  /** The representation invariant: the points are canonical. */
  predicate Valid(s: FiniteSet) {
    Ascending(s.points)
  }

  const Empty := FiniteSet([])

  lemma AscendingTail(s: seq<real>)
    requires Ascending(s) && |s| > 0
    ensures Ascending(s[1..])
    ensures forall y :: y in Elems(s[1..]) ==> s[0] < y
    ensures forall y :: y in Elems(s) ==> s[0] <= y
  {
  }

  /** Prepending a point below every element keeps a list ascending. */
  lemma AscendingCons(x: real, s: seq<real>)
    requires Ascending(s)
    requires forall y :: y in Elems(s) ==> x < y
    ensures Ascending([x] + s)
    ensures Elems([x] + s) == {x} + Elems(s)
  {
    var r := [x] + s;
    forall i, j | 0 <= i < j < |r| ensures r[i] < r[j] {
      if i == 0 {
        assert r[j] == s[j - 1];
        assert s[j - 1] in Elems(s);
      }
    }
  }

  /** Adds one point to an ascending list, keeping it ascending. */
  function Insert(x: real, s: seq<real>): (r: seq<real>)
    requires Ascending(s)
    ensures Ascending(r)
    ensures Elems(r) == Elems(s) + {x}
  {
    if s == [] then [x]
    else if x < s[0] then
      AscendingTail(s);
      AscendingCons(x, s);
      [x] + s
    else if x == s[0] then s
    else
      AscendingTail(s);
      var rest := Insert(x, s[1..]);
      AscendingCons(s[0], rest);
      [s[0]] + rest
  }

  /**
   * FiniteSet.of: the canonical set of the given values, in ascending order
   * and with duplicates absorbed.
   */
  function Of(vals: seq<real>): (r: FiniteSet)
    ensures Valid(r)
    ensures Elems(r.points) == Elems(vals)
  {
    if vals == [] then Empty
    else FiniteSet(Insert(vals[0], Of(vals[1..]).points))
  }

  /** FiniteSet.getPoints: the points in ascending order. */
  function GetPoints(s: FiniteSet): (r: seq<real>)
    requires Valid(s)
    ensures Ascending(r)
    ensures Elems(r) == Elems(s.points)
  {
    s.points
  }

  /** The number of distinct points in an ascending list is its length. */
  lemma {:induction false} AscendingCardinality(s: seq<real>)
    requires Ascending(s)
    ensures |Elems(s)| == |s|
  {
    if s != [] {
      AscendingTail(s);
      AscendingCardinality(s[1..]);
      assert Elems(s) == {s[0]} + Elems(s[1..]);
      assert s[0] !in Elems(s[1..]);
    }
  }

  /** Two ascending lists with the same elements are the same list. */
  lemma {:induction false} AscendingUnique(a: seq<real>, b: seq<real>)
    requires Ascending(a) && Ascending(b)
    requires Elems(a) == Elems(b)
    ensures a == b
  {
    AscendingCardinality(a);
    AscendingCardinality(b);
    if a != [] {
      AscendingTail(a);
      AscendingTail(b);
      assert a[0] in Elems(b) && b[0] in Elems(a);
      assert a[0] == b[0];
      assert Elems(a[1..]) == Elems(b[1..]) by {
        forall y ensures y in a[1..] <==> y in b[1..] {
          assert y in Elems(a) <==> y in Elems(b);
          assert a == [a[0]] + a[1..] && b == [b[0]] + b[1..];
        }
      }
      AscendingUnique(a[1..], b[1..]);
      assert a == [a[0]] + a[1..] && b == [b[0]] + b[1..];
    }
  }

  /** A canonical set is determined by the points it holds. */
  lemma Extensionality(a: FiniteSet, b: FiniteSet)
    requires Valid(a) && Valid(b)
    ensures a == b <==> Elems(a.points) == Elems(b.points)
  {
    if Elems(a.points) == Elems(b.points) {
      AscendingUnique(a.points, b.points);
    }
  }

  /** FiniteSet.size: the number of distinct points. */
  function Size(s: FiniteSet): (n: nat)
    requires Valid(s)
    ensures n == |Elems(s.points)|
  {
    AscendingCardinality(s.points);
    |s.points|
  }

  /**
   * FiniteSet.equals: the same points in the same order. On canonical sets
   * this is exactly equality of the denoted sets.
   */
  function Equals(a: FiniteSet, b: FiniteSet): (r: bool)
    requires Valid(a) && Valid(b)
    ensures r <==> Elems(a.points) == Elems(b.points)
  {
    Extensionality(a, b);
    a.points == b.points
  }

  /** Two-pointer merge: every point of either list, once. */
  function MergeUnion(a: seq<real>, b: seq<real>): (r: seq<real>)
    requires Ascending(a) && Ascending(b)
    ensures Ascending(r)
    ensures Elems(r) == Elems(a) + Elems(b)
    decreases |a| + |b|
  {
    if a == [] then b
    else if b == [] then a
    else
      AscendingTail(a);
      AscendingTail(b);
      if a[0] < b[0] then
        var rest := MergeUnion(a[1..], b);
        AscendingCons(a[0], rest);
        [a[0]] + rest
      else if b[0] < a[0] then
        var rest := MergeUnion(a, b[1..]);
        AscendingCons(b[0], rest);
        [b[0]] + rest
      else
        var rest := MergeUnion(a[1..], b[1..]);
        AscendingCons(a[0], rest);
        [a[0]] + rest
  }

  /** Merge-join: the points present in both lists. */
  function MergeIntersection(a: seq<real>, b: seq<real>): (r: seq<real>)
    requires Ascending(a) && Ascending(b)
    ensures Ascending(r)
    ensures Elems(r) == Elems(a) * Elems(b)
    decreases |a| + |b|
  {
    if a == [] || b == [] then []
    else
      AscendingTail(a);
      AscendingTail(b);
      if a[0] < b[0] then MergeIntersection(a[1..], b)
      else if b[0] < a[0] then MergeIntersection(a, b[1..])
      else
        var rest := MergeIntersection(a[1..], b[1..]);
        AscendingCons(a[0], rest);
        [a[0]] + rest
  }

  /** Merge: the points of `a` absent from `b`. */
  function MergeDifference(a: seq<real>, b: seq<real>): (r: seq<real>)
    requires Ascending(a) && Ascending(b)
    ensures Ascending(r)
    ensures Elems(r) == Elems(a) - Elems(b)
    decreases |a| + |b|
  {
    if a == [] then []
    else if b == [] then a
    else
      AscendingTail(a);
      AscendingTail(b);
      if a[0] < b[0] then
        var rest := MergeDifference(a[1..], b);
        AscendingCons(a[0], rest);
        [a[0]] + rest
      else if b[0] < a[0] then MergeDifference(a, b[1..])
      else MergeDifference(a[1..], b[1..])
  }

  /** FiniteSet.union: a canonical set holding the points of either set. */
  function Union(a: FiniteSet, b: FiniteSet): (r: FiniteSet)
    requires Valid(a) && Valid(b)
    ensures Valid(r)
    ensures Elems(r.points) == Elems(a.points) + Elems(b.points)
  {
    FiniteSet(MergeUnion(a.points, b.points))
  }

  /** FiniteSet.intersection: a canonical set holding the points of both sets. */
  function Intersection(a: FiniteSet, b: FiniteSet): (r: FiniteSet)
    requires Valid(a) && Valid(b)
    ensures Valid(r)
    ensures Elems(r.points) == Elems(a.points) * Elems(b.points)
  {
    FiniteSet(MergeIntersection(a.points, b.points))
  }

  /** FiniteSet.difference: a canonical set holding the points of `a` not in `b`. */
  function Difference(a: FiniteSet, b: FiniteSet): (r: FiniteSet)
    requires Valid(a) && Valid(b)
    ensures Valid(r)
    ensures Elems(r.points) == Elems(a.points) - Elems(b.points)
  {
    FiniteSet(MergeDifference(a.points, b.points))
  }

  /** The empty set is an identity for union, on both sides. */
  lemma UnionWithEmpty(a: FiniteSet)
    requires Valid(a)
    ensures Union(Empty, a) == a && Union(a, Empty) == a
  {
    Extensionality(Union(Empty, a), a);
    Extensionality(Union(a, Empty), a);
  }

  /** Union with a superset is the superset; overlapping points appear once. */
  lemma UnionWithSuperset(a: FiniteSet, b: FiniteSet)
    requires Valid(a) && Valid(b)
    requires Elems(a.points) <= Elems(b.points)
    ensures Union(a, b) == b && Union(b, a) == b
  {
    Extensionality(Union(a, b), b);
    Extensionality(Union(b, a), b);
  }

  /** Intersection with the empty set is empty, on both sides. */
  lemma IntersectionWithEmpty(a: FiniteSet)
    requires Valid(a)
    ensures Intersection(a, Empty) == Empty && Intersection(Empty, a) == Empty
  {
    Extensionality(Intersection(a, Empty), Empty);
    Extensionality(Intersection(Empty, a), Empty);
  }

  /** Sets with no common point intersect to the empty set. */
  lemma IntersectionOfDisjoint(a: FiniteSet, b: FiniteSet)
    requires Valid(a) && Valid(b)
    requires Elems(a.points) !! Elems(b.points)
    ensures Intersection(a, b) == Empty
  {
    Extensionality(Intersection(a, b), Empty);
  }

  /** A subset intersected with its superset, either way round, is the subset. */
  lemma IntersectionWithSuperset(a: FiniteSet, b: FiniteSet)
    requires Valid(a) && Valid(b)
    requires Elems(a.points) <= Elems(b.points)
    ensures Intersection(a, b) == a && Intersection(b, a) == a
  {
    Extensionality(Intersection(a, b), a);
    Extensionality(Intersection(b, a), a);
  }

  /** A \ {} = A and {} \ A = {}. */
  lemma DifferenceWithEmpty(a: FiniteSet)
    requires Valid(a)
    ensures Difference(a, Empty) == a && Difference(Empty, a) == Empty
  {
    Extensionality(Difference(a, Empty), a);
    Extensionality(Difference(Empty, a), Empty);
  }

  /** A subset minus its superset is empty. */
  lemma DifferenceFromSuperset(a: FiniteSet, b: FiniteSet)
    requires Valid(a) && Valid(b)
    requires Elems(a.points) <= Elems(b.points)
    ensures Difference(a, b) == Empty
  {
    Extensionality(Difference(a, b), Empty);
  }

  /** Removing points the set does not hold leaves it unchanged. */
  lemma DifferenceOfDisjoint(a: FiniteSet, b: FiniteSet)
    requires Valid(a) && Valid(b)
    requires Elems(a.points) !! Elems(b.points)
    ensures Difference(a, b) == a
  {
    Extensionality(Difference(a, b), a);
  }
}
