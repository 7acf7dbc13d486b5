/**
 * The glass-box tests of FiniteSet, stated as lemmas about the model: each
 * `ensures` is one group of the tests' assertions.
 */
module FiniteSetTests {
  import opened FiniteSets

  const S0 := Of([])
  const S1 := Of([1.0])
  const S2 := Of([2.0])
  const S12 := Of([1.0, 2.0])
  const S23 := Of([2.0, 3.0])
  const S34 := Of([3.0, 4.0])
  const S123 := Of([1.0, 2.0, 3.0])
  const S1234 := Of([1.0, 2.0, 3.0, 4.0])

  /** `Of` sorts its input: the built set has exactly the listed ascending points. */
  lemma OfIs(vals: seq<real>, sorted: seq<real>)
    requires Ascending(sorted)
    requires Elems(vals) == Elems(sorted)
    ensures Of(vals).points == sorted
  {
    AscendingUnique(Of(vals).points, sorted);
  }

  /** Creation: empty, one item, two items, two items out of order, a negative. */
  lemma TestCreation()
    ensures GetPoints(Of([])) == []
    ensures GetPoints(Of([1.0])) == [1.0]
    ensures GetPoints(Of([1.0, 2.0])) == [1.0, 2.0]
    ensures GetPoints(Of([2.0, 1.0])) == [1.0, 2.0]
    ensures GetPoints(Of([2.0, -2.0])) == [-2.0, 2.0]
  {
    OfIs([1.0], [1.0]);
    OfIs([1.0, 2.0], [1.0, 2.0]);
    OfIs([2.0, 1.0], [1.0, 2.0]);
    OfIs([2.0, -2.0], [-2.0, 2.0]);
  }

  /** Equality: each of S0, S1, S12 equals itself and none of the others. */
  lemma TestEquals()
    ensures Equals(S0, S0) && !Equals(S0, S1) && !Equals(S0, S12)
    ensures !Equals(S1, S0) && Equals(S1, S1) && !Equals(S1, S12)
    ensures !Equals(S12, S0) && !Equals(S12, S1) && Equals(S12, S12)
  {
    TestCreation();
  }

  /** Size: the number of points. */
  lemma TestSize()
    ensures Size(S0) == 0 && Size(S1) == 1 && Size(S12) == 2
  {
    TestCreation();
  }

  /** The fixture {2} holds its one point. */
  lemma S2Points()
    ensures S2.points == [2.0]
  {
    OfIs([2.0], [2.0]);
  }

  /** The fixture {2, 3} holds its listed points, ascending. */
  lemma S23Points()
    ensures S23.points == [2.0, 3.0]
  {
    OfIs([2.0, 3.0], [2.0, 3.0]);
  }

  /** The fixture {3, 4} holds its listed points, ascending. */
  lemma S34Points()
    ensures S34.points == [3.0, 4.0]
  {
    OfIs([3.0, 4.0], [3.0, 4.0]);
  }

  /** The fixture {1, 2, 3} holds its listed points, ascending. */
  lemma S123Points()
    ensures S123.points == [1.0, 2.0, 3.0]
  {
    OfIs([1.0, 2.0, 3.0], [1.0, 2.0, 3.0]);
  }

  /** The fixture {1, 2, 3, 4} holds its listed points, ascending. */
  lemma S1234Points()
    ensures S1234.points == [1.0, 2.0, 3.0, 4.0]
  {
    var s := [1.0, 2.0, 3.0, 4.0];
    assert Ascending(s) by {
      forall i, j | 0 <= i < j < |s| ensures s[i] < s[j] {
        assert s[i] == (i + 1) as real && s[j] == (j + 1) as real;
      }
    }
    OfIs(s, s);
  }

  /** {1, 2} united with the overlapping {2, 3} is {1, 2, 3}: the shared point appears once. */
  lemma UnionOfOverlapExample()
    ensures Union(S12, S23) == S123
  {
    TestCreation();
    S23Points();
    S123Points();
    Extensionality(Union(S12, S23), S123);
  }

  /** {1, 2} united with the disjoint {3, 4} is {1, 2, 3, 4}. */
  lemma UnionOfDisjointExample()
    ensures Union(S12, S34) == S1234
  {
    TestCreation();
    S34Points();
    S1234Points();
    Extensionality(Union(S12, S34), S1234);
  }

  /** {1, 2, 3} united with its superset {1, 2, 3, 4} is the superset. */
  lemma UnionWithSupersetExample()
    ensures Union(S123, S1234) == S1234
  {
    S123Points();
    S1234Points();
    UnionWithSuperset(S123, S1234);
  }

  /** Union: identity on both sides, overlap merged once, results canonical. */
  lemma TestUnion()
    ensures Union(S0, S34) == S34
    ensures Union(S34, S0) == S34
    ensures Union(S0, S0) == S0
    ensures Union(S12, S23) == S123
    ensures Union(S12, S34) == S1234
    ensures Union(S123, S1234) == S1234
  {
    UnionWithEmpty(S34);
    UnionWithEmpty(S0);
    UnionOfOverlapExample();
    UnionOfDisjointExample();
    UnionWithSupersetExample();
  }

  /** {1, 2} and the disjoint {3, 4} have no point in common. */
  lemma IntersectionOfDisjointExample()
    ensures Intersection(S12, S34) == S0
  {
    TestCreation();
    S34Points();
    Extensionality(Intersection(S12, S34), S0);
  }

  /** {2, 3} and {1, 2} share exactly the point 2. */
  lemma IntersectionOfOverlapExample()
    ensures Intersection(S23, S12) == S2
  {
    TestCreation();
    S2Points();
    S23Points();
    Extensionality(Intersection(S23, S12), S2);
  }

  /** {1, 2, 3} intersected with its superset {1, 2, 3, 4} is {1, 2, 3}. */
  lemma IntersectionWithSupersetExample()
    ensures Intersection(S123, S1234) == S123
  {
    S123Points();
    S1234Points();
    IntersectionWithSuperset(S123, S1234);
  }

  /** Intersection: with the empty set, of disjoint sets, of overlapping sets, of a subset. */
  lemma TestIntersection()
    ensures Intersection(S34, S0) == S0
    ensures Intersection(S0, S0) == S0
    ensures Intersection(S12, S34) == S0
    ensures Intersection(S23, S12) == S2
    ensures Intersection(S123, S1234) == S123
  {
    IntersectionWithEmpty(S34);
    IntersectionWithEmpty(S0);
    IntersectionOfDisjointExample();
    IntersectionOfOverlapExample();
    IntersectionWithSupersetExample();
  }

  /** {1, 2} minus its superset {1, 2, 3} is empty. */
  lemma DifferenceOfSupersetExample()
    ensures Difference(S12, S123) == S0
  {
    TestCreation();
    S123Points();
    DifferenceFromSuperset(S12, S123);
  }

  /** {1, 2} minus the disjoint {3, 4} is {1, 2}. */
  lemma DifferenceOfDisjointExample()
    ensures Difference(S12, S34) == S12
  {
    TestCreation();
    S34Points();
    Extensionality(Difference(S12, S34), S12);
  }

  /** {1, 2} minus the overlapping {2, 3} is {1}. */
  lemma DifferenceOfOverlapExample()
    ensures Difference(S12, S23) == S1
  {
    TestCreation();
    S23Points();
    Extensionality(Difference(S12, S23), S1);
  }

  /** Difference: of a superset, of a disjoint set, of an overlapping set, and with the empty set. */
  lemma TestDifference()
    ensures Difference(S12, S123) == S0
    ensures Difference(S12, S34) == S12
    ensures Difference(S12, S23) == S1
    ensures Difference(S12, S0) == S12
    ensures Difference(S0, S12) == S0
  {
    DifferenceOfSupersetExample();
    DifferenceOfDisjointExample();
    DifferenceOfOverlapExample();
    TestCreation();
    DifferenceWithEmpty(S12);
  }
}
