/**
 * SimpleSet: an immutable set of points on the real line that is either
 * finite, {p1, ..., pN}, or co-finite, R \ {p1, ..., pN}.
 *
 * The value pairs a `complement` flag with a canonical FiniteSet. Every
 * algebra operation reduces, by a fixed case table (De Morgan's laws), to a
 * single finite-set operation plus a flag; the contracts below state that
 * each cell of the table has the set-theoretic meaning.
 */
module SimpleSets {
  import FS = FiniteSets

  datatype SimpleSet = SimpleSet(complement: bool, points: FS.FiniteSet)

  /** The representation invariant: the points are canonical. */
  predicate Valid(s: SimpleSet) {
    FS.Valid(s.points)
  }

  /** The meaning of a SimpleSet: x is in it iff (x is a listed point) != complement. */
  predicate Contains(s: SimpleSet, x: real) {
    (x in FS.Elems(s.points.points)) != s.complement
  }

  /** The whole real line, R. */
  const AllReals := SimpleSet(true, FS.Empty)

  /** The empty set, {}. */
  const EmptySet := SimpleSet(false, FS.Empty)

  /** The public constructor: the finite set of the given points. */
  function FromPoints(vals: seq<real>): (r: SimpleSet)
    ensures Valid(r) && !r.complement
    ensures forall x :: Contains(r, x) <==> x in FS.Elems(vals)
  {
    SimpleSet(false, FS.Of(vals))
  }

  /** A real strictly above every listed point: the real line is not exhausted. */
  function Above(s: seq<real>): (r: real)
    ensures forall i :: 0 <= i < |s| ==> s[i] < r
  {
    if s == [] then 0.0
    else
      var m := Above(s[1..]);
      assert forall i :: 1 <= i < |s| ==> s[i] == s[1..][i - 1];
      if s[0] < m then m else s[0] + 1.0
  }

  /** A point lying outside both lists. */
  lemma PointOutside(a: seq<real>, b: seq<real>) returns (x: real)
    ensures x !in a && x !in b
  {
    x := Above(a + b);
    assert forall i :: 0 <= i < |a| ==> (a + b)[i] == a[i];
    assert forall i :: 0 <= i < |b| ==> (a + b)[|a| + i] == b[i];
  }

  /**
   * Two valid SimpleSets with the same meaning are the same value: the
   * representation is canonical over the (infinite) real line.
   */
  lemma Extensionality(a: SimpleSet, b: SimpleSet)
    requires Valid(a) && Valid(b)
    ensures a == b <==> forall x :: Contains(a, x) <==> Contains(b, x)
  {
    if forall x :: Contains(a, x) <==> Contains(b, x) {
      SameMeaningSameValue(a, b);
    }
  }

  lemma SameMeaningSameValue(a: SimpleSet, b: SimpleSet)
    requires Valid(a) && Valid(b)
    requires forall x :: Contains(a, x) <==> Contains(b, x)
    ensures a == b
  {
    var x := PointOutside(a.points.points, b.points.points);
    assert Contains(a, x) == a.complement && Contains(b, x) == b.complement;
    assert FS.Elems(a.points.points) == FS.Elems(b.points.points) by {
      forall y ensures y in a.points.points <==> y in b.points.points {
        assert Contains(a, y) <==> Contains(b, y);
      }
    }
    FS.Extensionality(a.points, b.points);
  }

  /**
   * SimpleSet.equals: the flags match and the point sets are equal; on valid
   * values this is equality of the denoted sets.
   */
  function Equals(a: SimpleSet, b: SimpleSet): (r: bool)
    requires Valid(a) && Valid(b)
    ensures r <==> (forall x :: Contains(a, x) <==> Contains(b, x))
    ensures r <==> a == b
  {
    Extensionality(a, b);
    a.complement == b.complement && FS.Equals(a.points, b.points)
  }

  /** The result of SimpleSet.size: a count, or positive infinity. */
  datatype Cardinality = Finite(n: nat) | Infinite

  /** SimpleSet.size: infinite exactly for a complement, else the number of points. */
  function Size(s: SimpleSet): (r: Cardinality)
    requires Valid(s)
    ensures r.Infinite? <==> s.complement
    ensures r.Finite? ==> r.n == |FS.Elems(s.points.points)|
  {
    if s.complement then Infinite else Finite(FS.Size(s.points))
  }

  /** Some point of `s` lies above `b`. */
  ghost predicate HasPointAbove(s: SimpleSet, b: real) {
    exists x :: b < x && Contains(s, x)
  }

  /** An infinite size means the set holds points beyond every bound. */
  lemma SizeInfiniteIffUnbounded(s: SimpleSet)
    requires Valid(s)
    ensures Size(s).Infinite? <==> forall b :: HasPointAbove(s, b)
  {
    var pts := s.points.points;
    var top := Above(pts);
    assert forall x :: x in pts ==> x < top;
    if s.complement {
      forall b ensures HasPointAbove(s, b) {
        var x := if b < top then top else b + 1.0;
        assert b < x && Contains(s, x);
      }
    } else {
      assert !HasPointAbove(s, top);
    }
  }

  /** SimpleSet.complement: same points, flag flipped. */
  function Complement(s: SimpleSet): (r: SimpleSet)
    requires Valid(s)
    ensures Valid(r) && r.points == s.points
    ensures forall x :: Contains(r, x) <==> !Contains(s, x)
  {
    if s.complement then SimpleSet(false, s.points) else SimpleSet(true, s.points)
  }

  /** SimpleSet.union by the four-way case table. */
  function Union(a: SimpleSet, b: SimpleSet): (r: SimpleSet)
    requires Valid(a) && Valid(b)
    ensures Valid(r)
    ensures forall x :: Contains(r, x) <==> Contains(a, x) || Contains(b, x)
  {
    if !a.complement && !b.complement then SimpleSet(false, FS.Union(a.points, b.points))
    else if a.complement && b.complement then SimpleSet(true, FS.Intersection(a.points, b.points))
    else if a.complement && !b.complement then SimpleSet(true, FS.Difference(a.points, b.points))
    else SimpleSet(true, FS.Difference(b.points, a.points))
  }

  /** SimpleSet.intersection by the four-way case table. */
  function Intersection(a: SimpleSet, b: SimpleSet): (r: SimpleSet)
    requires Valid(a) && Valid(b)
    ensures Valid(r)
    ensures forall x :: Contains(r, x) <==> Contains(a, x) && Contains(b, x)
  {
    if !a.complement && !b.complement then SimpleSet(false, FS.Intersection(a.points, b.points))
    else if a.complement && b.complement then SimpleSet(true, FS.Union(a.points, b.points))
    else if a.complement && !b.complement then SimpleSet(false, FS.Difference(b.points, a.points))
    else SimpleSet(false, FS.Difference(a.points, b.points))
  }

  /** SimpleSet.difference by the four-way case table. */
  function Difference(a: SimpleSet, b: SimpleSet): (r: SimpleSet)
    requires Valid(a) && Valid(b)
    ensures Valid(r)
    ensures forall x :: Contains(r, x) <==> Contains(a, x) && !Contains(b, x)
  {
    if !a.complement && !b.complement then SimpleSet(false, FS.Difference(a.points, b.points))
    else if a.complement && b.complement then SimpleSet(false, FS.Difference(b.points, a.points))
    else if a.complement && !b.complement then SimpleSet(true, FS.Union(a.points, b.points))
    else SimpleSet(false, FS.Intersection(a.points, b.points))
  }

  /** Complementing twice gives back the original value. */
  lemma ComplementInvolution(s: SimpleSet)
    requires Valid(s)
    ensures Equals(Complement(Complement(s)), s)
  {
    Extensionality(Complement(Complement(s)), s);
  }

  /** Union and intersection are commutative, as values and not only in meaning. */
  lemma Commutativity(a: SimpleSet, b: SimpleSet)
    requires Valid(a) && Valid(b)
    ensures Union(a, b) == Union(b, a)
    ensures Intersection(a, b) == Intersection(b, a)
  {
    Extensionality(Union(a, b), Union(b, a));
    Extensionality(Intersection(a, b), Intersection(b, a));
  }

  /** De Morgan's laws hold of the case tables. */
  lemma DeMorgan(a: SimpleSet, b: SimpleSet)
    requires Valid(a) && Valid(b)
    ensures Complement(Union(a, b)) == Intersection(Complement(a), Complement(b))
    ensures Complement(Intersection(a, b)) == Union(Complement(a), Complement(b))
  {
    Extensionality(Complement(Union(a, b)), Intersection(Complement(a), Complement(b)));
    Extensionality(Complement(Intersection(a, b)), Union(Complement(a), Complement(b)));
  }

  /** The difference table computes A ∩ (R \ B) in one step. */
  lemma DifferenceIsIntersectionWithComplement(a: SimpleSet, b: SimpleSet)
    requires Valid(a) && Valid(b)
    ensures Difference(a, b) == Intersection(a, Complement(b))
  {
    Extensionality(Difference(a, b), Intersection(a, Complement(b)));
  }

  /** A set together with its complement is R; a set meets its complement in {}. */
  lemma ComplementLaws(a: SimpleSet)
    requires Valid(a)
    ensures Union(a, Complement(a)) == AllReals
    ensures Intersection(a, Complement(a)) == EmptySet
    ensures Size(EmptySet) == Finite(0) && Size(AllReals) == Infinite
  {
    Extensionality(Union(a, Complement(a)), AllReals);
    Extensionality(Intersection(a, Complement(a)), EmptySet);
  }

  /**
   * The text of SimpleSet.toString. `show` stands for the decimal rendering
   * of one float.
   */
  function Describe(s: SimpleSet, show: real -> string): (text: string) {
    var pts := s.points.points;
    if s.complement && |pts| == 0 then "R"
    else if |pts| == 0 then "{}"
    else (if s.complement then "R \\ " else "") + "{" + Join(pts, show) + "}"
  }

  /** The points, rendered by `show` and separated by ", ". */
  function Join(pts: seq<real>, show: real -> string): (text: string)
    requires |pts| > 0
  {
    if |pts| == 1 then show(pts[0])
    else Join(pts[..|pts| - 1], show) + ", " + show(pts[|pts| - 1])
  }

  /** SimpleSet.toString: builds the text by appending, one point at a time. */
  method ToString(s: SimpleSet, show: real -> string) returns (ans: string)
    ensures ans == Describe(s, show)
  {
    var pts := s.points.points;
    ans := "";
    if s.complement && |pts| == 0 {
      ans := "R";
    } else if |pts| == 0 {
      ans := "{}";
    } else {
      if s.complement {
        ans := ans + "R \\ ";
      }
      ans := ans + "{";
      ghost var prefix := ans;
      ans := ans + show(pts[0]);
      var i := 1;
      while i < |pts|
        invariant 1 <= i <= |pts|
        invariant ans == prefix + Join(pts[..i], show)
      {
        assert pts[..i + 1][..i] == pts[..i];
        ans := ans + ", " + show(pts[i]);
        i := i + 1;
      }
      assert pts[..i] == pts;
      ans := ans + "}";
    }
  }

  /**
   * The shape of the text: "R" exactly for the whole line, "{}" exactly for
   * the empty set, and otherwise a braced list prefixed by "R \ " exactly for
   * a complement. Assumes every rendered point is non-empty text.
   */
  lemma DescribeShape(s: SimpleSet, show: real -> string)
    requires forall x :: |show(x)| > 0
    ensures Describe(s, show) == "R" <==> s.complement && s.points.points == []
    ensures Describe(s, show) == "{}" <==> !s.complement && s.points.points == []
    ensures s.points.points != [] ==>
      var d := Describe(s, show);
      |d| > 2 && d[|d| - 1] == '}' &&
      (s.complement <==> |d| >= 4 && d[..4] == "R \\ ") &&
      (!s.complement <==> d[0] == '{')
  {
    var pts := s.points.points;
    if pts != [] {
      JoinNonEmpty(pts, show);
      var d := Describe(s, show);
      var body := "{" + Join(pts, show) + "}";
      if s.complement {
        assert d == "R \\ " + body;
        assert d[..4] == "R \\ ";
      } else {
        assert d == body && d[0] == '{';
        assert |d| >= 4 ==> d[..4][0] == '{';
      }
    }
  }

  lemma {:induction false} JoinNonEmpty(pts: seq<real>, show: real -> string)
    requires |pts| > 0
    requires forall x :: |show(x)| > 0
    ensures |Join(pts, show)| > 0
  {
    if |pts| == 1 {
      var p := pts[0];
      assert |show(p)| > 0;
    }
  }

  /** The textual forms of the full line and of the empty set. */
  lemma DescribeExamples(show: real -> string)
    ensures Describe(AllReals, show) == "R"
    ensures Describe(EmptySet, show) == "{}"
  {
  }

  /** The complement of {1, 2} prints with the "R \\ " prefix. */
  lemma DescribeComplementExample(show: real -> string)
    ensures Describe(Complement(FromPoints([1.0, 2.0])), show)
            == "R \\ {" + show(1.0) + ", " + show(2.0) + "}"
  {
    var s := FromPoints([1.0, 2.0]);
    assert s.points.points == [1.0, 2.0] by {
      FS.AscendingUnique(s.points.points, [1.0, 2.0]);
    }
    var pts := Complement(s).points.points;
    assert pts[..1] == [1.0];
    assert Join(pts, show) == show(1.0) + ", " + show(2.0);
  }
}
