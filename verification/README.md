# Finite / co-finite point sets and an int dequeue, in Dafny

This project models two independent pieces of a Java course repository.

**Sets of points on the real line** (`sets` package). A `FiniteSet` is an
immutable, canonical finite set of points. Its points are kept strictly
ascending, so each set has exactly one representation. A `SimpleSet` pairs a
`complement` flag with a `FiniteSet`. It denotes the points themselves, or
`R \ points` when the flag is set. `complement` only flips the flag.
`union`, `intersection` and `difference` each reduce, through a four-way case
table, to one finite-set operation plus a flag. The model proves that every
cell of those tables has its set-theoretic meaning. The meaning is `Contains(s, x) == ((x in points) != complement)`.
The Java source of `FiniteSet` is not part of this model. Its contract is the
one its glass-box tests pin down: `of` sorts its input, `getPoints`
returns the ascending list, `equals` is structural, `size` counts the points,
and `union`/`intersection`/`difference` return canonical results. In this
model, `Union`, `Intersection` and `Difference` are two-pointer merges
(`MergeUnion`, `MergeIntersection`, `MergeDifference`); how the Java class
computes them is not shown and not claimed. Callers of `of`
promise an input without duplicates, and no test passes any. The model's `Of`
absorbs duplicates all the same; that behaviour is this model's own choice. Every test assertion
is a lemma in `finite_set_test.dfy`.

Files:
- `finite_set.dfy`: module `FiniteSets`.
- `finite_set_test.dfy`: module `FiniteSetTests`.
- `simple_set.dfy`: module `SimpleSets`.
- `int_dequeue.dfy`: module `Dequeues`.

Points are `real`. A `real` stands for a Java `float` that is neither NaN nor
infinite. Both types are Dafny datatypes, which are immutable values. So no
operation can change its operands, and results share their points safely.

**`IntDequeue`** (`Lectures/IntDequeue.java`). This is a circular buffer of ints
that doubles its capacity when full. It is a Dafny class whose fields `vals`,
`start` and `len` are updated in place. `Valid()` is the representation
invariant that `checkRep` asserts. `Contents()` is the abstraction function
from the class comment: the window of `len` slots starting at `start`, wrapping
around the end of the array. Each method states its effect on `Contents()`.
`System.arraycopy` becomes the loop `ArrayCopy`.

## Model

| member | source | states |
|---|---|---|
| `FiniteSets.Elems` | Proj/hw-sets/src/test/java/sets/FiniteSetTest.java:13-25 | the set of reals a point list denotes: exactly the values that occur in it; every `FiniteSet` contract is stated through it |
| `FiniteSets.Valid` | Proj/hw-sets/src/test/java/sets/FiniteSetTest.java:13-25 | the canonical-form invariant: the points are strictly ascending, so sorted as `getPoints` returns them and free of duplicates |
| `FiniteSets.Of` | Proj/hw-sets/src/test/java/sets/FiniteSetTest.java:13-25 | the result is strictly ascending and holds exactly the input values |
| `FiniteSets.GetPoints` | Proj/hw-sets/src/test/java/sets/FiniteSetTest.java:13-25 | the returned list is ascending and holds exactly the set's points |
| `FiniteSets.AscendingCardinality` | Proj/hw-sets/src/test/java/sets/FiniteSetTest.java:48-54 | an ascending list has as many distinct points as elements |
| `FiniteSets.AscendingUnique` | Proj/hw-sets/src/test/java/sets/FiniteSetTest.java:64-73 | two ascending lists with the same points are identical: the representation is canonical |
| `FiniteSets.Extensionality` | Proj/hw-sets/src/test/java/sets/FiniteSetTest.java:32-46 | two valid finite sets are equal values iff they hold the same points |
| `FiniteSets.Size` | Proj/hw-sets/src/test/java/sets/FiniteSetTest.java:48-54 | size is the number of distinct points |
| `FiniteSets.Equals` | Proj/hw-sets/src/test/java/sets/FiniteSetTest.java:32-46 | equals holds iff the two sets hold the same points |
| `FiniteSets.Union` | Proj/hw-sets/src/test/java/sets/FiniteSetTest.java:64-73 | the result is canonical and holds exactly the points of either operand |
| `FiniteSets.Intersection` | Proj/hw-sets/src/test/java/sets/FiniteSetTest.java:75-83 | the result is canonical and holds exactly the points of both operands |
| `FiniteSets.Difference` | Proj/hw-sets/src/test/java/sets/FiniteSetTest.java:85-93 | the result is canonical and holds exactly the points of the first operand absent from the second |
| `FiniteSets.UnionWithEmpty` | Proj/hw-sets/src/test/java/sets/FiniteSetTest.java:67-69 | the empty set is an identity for union on both sides |
| `FiniteSets.UnionWithSuperset` | Proj/hw-sets/src/test/java/sets/FiniteSetTest.java:72 | a union with a superset is that superset, in either order |
| `FiniteSets.IntersectionWithEmpty` | Proj/hw-sets/src/test/java/sets/FiniteSetTest.java:78-79 | intersecting with the empty set gives the empty set, in either order |
| `FiniteSets.IntersectionOfDisjoint` | Proj/hw-sets/src/test/java/sets/FiniteSetTest.java:80 | disjoint sets intersect to the empty set |
| `FiniteSets.IntersectionWithSuperset` | Proj/hw-sets/src/test/java/sets/FiniteSetTest.java:82 | a subset intersected with its superset is the subset, in either order |
| `FiniteSets.DifferenceWithEmpty` | Proj/hw-sets/src/test/java/sets/FiniteSetTest.java:91-92 | A \ {} = A and {} \ A = {} |
| `FiniteSets.DifferenceFromSuperset` | Proj/hw-sets/src/test/java/sets/FiniteSetTest.java:88 | a subset minus its superset is empty |
| `FiniteSets.DifferenceOfDisjoint` | Proj/hw-sets/src/test/java/sets/FiniteSetTest.java:89 | removing disjoint points leaves the set unchanged |
| `FiniteSetTests.OfIs` | Proj/hw-sets/src/test/java/sets/FiniteSetTest.java:13-25 | `of` yields the unique ascending list of the input's values |
| `FiniteSetTests.TestCreation` | Proj/hw-sets/src/test/java/sets/FiniteSetTest.java:13-25 | read through getPoints: {} gives [], {1} gives [1], {1,2} and {2,1} give [1,2], {2,-2} gives [-2,2] |
| `FiniteSetTests.TestEquals` | Proj/hw-sets/src/test/java/sets/FiniteSetTest.java:32-46 | each of S0, S1, S12 equals itself and none of the others |
| `FiniteSetTests.TestSize` | Proj/hw-sets/src/test/java/sets/FiniteSetTest.java:48-54 | the sizes of S0, S1, S12 are 0, 1, 2 |
| `FiniteSetTests.S2Points` | Proj/hw-sets/src/test/java/sets/FiniteSetTest.java:59 | the fixture S2 holds the single point 2 |
| `FiniteSetTests.S23Points` | Proj/hw-sets/src/test/java/sets/FiniteSetTest.java:60 | the fixture S23 holds the points 2, 3 in ascending order |
| `FiniteSetTests.S34Points` | Proj/hw-sets/src/test/java/sets/FiniteSetTest.java:56 | the fixture S34 holds the points 3, 4 in ascending order |
| `FiniteSetTests.S123Points` | Proj/hw-sets/src/test/java/sets/FiniteSetTest.java:61 | the fixture S123 holds the points 1, 2, 3 in ascending order |
| `FiniteSetTests.S1234Points` | Proj/hw-sets/src/test/java/sets/FiniteSetTest.java:62 | the fixture S1234 holds the points 1, 2, 3, 4 in ascending order |
| `FiniteSetTests.UnionOfOverlapExample` | Proj/hw-sets/src/test/java/sets/FiniteSetTest.java:70 | {1, 2} united with {2, 3} equals {1, 2, 3}: the shared point appears once |
| `FiniteSetTests.UnionOfDisjointExample` | Proj/hw-sets/src/test/java/sets/FiniteSetTest.java:71 | {1, 2} united with {3, 4} equals {1, 2, 3, 4} |
| `FiniteSetTests.UnionWithSupersetExample` | Proj/hw-sets/src/test/java/sets/FiniteSetTest.java:72 | {1, 2, 3} united with {1, 2, 3, 4} equals {1, 2, 3, 4} |
| `FiniteSetTests.TestUnion` | Proj/hw-sets/src/test/java/sets/FiniteSetTest.java:64-73 | every union assertion of the test, as equality of canonical values |
| `FiniteSetTests.IntersectionOfDisjointExample` | Proj/hw-sets/src/test/java/sets/FiniteSetTest.java:80 | {1, 2} intersected with {3, 4} equals the empty set |
| `FiniteSetTests.IntersectionOfOverlapExample` | Proj/hw-sets/src/test/java/sets/FiniteSetTest.java:81 | {2, 3} intersected with {1, 2} equals {2} |
| `FiniteSetTests.IntersectionWithSupersetExample` | Proj/hw-sets/src/test/java/sets/FiniteSetTest.java:82 | {1, 2, 3} intersected with {1, 2, 3, 4} equals {1, 2, 3} |
| `FiniteSetTests.TestIntersection` | Proj/hw-sets/src/test/java/sets/FiniteSetTest.java:75-83 | every intersection assertion of the test |
| `FiniteSetTests.DifferenceOfSupersetExample` | Proj/hw-sets/src/test/java/sets/FiniteSetTest.java:88 | {1, 2} minus {1, 2, 3} equals the empty set |
| `FiniteSetTests.DifferenceOfDisjointExample` | Proj/hw-sets/src/test/java/sets/FiniteSetTest.java:89 | {1, 2} minus {3, 4} equals {1, 2} |
| `FiniteSetTests.DifferenceOfOverlapExample` | Proj/hw-sets/src/test/java/sets/FiniteSetTest.java:90 | {1, 2} minus {2, 3} equals {1} |
| `FiniteSetTests.TestDifference` | Proj/hw-sets/src/test/java/sets/FiniteSetTest.java:85-93 | every difference assertion of the test |
| `SimpleSets.Contains` | Proj/hw-sets/src/main/java/sets/SimpleSet.java:26-36 | the meaning of a set: x is in it iff x is a listed point, negated when the complement flag is set (this = R \ points if complement else points) |
| `SimpleSets.FromPoints` | Proj/hw-sets/src/main/java/sets/SimpleSet.java:16-24 | the public constructor builds a finite set holding exactly the given points |
| `SimpleSets.Extensionality` | Proj/hw-sets/src/main/java/sets/SimpleSet.java:5-14 | two valid sets are the same value iff they contain the same reals: one representation per finite or co-finite set |
| `SimpleSets.Equals` | Proj/hw-sets/src/main/java/sets/SimpleSet.java:38-46 | equals holds iff both denote the same set of reals, and iff the two values are identical |
| `SimpleSets.Size` | Proj/hw-sets/src/main/java/sets/SimpleSet.java:53-64 | infinite exactly when the complement flag is set; otherwise the number of distinct points |
| `SimpleSets.SizeInfiniteIffUnbounded` | Proj/hw-sets/src/main/java/sets/SimpleSet.java:53-64 | the size is infinite iff the set has points above every bound |
| `SimpleSets.Complement` | Proj/hw-sets/src/main/java/sets/SimpleSet.java:96-106 | same points; x is in the result iff x is not in the argument |
| `SimpleSets.ComplementInvolution` | Proj/hw-sets/src/main/java/sets/SimpleSet.java:100-106 | complementing twice gives a set equal to the original |
| `SimpleSets.Union` | Proj/hw-sets/src/main/java/sets/SimpleSet.java:108-124 | for all four flag combinations, x is in the result iff x is in either operand |
| `SimpleSets.Intersection` | Proj/hw-sets/src/main/java/sets/SimpleSet.java:126-142 | for all four flag combinations, x is in the result iff x is in both operands |
| `SimpleSets.Difference` | Proj/hw-sets/src/main/java/sets/SimpleSet.java:144-160 | for all four flag combinations, x is in the result iff x is in the first operand and not the second |
| `SimpleSets.Commutativity` | Proj/hw-sets/src/main/java/sets/SimpleSet.java:114-142 | union and intersection give the same value whichever operand comes first |
| `SimpleSets.DeMorgan` | Proj/hw-sets/src/main/java/sets/SimpleSet.java:114-142 | the complement of a union is the intersection of the complements, and dually |
| `SimpleSets.DifferenceIsIntersectionWithComplement` | Proj/hw-sets/src/main/java/sets/SimpleSet.java:150-160 | the difference table computes exactly A intersected with the complement of B |
| `SimpleSets.ComplementLaws` | Proj/hw-sets/src/main/java/sets/SimpleSet.java:54-142 | A with its complement is R, A meets its complement in {}; {} has size 0 and R is infinite |
| `SimpleSets.Describe` | Proj/hw-sets/src/main/java/sets/SimpleSet.java:66-74 | the text `toString` promises: "R" for the whole line, "{}" for the empty set, otherwise the points in ascending order, separated by ", ", in braces, prefixed by "R \ " for a complement |
| `SimpleSets.ToString` | Proj/hw-sets/src/main/java/sets/SimpleSet.java:75-94 | the loop that appends ", p" per point produces exactly the text `Describe` specifies |
| `SimpleSets.DescribeShape` | Proj/hw-sets/src/main/java/sets/SimpleSet.java:66-94 | "R" iff complement with no points; "{}" iff finite and empty; otherwise a braced list ending in "}" and prefixed by "R \ " iff complement |
| `SimpleSets.DescribeExamples` | Proj/hw-sets/src/main/java/sets/SimpleSet.java:75-81 | R prints "R" and {} prints "{}" |
| `SimpleSets.DescribeComplementExample` | Proj/hw-sets/src/main/java/sets/SimpleSet.java:75-94 | the complement of {1, 2} prints "R \ {1, 2}", points in ascending order |
| `Dequeues.Slot` | Lectures/IntDequeue.java:22-30 | the wrapped index used by get and set is (start + i) mod capacity and lies in the array |
| `Dequeues.Window` | Lectures/IntDequeue.java:6-9 | the abstraction function yields a sequence of exactly `len` elements |
| `Dequeues.WindowAt` | Lectures/IntDequeue.java:7-9 | element i of the abstract sequence is the array element at the wrapped index |
| `Dequeues.WindowExt` | Lectures/IntDequeue.java:7-9 | a sequence agreeing with the wrapped slots is the abstract sequence |
| `Dequeues.ArrayCopy` | Lectures/IntDequeue.java:91-95 | copies n elements from one array position to another and leaves the rest of the target unchanged |
| `Dequeues.IntDequeue.Valid` | Lectures/IntDequeue.java:6 | the representation invariant that `checkRep` asserts (lines 102-107): 0 <= start < capacity and 0 <= len <= capacity; the array is never null |
| `Dequeues.IntDequeue.Contents` | Lectures/IntDequeue.java:7-9 | the abstraction function: the `len` elements from `start`, wrapping past the end of the array to its beginning |
| `Dequeues.IntDequeue.constructor` | Lectures/IntDequeue.java:13-17 | creates an empty sequence over a fresh array of capacity 3 that satisfies the invariant |
| `Dequeues.IntDequeue.GetLength` | Lectures/IntDequeue.java:19-20 | returns the length of the abstract sequence |
| `Dequeues.IntDequeue.Get` | Lectures/IntDequeue.java:22-30 | for 0 <= index < length, returns element index of the abstract sequence |
| `Dequeues.IntDequeue.Set` | Lectures/IntDequeue.java:32-41 | replaces element index and leaves the other elements, the length and the invariant unchanged |
| `Dequeues.IntDequeue.Unshift` | Lectures/IntDequeue.java:43-51 | the new contents are [val] + old contents; the invariant holds |
| `Dequeues.IntDequeue.Shift` | Lectures/IntDequeue.java:53-63 | for a non-empty sequence, returns the old first element and leaves the old contents minus it |
| `Dequeues.IntDequeue.Push` | Lectures/IntDequeue.java:65-72 | the new contents are old contents + [val]; the invariant holds |
| `Dequeues.IntDequeue.Pop` | Lectures/IntDequeue.java:74-83 | for a non-empty sequence, returns the old last element and drops it |
| `Dequeues.IntDequeue.EnsureMoreSpace` | Lectures/IntDequeue.java:85-100 | contents and length unchanged, len < capacity afterwards; when full, a fresh array of max(1, 2 * capacity) with start 0, otherwise nothing changes |

## Left out

- `SimpleSet.hashCode`: it returns the object-identity hash. That has no meaning for a value and disagrees with `equals`.
- Floating point: points are reals. NaN and the infinities cannot occur, so the requirement that excludes them has nothing to model. No rounding is modelled.
- `SimpleSets.Size`: it returns a count or `Infinite`. It does not model the conversion of the count to a Java `float`, which rounds counts above 2^24.
- `SimpleSets.ToString`: the decimal text of one float (`Float.toString`) is the parameter `show`. `DescribeShape` assumes `show` never yields empty text.
- `FiniteSet`'s Java implementation is not part of this model. In this model, `Union`, `Intersection` and `Difference` are two-pointer merges (`MergeUnion`, `MergeIntersection`, `MergeDifference`); how the Java class computes them is not shown and not claimed. Only the contract its tests fix is claimed.
- `FiniteSets.Of`: callers of `FiniteSet.of` and of the `SimpleSet` constructor promise no duplicate points (SimpleSet.java:19), and no test passes any, so neither the source nor its tests fix what happens to duplicates. The model absorbs them; this is the model's own choice.
- The JUnit harness is left out. Each group of test assertions is one lemma.
- `checkRep` is not an executable check here. Its assertions are the invariant `Valid()` that every method requires and ensures.
- `Dequeues.ArrayCopy`: it requires distinct source and target arrays. That is the only way `ensureMoreSpace` uses `System.arraycopy`; overlapping copies are not modelled.
- `IntDequeue` fields are unbounded integers. The model does not capture the overflow of `2 * vals.length` or of `len` beyond the Java `int` range.
