/**
 * IntDequeue: a sequence of ints with efficient insertion and removal at
 * both ends, stored in a circular buffer that doubles when full.
 */
module Dequeues {

  /** The array slot holding element `i` of a window that begins at `start`. */
  function Slot(cap: nat, start: nat, i: nat): (k: nat)
    requires start < cap && i < cap
    ensures k < cap && k % cap == (start + i) % cap
  {
    if start + i < cap then start + i else start + i - cap
  }

  /**
   * The abstraction function: the `len` elements starting at `start`,
   * wrapping around the end of the buffer.
   */
  function Window(a: seq<int>, start: nat, len: nat): (w: seq<int>)
    requires start < |a| && len <= |a|
    ensures |w| == len
  {
    if start + len <= |a| then a[start..start + len]
    else a[start..] + a[..len - (|a| - start)]
  }

  /** Element `i` of the window is the element in its wrapped-around slot. */
  lemma WindowAt(a: seq<int>, start: nat, len: nat, i: nat)
    requires start < |a| && len <= |a| && i < len
    ensures Window(a, start, len)[i] == a[Slot(|a|, start, i)]
  {
    if start + len > |a| && start + i >= |a| {
      var w := Window(a, start, len);
      assert w[i] == a[..len - (|a| - start)][i - (|a| - start)];
    }
  }

  /** A sequence that agrees with the buffer slot by slot is the window. */
  lemma WindowExt(a: seq<int>, start: nat, len: nat, c: seq<int>)
    requires start < |a| && len <= |a| && |c| == len
    requires forall i :: 0 <= i < len ==> c[i] == a[Slot(|a|, start, i)]
    ensures Window(a, start, len) == c
  {
    forall i | 0 <= i < len ensures Window(a, start, len)[i] == c[i] {
      WindowAt(a, start, len, i);
    }
  }

  function Max(a: int, b: int): (m: int) {
    if a < b then b else a
  }

  /** System.arraycopy for two distinct arrays. */
  method ArrayCopy(src: array<int>, srcPos: nat, dst: array<int>, dstPos: nat, n: nat)
    requires src != dst
    requires srcPos + n <= src.Length && dstPos + n <= dst.Length
    modifies dst
    ensures dst[dstPos..dstPos + n] == src[srcPos..srcPos + n]
    ensures dst[..dstPos] == old(dst[..dstPos])
    ensures dst[dstPos + n..] == old(dst[dstPos + n..])
  {
    var k := 0;
    while k < n
      invariant 0 <= k <= n
      invariant forall j :: dstPos <= j < dstPos + k ==> dst[j] == src[srcPos + j - dstPos]
      invariant forall j :: 0 <= j < dst.Length && !(dstPos <= j < dstPos + k) ==> dst[j] == old(dst[j])
    {
      dst[dstPos + k] := src[srcPos + k];
      k := k + 1;
    }
  }

  class IntDequeue {
    var vals: array<int>
    var start: nat
    var len: nat

    /** The representation invariant of checkRep. */
    ghost predicate Valid()
      reads this
    {
      start < vals.Length && len <= vals.Length
    }

    /** The abstract sequence this dequeue holds. */
    ghost function Contents(): seq<int>
      reads this, vals
      requires Valid()
    {
      Window(vals[..], start, len)
    }

    /** Creates an empty sequence, with room for three elements. */
    constructor ()
      ensures Valid() && Contents() == []
      ensures fresh(vals) && vals.Length == 3
    {
      vals := new int[3];
      start, len := 0, 0;
    }

    /** The length of the sequence. */
    method GetLength() returns (n: int)
      requires Valid()
      ensures n == |Contents()|
    {
      n := len;
    }

    /** Element `index` of the sequence. */
    method Get(index: int) returns (v: int)
      requires Valid() && 0 <= index < |Contents()|
      ensures v == Contents()[index]
    {
      WindowAt(vals[..], start, len, index);
      if start + index < vals.Length {
        v := vals[start + index];
      } else {
        v := vals[start + index - vals.Length];
      }
    }

    /** Replaces element `index` of the sequence by `val`. */
    method Set(index: int, val: int)
      requires Valid() && 0 <= index < |Contents()|
      modifies vals
      ensures Valid() && vals == old(vals)
      ensures Contents() == old(Contents())[index := val]
    {
      ghost var c := Contents();
      WindowAt(vals[..], start, len, index);
      var k := if start + index < vals.Length then start + index else start + index - vals.Length;
      vals[k] := val;
      forall i | 0 <= i < len ensures c[index := val][i] == vals[Slot(vals.Length, start, i)] {
        WindowAt(old(vals[..]), start, len, i);
      }
      WindowExt(vals[..], start, len, c[index := val]);
    }

    /** Inserts `val` at the beginning of the sequence. */
    method Unshift(val: int)
      requires Valid()
      modifies this, vals
      ensures Valid() && (vals == old(vals) || fresh(vals))
      ensures Contents() == [val] + old(Contents())
    {
      EnsureMoreSpace();
      ghost var c := Contents();
      ghost var a := vals[..];
      ghost var s := start;
      start := if start > 0 then start - 1 else vals.Length - 1;
      len := len + 1;
      vals[start] := val;
      forall i | 0 <= i < len ensures ([val] + c)[i] == vals[Slot(vals.Length, start, i)] {
        if i > 0 {
          WindowAt(a, s, len - 1, i - 1);
          assert Slot(vals.Length, start, i) == Slot(vals.Length, s, i - 1);
        }
      }
      WindowExt(vals[..], start, len, [val] + c);
    }

    /** Removes and returns the first element of the sequence. */
    method Shift() returns (val: int)
      requires Valid() && |Contents()| > 0
      modifies this
      ensures Valid() && vals == old(vals)
      ensures val == old(Contents())[0]
      ensures Contents() == old(Contents())[1..]
    {
      ghost var c := Contents();
      ghost var s := start;
      val := Get(0);
      start := if start + 1 == vals.Length then 0 else start + 1;
      len := len - 1;
      forall i | 0 <= i < len ensures c[1..][i] == vals[Slot(vals.Length, start, i)] {
        WindowAt(vals[..], s, len + 1, i + 1);
      }
      WindowExt(vals[..], start, len, c[1..]);
    }

    /** Inserts `val` at the end of the sequence. */
    method Push(val: int)
      requires Valid()
      modifies this, vals
      ensures Valid() && (vals == old(vals) || fresh(vals))
      ensures Contents() == old(Contents()) + [val]
    {
      EnsureMoreSpace();
      ghost var c := Contents();
      len := len + 1;
      forall i | 0 <= i < len - 1 ensures Contents()[i] == c[i] {
        WindowAt(vals[..], start, len, i);
        WindowAt(vals[..], start, len - 1, i);
      }
      assert Contents() == c + [Contents()[len - 1]];
      Set(len - 1, val);
    }

    /** Removes and returns the last element of the sequence. */
    method Pop() returns (val: int)
      requires Valid() && |Contents()| > 0
      modifies this
      ensures Valid() && vals == old(vals)
      ensures val == old(Contents())[|old(Contents())| - 1]
      ensures Contents() == old(Contents())[..|old(Contents())| - 1]
    {
      ghost var c := Contents();
      val := Get(len - 1);
      len := len - 1;
      forall i | 0 <= i < len ensures c[..len][i] == vals[Slot(vals.Length, start, i)] {
        WindowAt(vals[..], start, len + 1, i);
      }
      WindowExt(vals[..], start, len, c[..len]);
    }

    /**
     * Makes room for one more element without changing the sequence: a full
     * buffer is copied, unwrapped, into one of twice the capacity.
     */
    method EnsureMoreSpace()
      requires Valid()
      modifies this
      ensures Valid() && len == old(len) && len < vals.Length
      ensures Contents() == old(Contents())
      ensures old(len) < old(vals.Length) ==> vals == old(vals) && start == old(start)
      ensures old(len) == old(vals.Length) ==>
        fresh(vals) && vals.Length == Max(1, 2 * old(vals.Length)) && start == 0
    {
      if len == vals.Length {
        ghost var c := Contents();
        var newVals := new int[Max(1, 2 * vals.Length)];
        if start + len <= vals.Length {
          ArrayCopy(vals, start, newVals, 0, len);
          assert newVals[..len] == c;
        } else {
          ArrayCopy(vals, start, newVals, 0, vals.Length - start);
          ArrayCopy(vals, 0, newVals, vals.Length - start, len - (vals.Length - start));
          assert newVals[..len] == newVals[0..vals.Length - start] + newVals[vals.Length - start..len];
          assert newVals[..len] == c;
        }
        start := 0;
        vals := newVals;
        assert vals[..][0..len] == vals[..len];
      }
    }
  }

  /**
   * What a caller can rely on from the contracts alone: four pushes outgrow
   * the initial capacity of three, and both ends still behave.
   */
  method UsageExample() returns (first: int, last: int)
    ensures first == 0 && last == 4
  {
    var d := new IntDequeue();
    d.Push(1);
    d.Push(2);
    d.Push(3);
    assert d.Contents() == [1, 2, 3];
    d.Push(4);
    d.Unshift(0);
    assert d.Contents() == [0, 1, 2, 3, 4];
    first := d.Shift();
    assert d.Contents() == [1, 2, 3, 4];
    last := d.Pop();
    assert d.Contents() == [1, 2, 3];
    var n := d.GetLength();
    assert n == 3;
  }
}
