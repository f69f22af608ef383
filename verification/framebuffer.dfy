/**
 The growable column framebuffer (library/scrollphat/IS31FL3730.py, set_col
 and set_pixel). A column is a non-negative integer whose low five bits are
 the display rows, bit 0 the top row.
 */
module FrameBuffer {
  import opened Bits
  import opened Wrappers

  type Column = nat

  function MaxInt(a: int, b: int): int
  {
    if a < b then b else a
  }

  /** Python's `[0] * n`. */
  function Zeros(n: nat): (z: seq<Column>)
    ensures |z| == n
    ensures forall i :: 0 <= i < n ==> z[i] == 0
  {
    seq(n, _ => 0)
  }

  /**
   set_col: grow the buffer with zero columns up to and including index x,
   then store value at x.
   */
  function SetCol(buffer: seq<Column>, x: nat, value: Column): (r: seq<Column>)
    ensures |r| == MaxInt(|buffer|, x + 1)
    ensures r[x] == value
    ensures forall i :: 0 <= i < |buffer| && i != x ==> r[i] == buffer[i]
    ensures forall i :: |buffer| <= i < |r| && i != x ==> r[i] == 0
  {
    var grown := if |buffer| <= x then buffer + Zeros(x - |buffer| + 1) else buffer;
    grown[x := value]
  }

  /** A second set_col at the same index overrides the first. */
  lemma SetColLastWins(buffer: seq<Column>, x: nat, v: Column, w: Column)
    ensures SetCol(SetCol(buffer, x, v), x, w) == SetCol(buffer, x, w)
  {
  }

  /** set_col at two different indices commutes. */
  lemma SetColCommutes(buffer: seq<Column>, x: nat, v: Column, y: nat, w: Column)
    requires x != y
    ensures SetCol(SetCol(buffer, x, v), y, w) == SetCol(SetCol(buffer, y, w), x, v)
  {
    var a := SetCol(SetCol(buffer, x, v), y, w);
    var b := SetCol(SetCol(buffer, y, w), x, v);
    assert |a| == |b|;
    forall i | 0 <= i < |a|
      ensures a[i] == b[i]
    {
    }
  }

  /**
   set_pixel: set (value truthy) or clear bit y of column x. The buffer does
   not grow; an index past its end raises IndexError.
   */
  function SetPixel(buffer: seq<Column>, x: nat, y: nat, value: bool): (r: Result<seq<Column>, Fault>)
    ensures r.Failure? <==> x >= |buffer|
    ensures r.Failure? ==> r.error == IndexError
    ensures r.Success? ==>
              && |r.value| == |buffer|
              && (forall i :: 0 <= i < |buffer| && i != x ==> r.value[i] == buffer[i])
              && (forall k :: TestBit(r.value[x], k) <==> (if k == y then value else TestBit(buffer[x], k)))
  {
    if x >= |buffer| then Failure(IndexError)
    else if value then Success(buffer[x := SetBit(buffer[x], y)])
    else Success(buffer[x := ClearBit(buffer[x], y)])
  }

  /** Setting a pixel and then clearing it restores the buffer exactly when the pixel was off. */
  lemma SetPixelThenClear(buffer: seq<Column>, x: nat, y: nat)
    requires x < |buffer|
    ensures SetPixel(SetPixel(buffer, x, y, true).value, x, y, false) == Success(buffer)
            <==> !TestBit(buffer[x], y)
  {
    var once := SetPixel(buffer, x, y, true).value;
    SetThenClear(buffer[x], y);
    assert once[x] == SetBit(buffer[x], y);
    var twice := SetPixel(once, x, y, false).value;
    assert twice[x] == ClearBit(SetBit(buffer[x], y), y);
    if !TestBit(buffer[x], y) {
      assert twice == buffer;
    } else {
      assert twice[x] != buffer[x];
    }
  }

  /**
   Consecutive set_col calls writing cols[0], cols[1], ... at x, x + 1, ...;
   defined from the last column so that appending a column is one more set_col.
   */
  function WriteColumns(buffer: seq<Column>, x: nat, cols: seq<Column>): seq<Column>
  {
    if cols == [] then buffer
    else SetCol(WriteColumns(buffer, x, cols[..|cols| - 1]), x + |cols| - 1, cols[|cols| - 1])
  }

  /**
   What a run of set_col calls leaves behind: the columns land at x.., the
   columns below the old length and outside the run keep their values, and the
   zero fill covers every other newly added index.
   */
  lemma {:induction false} WriteColumnsSpec(buffer: seq<Column>, x: nat, cols: seq<Column>)
    ensures var r := WriteColumns(buffer, x, cols);
            && |r| == (if cols == [] then |buffer| else MaxInt(|buffer|, x + |cols|))
            && (forall k :: 0 <= k < |cols| ==> r[x + k] == cols[k])
            && (forall i :: 0 <= i < |buffer| && !(x <= i < x + |cols|) ==> r[i] == buffer[i])
            && (forall i :: |buffer| <= i < |r| && !(x <= i < x + |cols|) ==> r[i] == 0)
    decreases |cols|
  {
    if cols != [] {
      var init := cols[..|cols| - 1];
      WriteColumnsSpec(buffer, x, init);
      var r0 := WriteColumns(buffer, x, init);
      var r := WriteColumns(buffer, x, cols);
      assert r == SetCol(r0, x + |cols| - 1, cols[|cols| - 1]);
      forall k | 0 <= k < |cols|
        ensures r[x + k] == cols[k]
      {
        if k < |cols| - 1 {
          assert init[k] == cols[k];
        }
      }
    }
  }

  /** Writing a concatenation is writing its two halves one after the other. */
  lemma {:induction false} WriteColumnsAppend(buffer: seq<Column>, x: nat, a: seq<Column>, b: seq<Column>)
    ensures WriteColumns(buffer, x, a + b) == WriteColumns(WriteColumns(buffer, x, a), x + |a|, b)
    decreases |b|
  {
    if b != [] {
      var b0 := b[..|b| - 1];
      assert (a + b)[..|a + b| - 1] == a + b0;
      WriteColumnsAppend(buffer, x, a, b0);
    } else {
      assert a + b == a;
    }
  }
}
