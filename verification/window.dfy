/**
 The window compositor (library/scrollphat/IS31FL3730.py, first half of
 update): an eleven-column circular slice of the buffer starting at the
 offset, optionally reversed and bit-mirrored, followed by the 0xFF
 terminator the draw command expects.
 */
module Window {
  import opened FrameBuffer
  import opened Rotation
  import opened Arith

  const Width: nat := 11
  const Terminator: nat := 0xFF

  /** Python's normalisation of one slice bound against a sequence of length n. */
  function SliceBound(i: int, n: nat): (b: nat)
    ensures b <= n
    ensures 0 <= i <= n ==> b == i
  {
    if i < 0 then (if i + n < 0 then 0 else i + n)
    else if i > n then n
    else i
  }

  /** Python's `s[lo:hi]`, negative and out-of-range bounds included. */
  function Slice<T>(s: seq<T>, lo: int, hi: int): (r: seq<T>)
    ensures 0 <= lo <= hi <= |s| ==> r == s[lo..hi]
    ensures |r| <= |s|
  {
    var a := SliceBound(lo, |s|);
    var b := SliceBound(hi, |s|);
    if a < b then s[a..b] else []
  }

  /** Python's `list.reverse()`. */
  function Reverse<T>(s: seq<T>): (r: seq<T>)
    ensures |r| == |s|
    ensures forall i :: 0 <= i < |s| ==> r[i] == s[|s| - 1 - i]
  {
    if s == [] then [] else Reverse(s[1..]) + [s[0]]
  }

  /** Rotate5 applied to every column. */
  function MirrorAll(s: seq<Column>): (r: seq<Column>)
    ensures |r| == |s|
    ensures forall i :: 0 <= i < |s| ==> r[i] == Rotate5(s[i])
  {
    seq(|s|, i requires 0 <= i < |s| => Rotate5(s[i]))
  }

  /** The eleven visible columns, wrapping round to the start of the buffer. */
  function Visible(buffer: seq<Column>, offset: int): (w: seq<Column>)
    ensures |w| <= Width
  {
    if offset + Width <= |buffer| then
      Slice(buffer, offset, offset + Width)
    else
      var head := Slice(buffer, offset, |buffer|);
      head + Slice(buffer, 0, Width - |head|)
  }

  /** With at least eleven columns and the offset in range, column i of the window is buffer[(offset + i) mod length]. */
  lemma VisibleWraps(buffer: seq<Column>, offset: int)
    requires |buffer| >= Width && 0 <= offset < |buffer|
    ensures var w := Visible(buffer, offset);
            |w| == Width && forall i :: 0 <= i < Width ==> w[i] == buffer[(offset + i) % |buffer|]
  {
    var n := |buffer|;
    var w := Visible(buffer, offset);
    if offset + Width <= n {
      forall i | 0 <= i < Width
        ensures w[i] == buffer[(offset + i) % n]
      {
        ModSmall(offset + i, n);
      }
    } else {
      var head := buffer[offset..];
      assert Slice(buffer, offset, n) == head;
      assert Slice(buffer, 0, Width - |head|) == buffer[..Width - |head|];
      assert w == head + buffer[..Width - |head|];
      forall i | 0 <= i < Width
        ensures w[i] == buffer[(offset + i) % n]
      {
        if offset + i < n {
          ModSmall(offset + i, n);
        } else {
          ModOnce(offset + i, n);
        }
      }
    }
  }

  /** The draw frame update sends: the visible window, rotated if asked, then the terminator. */
  function Frame(buffer: seq<Column>, offset: int, rotate: bool): (frame: seq<Column>)
    ensures 1 <= |frame| <= Width + 1
    ensures frame[|frame| - 1] == Terminator
  {
    var w := Visible(buffer, offset);
    var shown := if rotate then MirrorAll(Reverse(w)) else w;
    shown + [Terminator]
  }

  /**
   With at least eleven columns and the offset inside the buffer, the frame is
   twelve bytes: column i is buffer[(offset + i) mod length], or with rotation
   the mirrored buffer[(offset + 10 - i) mod length], then 0xFF.
   */
  lemma FrameLayout(buffer: seq<Column>, offset: int, rotate: bool)
    requires |buffer| >= Width && 0 <= offset < |buffer|
    ensures var frame := Frame(buffer, offset, rotate);
            && |frame| == Width + 1
            && frame[Width] == Terminator
            && forall i :: 0 <= i < Width ==>
                 frame[i] == if rotate then Rotate5(buffer[(offset + Width - 1 - i) % |buffer|])
                             else buffer[(offset + i) % |buffer|]
  {
    VisibleWraps(buffer, offset);
  }

  /** The rotated frame, rotated back column by column, is the plain frame reversed. */
  lemma RotatedFrameUndoes(buffer: seq<Column>, offset: int)
    requires |buffer| >= Width && 0 <= offset < |buffer|
    requires forall i :: 0 <= i < |buffer| ==> buffer[i] < 32
    ensures var plain := Frame(buffer, offset, false);
            var turned := Frame(buffer, offset, true);
            forall i :: 0 <= i < Width ==> Rotate5(turned[i]) == plain[Width - 1 - i]
  {
    var plain := Frame(buffer, offset, false);
    var turned := Frame(buffer, offset, true);
    FrameLayout(buffer, offset, false);
    FrameLayout(buffer, offset, true);
    forall i | 0 <= i < Width
      ensures Rotate5(turned[i]) == plain[Width - 1 - i]
    {
      var j := (offset + Width - 1 - i) % |buffer|;
      Rotate5Involution(buffer[j]);
    }
  }

  /** One lit pixel in column 0 of a blank buffer shows in the first byte only. */
  lemma FrameOfSinglePixel()
    ensures Frame(Zeros(11)[0 := 1], 0, false) == [1, 0, 0, 0, 0, 0, 0, 0, 0, 0, 0, 0xFF]
  {
    var f := Frame(Zeros(11)[0 := 1], 0, false);
    FrameLayout(Zeros(11)[0 := 1], 0, false);
    assert |f| == 12;
    assert forall i :: 0 <= i < 12 ==> f[i] == [1, 0, 0, 0, 0, 0, 0, 0, 0, 0, 0, 0xFF][i];
  }

  /** A window that wraps round: offset 9 in an eleven-column buffer. */
  lemma FrameWraps()
    ensures Frame([5, 6, 7, 8, 9, 10, 11, 12, 13, 14, 15], 9, false)
            == [14, 15, 5, 6, 7, 8, 9, 10, 11, 12, 13, 0xFF]
  {
    var b: seq<Column> := [5, 6, 7, 8, 9, 10, 11, 12, 13, 14, 15];
    var f := Frame(b, 9, false);
    FrameLayout(b, 9, false);
    assert |f| == 12;
    assert forall i :: 0 <= i < 12 ==> f[i] == [14, 15, 5, 6, 7, 8, 9, 10, 11, 12, 13, 0xFF][i];
  }
}
