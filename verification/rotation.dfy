/**
 The 180-degree mounting compensation for one column: row bit k moves to row
 bit 4 - k (library/scrollphat/IS31FL3730.py, rotate5bits).
 */
module Rotation {
  import opened Bits

  /** rotate5bits: each of the five row bits is tested and its mirror is or-ed in. */
  function Rotate5(x: nat): (r: nat)
    ensures r < 32
  {
    (if TestBit(x, 4) then 1 else 0)
    + (if TestBit(x, 3) then 2 else 0)
    + (if TestBit(x, 2) then 4 else 0)
    + (if TestBit(x, 1) then 8 else 0)
    + (if TestBit(x, 0) then 16 else 0)
  }

  /** Bit k of the result is bit 4 - k of the input, and nothing above bit 4 is set. */
  lemma Rotate5Mirror(x: nat)
    ensures forall k :: 0 <= k < 5 ==> (TestBit(Rotate5(x), k) <==> TestBit(x, 4 - k))
    ensures forall k :: k >= 5 ==> !TestBit(Rotate5(x), k)
  {
    var r := Rotate5(x);
    LowBits(x);
    LowBits(r);
    assert Pow2(5) == 32;
    forall k | k >= 5
      ensures !TestBit(r, k)
    {
      HighBitsClear(r, 5, k);
    }
  }

  /** Only the low five bits of the input matter. */
  lemma Rotate5LowBitsOnly(x: nat)
    ensures Rotate5(x) == Rotate5(x % 32)
  {
    var q, m := x / 32, x % 32;
    DropHigh(q, m);
    LowBits(x);
    LowBits(m);
    EvenShift(8 * q, m / 2);
    EvenShift(4 * q, m / 4);
    EvenShift(2 * q, m / 8);
    EvenShift(q, m / 16);
    assert TestBit(x, 0) == TestBit(m, 0);
    assert TestBit(x, 1) == TestBit(m, 1);
    assert TestBit(x, 2) == TestBit(m, 2);
    assert TestBit(x, 3) == TestBit(m, 3);
    assert TestBit(x, 4) == TestBit(m, 4);
  }

  /** Halving 32q + m up to four times leaves the parity of the halved m unchanged. */
  lemma DropHigh(q: nat, m: nat)
    requires m < 32
    ensures (32 * q + m) / 16 == 2 * q + m / 16
    ensures (32 * q + m) / 8 == 4 * q + m / 8
    ensures (32 * q + m) / 4 == 8 * q + m / 4
    ensures (32 * q + m) / 2 == 16 * q + m / 2
  {
  }

  lemma EvenShift(k: nat, a: nat)
    ensures (2 * k + a) % 2 == a % 2
  {
  }

  /** Mirroring twice is the identity on five-bit values. */
  lemma Rotate5Involution(c: nat)
    requires c < 32
    ensures Rotate5(Rotate5(c)) == c
  {
    var r := Rotate5(c);
    Rotate5Mirror(c);
    Rotate5Mirror(r);
    forall k | 0 <= k < 5
      ensures TestBit(Rotate5(r), k) <==> TestBit(c, k)
    {
      assert TestBit(Rotate5(r), k) <==> TestBit(r, 4 - k);
      assert TestBit(r, 4 - k) <==> TestBit(c, 4 - (4 - k));
    }
    FiveBitsEqual(Rotate5(r), c);
  }
}
