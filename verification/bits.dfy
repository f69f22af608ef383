/**
 Bit-level view of the non-negative integers that the display driver keeps in
 its column buffer. Python's `x & (1 << k)`, `x | (1 << k)` and
 `x & ~(1 << k)` are modelled arithmetically: a bit is read by halving, and
 setting or clearing a bit adds or subtracts its power of two.
 */
module Bits {

  /** 2 to the power k, i.e. Python's `1 << k`. */
  function Pow2(k: nat): (p: nat)
    ensures p >= 1
  {
    if k == 0 then 1 else 2 * Pow2(k - 1)
  }

  /** True iff bit k of x is set, i.e. Python's `x & (1 << k) != 0` for x >= 0. */
  predicate TestBit(x: nat, k: nat)
  {
    if k == 0 then x % 2 == 1 else TestBit(x / 2, k - 1)
  }

  /** The low five bits, read without recursion. */
  lemma LowBits(x: nat)
    ensures TestBit(x, 0) <==> x % 2 == 1
    ensures TestBit(x, 1) <==> (x / 2) % 2 == 1
    ensures TestBit(x, 2) <==> (x / 4) % 2 == 1
    ensures TestBit(x, 3) <==> (x / 8) % 2 == 1
    ensures TestBit(x, 4) <==> (x / 16) % 2 == 1
  {
    var x1, x2, x3, x4 := x / 2, x / 2 / 2, x / 2 / 2 / 2, x / 2 / 2 / 2 / 2;
    assert TestBit(x, 1) == TestBit(x1, 0);
    assert TestBit(x, 2) == TestBit(x1, 1) == TestBit(x2, 0);
    assert TestBit(x, 3) == TestBit(x1, 2) == TestBit(x2, 1) == TestBit(x3, 0);
    assert TestBit(x, 4) == TestBit(x1, 3) == TestBit(x2, 2) == TestBit(x3, 1) == TestBit(x4, 0);
    assert x2 == x / 4 && x3 == x / 8 && x4 == x / 16;
  }

  /** A value below 32 is the sum of its five bits, each times its power of two. */
  lemma FiveBitSum(a: nat)
    requires a < 32
    ensures a == a % 2 + 2 * ((a / 2) % 2) + 4 * ((a / 4) % 2) + 8 * ((a / 8) % 2) + 16 * ((a / 16) % 2)
  {
    var a1, a2, a3 := a / 2, a / 4, a / 8;
    assert a == 2 * a1 + a % 2;
    assert a1 == 2 * a2 + a1 % 2;
    assert a2 == 2 * a3 + a2 % 2;
    assert a3 == 2 * (a / 16) + a3 % 2;
  }

  /** Two values below 32 that agree on their low five bits are equal. */
  lemma FiveBitsEqual(a: nat, b: nat)
    requires a < 32 && b < 32
    requires forall k :: 0 <= k < 5 ==> (TestBit(a, k) <==> TestBit(b, k))
    ensures a == b
  {
    LowBits(a);
    LowBits(b);
    FiveBitSum(a);
    FiveBitSum(b);
    assert TestBit(a, 0) == TestBit(b, 0) && TestBit(a, 1) == TestBit(b, 1);
    assert TestBit(a, 2) == TestBit(b, 2) && TestBit(a, 3) == TestBit(b, 3);
    assert TestBit(a, 4) == TestBit(b, 4);
  }

  /** A value below 2^k has no bit set at position k or above. */
  lemma {:induction false} HighBitsClear(x: nat, k: nat, j: nat)
    requires x < Pow2(k)
    requires j >= k
    ensures !TestBit(x, j)
    decreases k
  {
    if k == 0 {
      assert x == 0;
      ZeroHasNoBits(j);
    } else if j == 0 {
      // k <= j forces k == 0
    } else {
      HighBitsClear(x / 2, k - 1, j - 1);
    }
  }

  lemma {:induction false} ZeroHasNoBits(j: nat)
    ensures !TestBit(0, j)
  {
    if j > 0 {
      ZeroHasNoBits(j - 1);
    }
  }

  /** Adding 2^k to a value whose bit k is clear sets exactly that bit. */
  lemma {:induction false} AddBit(x: nat, k: nat)
    requires !TestBit(x, k)
    ensures forall j :: TestBit(x + Pow2(k), j) <==> (j == k || TestBit(x, j))
  {
    if k == 0 {
      forall j | j > 0
        ensures TestBit(x + 1, j) <==> TestBit(x, j)
      {
        assert (x + 1) / 2 == x / 2;
      }
    } else {
      var p := Pow2(k - 1);
      AddBit(x / 2, k - 1);
      assert (x + Pow2(k)) / 2 == x / 2 + p;
      forall j | j > 0
        ensures TestBit(x + Pow2(k), j) <==> (j == k || TestBit(x, j))
      {
        assert TestBit(x + Pow2(k), j) == TestBit(x / 2 + p, j - 1);
      }
    }
  }

  /** Subtracting 2^k from a value whose bit k is set clears exactly that bit. */
  lemma {:induction false} RemoveBit(x: nat, k: nat)
    requires TestBit(x, k)
    ensures x >= Pow2(k)
    ensures forall j :: TestBit(x - Pow2(k), j) <==> (j != k && TestBit(x, j))
  {
    if k == 0 {
      forall j | j > 0
        ensures TestBit(x - 1, j) <==> TestBit(x, j)
      {
        assert (x - 1) / 2 == x / 2;
      }
    } else {
      var p := Pow2(k - 1);
      RemoveBit(x / 2, k - 1);
      assert (x - Pow2(k)) / 2 == x / 2 - p;
      forall j | j > 0
        ensures TestBit(x - Pow2(k), j) <==> (j != k && TestBit(x, j))
      {
        assert TestBit(x - Pow2(k), j) == TestBit(x / 2 - p, j - 1);
      }
    }
  }

  /** Python's `x | (1 << k)`. */
  function SetBit(x: nat, k: nat): (r: nat)
    ensures forall j :: TestBit(r, j) <==> (j == k || TestBit(x, j))
  {
    if TestBit(x, k) then x else AddBit(x, k); x + Pow2(k)
  }

  /** Python's `x & ~(1 << k)`. */
  function ClearBit(x: nat, k: nat): (r: nat)
    ensures forall j :: TestBit(r, j) <==> (j != k && TestBit(x, j))
  {
    if TestBit(x, k) then RemoveBit(x, k); x - Pow2(k) else x
  }

  /** Setting bit k and then clearing it gives x back exactly when bit k of x was clear. */
  lemma SetThenClear(x: nat, k: nat)
    ensures ClearBit(SetBit(x, k), k) == x <==> !TestBit(x, k)
  {
    if !TestBit(x, k) {
      assert SetBit(x, k) == x + Pow2(k);
      assert TestBit(x + Pow2(k), k);
    } else {
      assert SetBit(x, k) == x;
      assert ClearBit(x, k) == x - Pow2(k);
    }
  }
}
