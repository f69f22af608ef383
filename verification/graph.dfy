/**
 The graph renderer (library/scrollphat/IS31FL3730.py, graph): one column per
 sample, scaled linearly between low and high to a level, and the level shown
 as a bar filled from the bottom row (bit 4) upwards.
 */
module GraphRenderer {
  import opened Bits
  import opened FrameBuffer
  import opened Wrappers

  /** Python's int() on a number: truncation toward zero. */
  function Truncate(v: real): (n: int)
    ensures v >= 0.0 ==> n >= 0 && n as real <= v < n as real + 1.0
    ensures v < 0.0 ==> n <= 0 && n as real - 1.0 < v <= n as real
  {
    if v >= 0.0 then v.Floor else -((-v).Floor)
  }

  /** A product with a negative factor is at most zero only if the other factor is at least zero. */
  lemma NegativeFactor(a: real, b: real)
    requires b < 0.0 && a * b <= 0.0
    ensures a >= 0.0
  {
  }

  /** A product with a non-zero factor is zero only if the other factor is. */
  lemma ZeroProduct(a: real, b: real)
    requires b != 0.0
    ensures a * b == 0.0 ==> a == 0.0
  {
  }

  /** The level of one sample: (value - low) / span * 5, truncated. */
  function Level(value: real, low: real, high: real): (level: int)
    requires high != low
    ensures value == low ==> level == 0
    ensures value == high ==> level == 5
  {
    var span := high - low;
    var q := (value - low) / span;
    assert q * span == value - low;
    ZeroProduct(q, span);
    assert value == high ==> (q - 1.0) * span == 0.0;
    ZeroProduct(q - 1.0, span);
    Truncate(q * 5.0)
  }

  /** The bar for a level, or-ing in a fuller mask at each threshold passed. */
  function Tier(level: int): (bits: Column)
    ensures level <= 1 ==> bits == 0
    ensures level == 2 ==> bits == 0x10
    ensures level == 3 ==> bits == 0x18
    ensures level == 4 ==> bits == 0x1C
    ensures level >= 5 ==> bits == 0x1F
  {
    var b0: bv8 := 0;
    var b1 := if level > 1 then b0 | 0x10 else b0;
    var b2 := if level > 2 then b1 | 0x18 else b1;
    var b3 := if level > 3 then b2 | 0x1C else b2;
    var b4 := if level > 4 then b3 | 0x1F else b3;
    var b5 := if level > 5 then b4 | 0x1F else b4;
    b5 as nat
  }

  /** The rows a bar lights: bottom row from level 2, then one more row per level up to 4, all five from 5. */
  lemma TierRows(n: int)
    ensures forall k :: TestBit(Tier(n), k) <==>
              (k == 4 && n >= 2) || (k == 3 && n >= 3) || (k == 2 && n >= 4) || (k <= 1 && n >= 5)
  {
    var t := Tier(n);
    LowBits(t);
    assert Pow2(5) == 32;
    forall k | k >= 5
      ensures !TestBit(t, k)
    {
      HighBitsClear(t, 5, k);
    }
  }

  /** A higher level never turns a row off, and every bar is filled from the bottom row up. */
  lemma TierMonotone(n: int, m: int)
    requires n <= m
    ensures forall k :: TestBit(Tier(n), k) ==> TestBit(Tier(m), k)
    ensures forall k :: 0 <= k < 4 && TestBit(Tier(n), k) ==> TestBit(Tier(n), k + 1)
  {
    TierRows(n);
    TierRows(m);
  }

  /** The smallest sample, found the way Python's min() scans. */
  function Min(values: seq<real>): (m: real)
    requires |values| > 0
    ensures m in values
    ensures forall i :: 0 <= i < |values| ==> m <= values[i]
  {
    if |values| == 1 then values[0]
    else
      var rest := Min(values[1..]);
      if values[0] <= rest then values[0] else rest
  }

  /** The largest sample, as Python's max(). */
  function Max(values: seq<real>): (m: real)
    requires |values| > 0
    ensures m in values
    ensures forall i :: 0 <= i < |values| ==> values[i] <= m
  {
    if |values| == 1 then values[0]
    else
      var rest := Max(values[1..]);
      if values[0] >= rest then values[0] else rest
  }

  /** low and high, defaulting to min(values) and max(values); an empty sequence cannot supply a default. */
  function Bounds(values: seq<real>, low: Option<real>, high: Option<real>): (r: Result<(real, real), Fault>)
    ensures r.Failure? <==> |values| == 0 && (low.None? || high.None?)
    ensures r.Failure? ==> r.error == ValueError
    ensures r.Success? ==> r.value.0 == if low.Some? then low.value else Min(values)
    ensures r.Success? ==> r.value.1 == if high.Some? then high.value else Max(values)
  {
    if low.None? && |values| == 0 then Failure(ValueError)
    else
      var lo := if low.Some? then low.value else Min(values);
      if high.None? && |values| == 0 then Failure(ValueError)
      else
        var hi := if high.Some? then high.value else Max(values);
        Success((lo, hi))
  }

  /**
   graph without its final update: the bars for all samples in columns
   0 .. |values| - 1. The first division by a zero span raises, before any
   column is written.
   */
  method Graph(buffer: seq<Column>, values: seq<real>, low: Option<real>, high: Option<real>)
    returns (r: Result<seq<Column>, Fault>)
    ensures Bounds(values, low, high).Failure? ==> r == Failure(ValueError)
    ensures Bounds(values, low, high).Success? ==>
              var (lo, hi) := Bounds(values, low, high).value;
              && (|values| > 0 && hi == lo <==> r.Failure?)
              && (r.Failure? ==> r.error == ZeroDivisionError)
    ensures r.Success? ==>
              && |r.value| == MaxInt(|buffer|, |values|)
              && (forall i :: |values| <= i < |buffer| ==> r.value[i] == buffer[i])
    ensures r.Success? && |values| > 0 ==>
              var (lo, hi) := Bounds(values, low, high).value;
              hi != lo && forall i :: 0 <= i < |values| ==> r.value[i] == Tier(Level(values[i], lo, hi))
  {
    var bounds := Bounds(values, low, high);
    if bounds.Failure? {
      return Failure(ValueError);
    }
    var (lo, hi) := bounds.value;
    if |values| > 0 && hi == lo {
      return Failure(ZeroDivisionError);
    }
    var cols := buffer;
    for col := 0 to |values|
      invariant |cols| == MaxInt(|buffer|, col)
      invariant forall i :: 0 <= i < col ==> cols[i] == Tier(Level(values[i], lo, hi))
      invariant forall i :: col <= i < |buffer| ==> cols[i] == buffer[i]
    {
      cols := SetCol(cols, col, Tier(Level(values[col], lo, hi)));
    }
    return Success(cols);
  }

  /**
   Samples between the two bounds land on levels 0 to 5, low itself on 0 and
   high on 5; the bounds may be given in either order.
   */
  lemma LevelRange(value: real, low: real, high: real)
    requires low != high
    requires low <= value <= high || high <= value <= low
    ensures 0 <= Level(value, low, high) <= 5
    ensures value == low ==> Level(value, low, high) == 0
    ensures value == high ==> Level(value, low, high) == 5
  {
    var span := high - low;
    var q := (value - low) / span;
    assert q * span == value - low;
    if low < high {
      assert 0.0 <= q <= 1.0;
    } else {
      assert (1.0 - q) * span == span - (value - low) <= 0.0;
      assert q * span <= 0.0;
      NegativeFactor(1.0 - q, span);
      NegativeFactor(q, span);
    }
    assert 0.0 <= q * 5.0 <= 5.0;
  }

  /** With a positive span a larger sample never gets a shorter bar. */
  lemma LevelMonotone(v: real, w: real, low: real, high: real)
    requires low < high
    requires v <= w
    ensures Level(v, low, high) <= Level(w, low, high)
    ensures forall k :: TestBit(Tier(Level(v, low, high)), k) ==> TestBit(Tier(Level(w, low, high)), k)
  {
    var span := high - low;
    var a, b := (v - low) / span * 5.0, (w - low) / span * 5.0;
    assert (w - low) / span - (v - low) / span == (w - v) / span;
    assert a <= b;
    TierMonotone(Level(v, low, high), Level(w, low, high));
  }

  /** Auto-scaled: the smallest sample's bar is empty and the largest sample's bar is full. */
  lemma AutoScaleExtremes(values: seq<real>)
    requires |values| > 0
    requires Min(values) < Max(values)
    ensures Tier(Level(Min(values), Min(values), Max(values))) == 0
    ensures Tier(Level(Max(values), Min(values), Max(values))) == 0x1F
  {
    LevelRange(Min(values), Min(values), Max(values));
    LevelRange(Max(values), Min(values), Max(values));
  }
}
