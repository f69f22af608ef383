/** Facts about Euclidean `%`, which agrees with Python's `%` for a positive modulus. */
module Arith {

  lemma MulAtLeast(n: int, k: int)
    requires n > 0 && k >= 1
    ensures n * k >= n
  {
    assert n * k == n * (k - 1) + n;
  }

  /** The remainder is the unique r in [0, n) with x == n * q + r. */
  lemma ModUnique(x: int, n: int, q: int, r: int)
    requires n > 0 && 0 <= r < n && x == n * q + r
    ensures x % n == r
  {
    var q', r' := x / n, x % n;
    assert n * (q - q') == r' - r;
    if q - q' >= 1 {
      MulAtLeast(n, q - q');
    } else if q' - q >= 1 {
      MulAtLeast(n, q' - q);
    }
  }

  lemma ModSmall(a: int, n: int)
    requires 0 <= a < n
    ensures a % n == a
  {
  }

  lemma ModOnce(a: int, n: int)
    requires n <= a < 2 * n
    ensures a % n == a - n
  {
  }

  /** Multiples of n add up to a multiple of n. */
  lemma ModZeroSum(x: int, y: int, n: int)
    requires n > 0 && x % n == 0 && y % n == 0
    ensures (x + y) % n == 0
  {
    assert x == n * (x / n);
    assert y == n * (y / n);
    assert x + y == n * (x / n + y / n) + 0;
    ModUnique(x + y, n, x / n + y / n, 0);
  }

  /** Two values in [0, n) that differ by a multiple of n are equal. */
  lemma SameResidue(a: int, b: int, n: int)
    requires 0 <= a < n && 0 <= b < n && (a - b) % n == 0
    ensures a == b
  {
    var q := (a - b) / n;
    assert a - b == n * q;
    if q >= 1 {
      MulAtLeast(n, q);
    } else if q <= -1 {
      MulAtLeast(n, -q);
    }
  }

  /**
   Moving by delta and then by -delta, reducing into [0, n) after each move,
   lands on x's own representative in [0, n).
   */
  lemma ResidueRoundTrip(x: int, delta: int, n: int, there: int, back: int)
    requires n > 0
    requires 0 <= there < n && (there - (x + delta)) % n == 0
    requires 0 <= back < n && (back - (there + -delta)) % n == 0
    ensures back == x % n
  {
    var home := x % n;
    ModZeroSum(back - (there + -delta), there - (x + delta), n);
    assert back - (there + -delta) + (there - (x + delta)) == back - x;
    ModUnique(x - home, n, x / n, 0);
    ModZeroSum(back - x, x - home, n);
    assert back - x + (x - home) == back - home;
    SameResidue(back, home, n);
  }
}
