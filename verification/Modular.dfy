/** Remainders by a positive modulus. */
module Modular {
  lemma ModUnique(x: int, q: int, r: int, m: int)
    requires m > 0 && 0 <= r < m && x == m * q + r
    ensures x % m == r && x / m == q
  {
    var k := x / m - q;
    assert x == m * (x / m) + x % m;
    assert m * k == r - x % m;
    assert k > 0 ==> m * k >= m;
    assert k < 0 ==> m * k <= -m;
  }

  lemma ModShift(x: int, k: int, m: int)
    requires m > 0
    ensures (x + k * m) % m == x % m
  {
    ModUnique(x + k * m, x / m + k, x % m, m);
  }

  /** Reducing first by twice the modulus makes no difference. */
  lemma ModHalf(x: int, m: int)
    requires m > 0
    ensures (x % (2 * m)) % m == x % m
  {
    var q := x / (2 * m);
    var y := x % (2 * m);
    assert x == 2 * m * q + y;
    ModUnique(x, 2 * q + y / m, y % m, m);
  }

  /** Between a number and the next one with the same remainder there is no other. */
  lemma ModGap(x: int, d: int, m: int)
    requires 0 < d < m
    ensures (x + d) % m != x % m
  {
    var q := x / m;
    var r := x % m;
    if r + d < m {
      ModUnique(x + d, q, r + d, m);
    } else {
      ModUnique(x + d, q + 1, r + d - m, m);
    }
  }

  /** A field of m values at weight d is unaffected by what stands above it. */
  lemma FieldBelow(high: int, low: int, d: int, m: int, k: int)
    requires d > 0 && m > 0
    ensures (d * m * k * high + low) / d % m == low / d % m
  {
    var x := d * m * k * high + low;
    assert x == d * (m * k * high + low / d) + low % d by {
      assert low == d * (low / d) + low % d;
      assert d * m * k * high == d * (m * k * high);
    }
    ModUnique(x, m * k * high + low / d, low % d, d);
    assert m * k * high + low / d == low / d + (k * high) * m;
    ModShift(low / d, k * high, m);
  }
}
