/** Integer facts used by the collision-cycle argument: Euclidean division
    bounds, multiples, and a gcd/lcm pair on positive periods. */
module Arith {

  /** Multiplying by a non-negative factor keeps an order. */
  lemma MulMonotone(a: int, b: int, c: int)
    requires a <= b && c >= 0
    ensures a * c <= b * c
  {
    assert b * c - a * c == (b - a) * c;
  }

  /** The quotient q = x / d is the unique q with q*d <= x < (q+1)*d. */
  lemma DivBounds(x: int, d: int)
    requires d > 0
    ensures (x / d) * d <= x < (x / d) * d + d
  {
  }

  /** Any k with k*d <= x lies at or below x / d. */
  lemma BelowQuotient(x: int, d: int, k: int)
    requires d > 0 && k * d <= x
    ensures k <= x / d
  {
    DivBounds(x, d);
    if k > x / d {
      MulMonotone(x / d + 1, k, d);
    }
  }

  /** Any k with x < k*d + d, i.e. x - d < k*d, lies at or above x / d. */
  lemma AboveQuotient(x: int, d: int, k: int)
    requires d > 0 && x < k * d + d
    ensures x / d <= k
  {
    DivBounds(x, d);
    if x / d > k {
      MulMonotone(k + 1, x / d, d);
    }
  }

  /** A multiple of d leaves no remainder and its quotient is the factor. */
  lemma MultipleMod(d: int, c: int)
    requires d > 0
    ensures (d * c) % d == 0 && (d * c) / d == c
  {
    var x := d * c;
    DivBounds(x, d);
    BelowQuotient(x, d, c);
    AboveQuotient(x, d, c);
  }

  /** Adding whole multiples of d does not change the remainder. */
  lemma ModShift(a: int, d: int, j: int)
    requires d > 0
    ensures (a + j * d) % d == a % d
  {
    var q, r := a / d, a % d;
    DivBounds(a, d);
    var x := a + j * d;
    assert x == (q + j) * d + r;
    BelowQuotient(x, d, q + j);
    AboveQuotient(x, d, q + j);
  }

  /** A value with no remainder is the divisor times its quotient. */
  lemma ModZero(x: int, d: int)
    requires d > 0 && x % d == 0
    ensures x == d * (x / d)
  {
  }

  /** A multiple of a multiple of d is a multiple of d. */
  lemma ModTransitive(x: int, y: int, d: int)
    requires y > 0 && d > 0 && x % y == 0 && y % d == 0
    ensures x % d == 0
  {
    ModZero(x, y);
    ModZero(y, d);
    assert x == d * ((y / d) * (x / y));
    MultipleMod(d, (y / d) * (x / y));
  }

  /** Greatest common divisor by Euclid's algorithm; it divides both arguments. */
  function Gcd(a: nat, b: nat): (g: nat)
    requires a > 0 || b > 0
    ensures g > 0 && a % g == 0 && b % g == 0
    decreases b
  {
    if b == 0 then
      MultipleMod(a, 1);
      MultipleMod(a, 0);
      a
    else
      var g := Gcd(b, a % b);
      ModZero(b, g);
      ModZero(a % b, g);
      assert a == g * ((a / b) * (b / g) + (a % b) / g) by {
        assert a == (a / b) * b + a % b;
      }
      MultipleMod(g, (a / b) * (b / g) + (a % b) / g);
      g
  }

  /** A positive common multiple of two positive periods: a / gcd(a, b) * b. */
  function Lcm(a: nat, b: nat): (l: nat)
    requires a > 0 && b > 0
    ensures l > 0 && l % a == 0 && l % b == 0
  {
    var g := Gcd(a, b);
    ModZero(a, g);
    ModZero(b, g);
    assert a / g > 0;
    assert (a / g) * b == a * (b / g) by {
      assert (a / g) * b == (a / g) * (g * (b / g));
      assert a * (b / g) == (g * (a / g)) * (b / g);
    }
    MultipleMod(b, a / g);
    MultipleMod(a, b / g);
    MulMonotone(1, a / g, b);
    (a / g) * b
  }
}
