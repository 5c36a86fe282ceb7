/** Rounding an exact fraction half away from zero (roundRat of credit.go). */
module Rounding {
  import opened Int64
  import opened Arithmetic

  /** Truncated quotient, moved one away from zero when the remainder is at least half. */
  function RoundRat(num: int, den: int): int
    requires den > 0
  {
    var q := TruncDiv(num, den);
    var m := num - q * den;
    if 2 * (if m < 0 then -m else m) >= den then (if num < 0 then q - 1 else q + 1) else q
  }

  /** It is the nearest whole number, and a tie goes away from zero. */
  lemma Nearest(num: int, den: int)
    requires den > 0
    ensures -den <= 2 * (RoundRat(num, den) * den - num) <= den
    ensures 2 * (RoundRat(num, den) * den - num) == den ==> num >= 0
    ensures 2 * (RoundRat(num, den) * den - num) == -den ==> num < 0
    ensures num >= 0 ==> RoundRat(num, den) >= 0
    ensures num <= 0 ==> RoundRat(num, den) <= 0
  {
    if num >= 0 {
      Division(num, den);
      assert (num / den + 1) * den == num / den * den + den;
    } else {
      Division(-num, den);
      var p := (-num) / den;
      assert (-p) * den == -(p * den) && (-p - 1) * den == -(p * den) - den;
    }
  }

  /** Only the nearest number is that near. */
  lemma NearestIsUnique(num: int, den: int, r: int)
    requires den > 0 && -den < 2 * (r * den - num) < den
    ensures RoundRat(num, den) == r
  {
    Nearest(num, den);
    NoTwoAreNear(RoundRat(num, den), r, num, den);
  }

  lemma NoTwoAreNear(q: int, r: int, num: int, den: int)
    requires den > 0 && -den <= 2 * (q * den - num) <= den && -den < 2 * (r * den - num) < den
    ensures q == r
  {
    var d := q - r;
    assert q * den - r * den == d * den;
    if d >= 1 {
      ProductGrows(1, d, den);
    } else if d <= -1 {
      ProductGrows(d, -1, den);
    }
  }

  lemma WholeIsKept(n: int, den: int)
    requires den > 0
    ensures RoundRat(n * den, den) == n
  {
    NearestIsUnique(n * den, den, n);
  }

  /** A larger fraction is never rounded to a smaller number. */
  lemma RoundingIsMonotone(a: nat, b: int, c: nat, d: int)
    requires b > 0 && d > 0 && a * d <= c * b
    ensures RoundRat(a, b) <= RoundRat(c, d)
  {
    Nearest(a, b);
    Nearest(c, d);
    Crossed(RoundRat(a, b), RoundRat(c, d), a, b, c, d);
  }

  /** Rounding is of the fraction and not of how it is written. */
  lemma SameFractionSameRounding(a: nat, b: int, c: nat, d: int)
    requires b > 0 && d > 0 && a * d == c * b
    ensures RoundRat(a, b) == RoundRat(c, d)
  {
    RoundingIsMonotone(a, b, c, d);
    RoundingIsMonotone(c, d, a, b);
  }

  /** p is at most half over a/b and q less than half under c/d, so p cannot pass q. */
  lemma Crossed(p: int, q: int, a: int, b: int, c: int, d: int)
    requires b > 0 && d > 0 && a * d <= c * b
    requires 2 * (p * b - a) <= b && 2 * (q * d - c) > -d
    ensures p <= q
  {
    var k := b * d;
    LeftOver(p, a, b, d);
    RightOver(q, c, b, d);
    assert 2 * (p * k) < 2 * (q * k) + 2 * k;
    assert (q + 1) * k == q * k + k;
    Positive(b, d);
    if q < p {
      ProductGrows(q + 1, p, k);
    }
  }

  lemma LeftOver(p: int, a: int, b: int, d: int)
    requires d > 0 && 2 * (p * b - a) <= b
    ensures 2 * (p * (b * d)) <= 2 * (a * d) + b * d
  {
    ProductGrows(2 * (p * b - a), b, d);
    assert 2 * (p * b - a) * d == 2 * (p * (b * d)) - 2 * (a * d);
  }

  lemma RightOver(q: int, c: int, b: int, d: int)
    requires b > 0 && 2 * (q * d - c) > -d
    ensures 2 * (q * (b * d)) > 2 * (c * b) - b * d
  {
    Positive(2 * (q * d - c) + d, b);
    assert (2 * (q * d - c) + d) * b == 2 * (q * (b * d)) - 2 * (c * b) + b * d;
  }
}
