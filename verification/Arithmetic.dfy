/** The facts about integer division and products that the money arithmetic rests on. */
module Arithmetic {
  lemma Division(x: nat, d: nat)
    requires d > 0
    ensures x == x / d * d + x % d && 0 <= x % d < d && 0 <= x / d
  {
  }

  lemma ProductGrows(a: int, b: int, c: nat)
    requires a <= b
    ensures a * c <= b * c
  {
  }

  lemma QuotientAtLeast(x: nat, d: nat, q: int)
    requires d > 0
    ensures q <= x / d <==> q * d <= x
  {
    Division(x, d);
    if q <= x / d {
      ProductGrows(q, x / d, d);
    } else {
      ProductGrows(x / d + 1, q, d);
    }
  }

  lemma FloorIsMonotone(x: nat, y: nat, d: nat)
    requires d > 0 && x <= y
    ensures x / d <= y / d
  {
    Division(x, d);
    QuotientAtLeast(y, d, x / d);
  }

  lemma FloorOfSum(x: nat, y: nat, d: nat)
    requires d > 0
    ensures x / d + y / d <= (x + y) / d <= x / d + y / d + 1
  {
    Division(x, d);
    Division(y, d);
    var q := x / d + y / d;
    QuotientAtLeast(x + y, d, q);
    QuotientAtLeast(x + y, d, q + 2);
  }

  lemma Positive(a: int, b: int)
    requires a > 0 && b > 0
    ensures a * b > 0
  {
  }

  lemma NonNegative(a: int, b: int)
    requires a >= 0 && b >= 0
    ensures a * b >= 0
  {
  }
}
