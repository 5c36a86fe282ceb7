/** The integer an Amount is: sixty-four signed bits, wrapping silently, divided toward zero. */
module Int64 {
  const MIN: int := -0x8000_0000_0000_0000
  const MAX: int := 0x7FFF_FFFF_FFFF_FFFF
  const SPAN: int := 0x1_0000_0000_0000_0000

  predicate Fits(x: int) {
    MIN <= x <= MAX
  }

  /** What sixty-four bits keep of an exact result. */
  function Wrap(x: int): (r: int)
    ensures Fits(r)
    ensures Fits(x) <==> r == x
  {
    (x - MIN) % SPAN + MIN
  }

  /** Division that truncates toward zero, for a positive divisor. */
  function TruncDiv(a: int, b: int): int
    requires b > 0
  {
    if a >= 0 then a / b else -((-a) / b)
  }

  /** Adding whole spans leaves the remainder. */
  lemma ModShift(x: int, k: int)
    ensures (x + k * SPAN) % SPAN == x % SPAN
  {
    var q, r := x / SPAN, x % SPAN;
    assert x + k * SPAN == (q + k) * SPAN + r;
    var q2, r2 := (x + k * SPAN) / SPAN, (x + k * SPAN) % SPAN;
    assert (q + k - q2) * SPAN == r2 - r;
  }

  /** The remainder of a value that is some whole spans away from another is the other's. */
  lemma WrapIsPeriodic(x: int, k: int)
    ensures Wrap(x + k * SPAN) == Wrap(x)
  {
    ModShift(x - MIN, k);
    assert x + k * SPAN - MIN == x - MIN + k * SPAN;
  }

  /** How many spans wrapping took off. */
  function Turns(x: int): int {
    (x - MIN) / SPAN
  }

  lemma WrapTakesTurns(x: int)
    ensures x == Wrap(x) + Turns(x) * SPAN
  {
  }

  /** Wrapping on the way does not matter, in a sum or in a product: only the last wrap is seen. */
  lemma WrapOfWrap(x: int, y: int)
    ensures Wrap(Wrap(x) + y) == Wrap(x + y)
  {
    WrapTakesTurns(x);
    WrapIsPeriodic(Wrap(x) + y, Turns(x));
  }

  lemma WrapOfProduct(x: int, d: int)
    ensures Wrap(Wrap(x) * d) == Wrap(x * d)
  {
    var w, k := Wrap(x), Turns(x);
    WrapTakesTurns(x);
    assert (w + k * SPAN) * d == w * d + (k * d) * SPAN;
    WrapIsPeriodic(w * d, k * d);
  }

  /** A value some whole spans up. */
  function Up(x: int, k: int): int {
    x + k * SPAN
  }

  /** The same sixty-four bits: whole spans apart. */
  ghost predicate SameBits(x: int, y: int) {
    exists k: int {:trigger Up(y, k)} :: x == Up(y, k)
  }

  /** In range, they are what wrapping leaves. */
  lemma BitsInRange(x: int, y: int)
    requires SameBits(x, y) && Fits(x)
    ensures x == Wrap(y)
  {
    var k :| x == Up(y, k);
    WrapIsPeriodic(y, k);
  }

  /** A wrapped running total keeps the bits of the exact one, whether or not what is added wrapped. */
  lemma AddedBits(running: int, total: int, x: int)
    requires SameBits(running, total)
    ensures SameBits(Wrap(running + x), total + x) && SameBits(Wrap(running + Wrap(x)), total + x)
  {
    var k :| running == Up(total, k);
    WrapTakesTurns(running + x);
    WrapTakesTurns(x);
    WrapTakesTurns(running + Wrap(x));
    assert Wrap(running + x) == Up(total + x, k - Turns(running + x));
    assert Wrap(running + Wrap(x)) == Up(total + x, k - Turns(x) - Turns(running + Wrap(x)));
  }

  lemma SubtractedBits(running: int, total: int, x: int, y: int)
    requires SameBits(running, total) && SameBits(x, y)
    ensures SameBits(Wrap(running - x), total - y)
  {
    var k :| running == Up(total, k);
    var j :| x == Up(y, j);
    WrapTakesTurns(running - x);
    assert Wrap(running - x) == Up(total - y, k - j - Turns(running - x));
  }

  lemma SummedBits(running: int, total: int, x: int, y: int)
    requires SameBits(running, total) && SameBits(x, y)
    ensures SameBits(Wrap(running + x), total + y)
  {
    var k :| running == Up(total, k);
    var j :| x == Up(y, j);
    WrapTakesTurns(running + x);
    assert Wrap(running + x) == Up(total + y, k + j - Turns(running + x));
  }
}
