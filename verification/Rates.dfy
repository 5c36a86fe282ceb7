/** Exchange at an exact fraction, with the part no minor unit can carry recorded (rate.go). */
module Rates {
  import opened Int64
  import opened Outcome
  import opened Amounts
  import opened Arithmetic

  const MAX_RATE_DENOMINATOR := 1_000_000_000

  datatype Rate = Rate(from: string, to: string, numerator: int, denominator: int, quoted: bool) {
    function Validate(): (r: Option<Error>)
    {
      if from == "" || to == "" then Some(RatePair)
      else if numerator <= 0 || denominator <= 0 then Some(RateNotPositive)
      else if denominator > MAX_RATE_DENOMINATOR then Some(RateDenominator)
      else if !quoted then Some(RateNotQuoted)
      else None
    }

    /** The same rate the other way round. */
    function Reciprocal(): Rate {
      Rate(to, from, denominator, numerator, quoted)
    }
  }

  datatype Converted = Converted(money: Money, remainderNumerator: int, remainderDenominator: int)

  /** The amount through the numerator, at the target's scale. */
  function Numerator(rate: Rate, amount: nat, toPlaces: nat): (r: nat)
    requires rate.numerator > 0
  {
    NonNegative(amount, rate.numerator);
    NonNegative(amount * rate.numerator, PowerOfTen(toPlaces));
    amount * rate.numerator * PowerOfTen(toPlaces)
  }

  /** What the leftover is a fraction of: one minor unit of the target. */
  function Denominator(rate: Rate, fromPlaces: nat): (r: nat)
    requires rate.denominator > 0
    ensures r > 0
  {
    Positive(rate.denominator, PowerOfTen(fromPlaces));
    rate.denominator * PowerOfTen(fromPlaces)
  }

  /** What an amount is worth, before it is known to be a whole minor unit that fits. */
  function Worth(rate: Rate, amount: nat, fromPlaces: nat, toPlaces: nat): nat
    requires rate.numerator > 0 && rate.denominator > 0
  {
    Numerator(rate, amount, toPlaces) / Denominator(rate, fromPlaces)
  }

  function Convert(rate: Rate, from: Money, to: string, toPlaces: int): (r: Result<Converted>)
    requires Fits(from.amount) && Fits(rate.numerator) && Fits(rate.denominator)
  {
    var invalid := rate.Validate();
    if invalid.Some? then Err(invalid.value)
    else if rate.from != from.currency || rate.to != to then Err(RatePair)
    else if !ValidDecimalPlaces(from.decimalPlaces) || !ValidDecimalPlaces(toPlaces) then Err(DecimalPlaces)
    else if from.amount <= 0 then Err(AmountNotPositive)
    else
      var numerator := Numerator(rate, from.amount, toPlaces);
      var denominator := Denominator(rate, from.decimalPlaces);
      if !Fits(denominator) then Err(RateDenominator)
      else
        var arrived, remainder := numerator / denominator, numerator % denominator;
        if !Fits(arrived) then Err(AmountOverflow)
        else if arrived <= 0 then Err(ConversionUnderflow)
        else Ok(Converted(Money(arrived, to, toPlaces), remainder, denominator))
  }

  lemma {:induction false} PowerOfTenGrows(m: nat, n: nat)
    requires m <= n
    ensures PowerOfTen(m) <= PowerOfTen(n)
  {
    if m < n {
      PowerOfTenGrows(m, n - 1);
    }
  }

  /** The bounds on the scale and on the denominator are what keep the recorded denominator in
      range: the check that it fits never refuses a rate that validated. */
  lemma ScaledDenominatorFits(rate: Rate, places: int)
    requires rate.Validate().None? && ValidDecimalPlaces(places)
    ensures Fits(Denominator(rate, places))
  {
    PowerOfTenGrows(places, 9);
    assert PowerOfTen(9) == 1_000_000_000;
    ProductGrows(rate.denominator, 1_000_000_000, PowerOfTen(places));
  }

  /** What arrived, times the denominator, plus the remainder, is exactly what left times the
      numerator; and a conversion is refused only for arriving as nothing or past the range. */
  lemma NothingIsLost(rate: Rate, from: Money, to: string, toPlaces: int)
    requires Fits(from.amount) && Fits(rate.numerator) && rate.Validate().None?
    requires rate.from == from.currency && rate.to == to
    requires ValidDecimalPlaces(from.decimalPlaces) && ValidDecimalPlaces(toPlaces) && from.amount > 0
    ensures var r, worth := Convert(rate, from, to, toPlaces), Worth(rate, from.amount, from.decimalPlaces, toPlaces);
            && (r.Ok? <==> 1 <= worth <= MAX)
            && (r.Err? ==> r.error == if worth == 0 then ConversionUnderflow else AmountOverflow)
            && (r.Ok? ==>
                  && r.value.money == Money(worth, to, toPlaces)
                  && r.value.money.amount * r.value.remainderDenominator + r.value.remainderNumerator
                     == Numerator(rate, from.amount, toPlaces)
                  && 0 <= r.value.remainderNumerator < r.value.remainderDenominator
                  && r.value.remainderDenominator == Denominator(rate, from.decimalPlaces)
                  && Fits(r.value.remainderDenominator))
  {
    ScaledDenominatorFits(rate, from.decimalPlaces);
    Division(Numerator(rate, from.amount, toPlaces), Denominator(rate, from.decimalPlaces));
  }

  /** Which conversions pass: at a rate that names its pair and a quote, whose denominator is within the
      bound, between scales that are, of an amount that delivers at least one unit and fits. */
  lemma ConversionPasses(rate: Rate, from: Money, to: string, toPlaces: int)
    requires Fits(from.amount) && Fits(rate.numerator) && Fits(rate.denominator)
    ensures Convert(rate, from, to, toPlaces).Ok? <==>
            && rate.from == from.currency != "" && rate.to == to != "" && rate.quoted
            && rate.numerator > 0 && 0 < rate.denominator <= 1_000_000_000
            && 0 <= from.decimalPlaces <= 9 && 0 <= toPlaces <= 9 && from.amount > 0
            && 1 <= Worth(rate, from.amount, from.decimalPlaces, toPlaces) <= MAX
  {
    if rate.Validate().None? && ValidDecimalPlaces(from.decimalPlaces) {
      ScaledDenominatorFits(rate, from.decimalPlaces);
    }
  }

  /** Paying in two parts never delivers more than paying at once, and loses at most one unit. */
  lemma SplittingNeverGains(rate: Rate, a: nat, b: nat, fromPlaces: nat, toPlaces: nat)
    requires rate.numerator > 0 && rate.denominator > 0
    ensures var whole := Worth(rate, a + b, fromPlaces, toPlaces);
            var parts := Worth(rate, a, fromPlaces, toPlaces) + Worth(rate, b, fromPlaces, toPlaces);
            parts <= whole <= parts + 1
  {
    var n, p := rate.numerator, PowerOfTen(toPlaces);
    assert (a + b) * n == a * n + b * n;
    assert Numerator(rate, a + b, toPlaces) == Numerator(rate, a, toPlaces) + Numerator(rate, b, toPlaces) by {
      assert (a * n + b * n) * p == a * n * p + b * n * p;
    }
    FloorOfSum(Numerator(rate, a, toPlaces), Numerator(rate, b, toPlaces), Denominator(rate, fromPlaces));
  }

  /** There and back in exact factors: x and y are what a unit is multiplied and divided by. */
  lemma BackBelow(sent: nat, x: nat, y: nat)
    requires x > 0 && y > 0
    ensures sent * x >= 0 && sent * x / y * y / x <= sent
  {
    NonNegative(sent, x);
    Division(sent * x, y);
    var q := sent * x / y;
    NonNegative(q, y);
    QuotientAtLeast(q * y, x, sent + 1);
    assert (sent + 1) * x == sent * x + x;
  }

  /** Converting back at the reciprocal rate never returns more than was sent. */
  lemma ThereAndBackNeverGains(rate: Rate, sent: nat, fromPlaces: nat, toPlaces: nat)
    requires rate.numerator > 0 && rate.denominator > 0
    ensures var there := Worth(rate, sent, fromPlaces, toPlaces);
            Worth(rate.Reciprocal(), there, toPlaces, fromPlaces) <= sent
  {
    var x, y := rate.numerator * PowerOfTen(toPlaces), rate.denominator * PowerOfTen(fromPlaces);
    Positive(rate.numerator, PowerOfTen(toPlaces));
    Positive(rate.denominator, PowerOfTen(fromPlaces));
    var there := Worth(rate, sent, fromPlaces, toPlaces);
    assert Numerator(rate, sent, toPlaces) == sent * x;
    assert Numerator(rate.Reciprocal(), there, fromPlaces) == there * y;
    BackBelow(sent, x, y);
  }
}
