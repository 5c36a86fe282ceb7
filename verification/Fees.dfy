/** What a wallet charges to be paid: a share with a floor and a ceiling (fee.go). */
module Fees {
  import opened Int64
  import opened Outcome
  import opened Amounts
  import opened Arithmetic

  /** The collector is a wallet, or none named. */
  datatype FeeSchedule = FeeSchedule(numerator: int, denominator: int, minimum: int, maximum: int, deductible: bool,
      wallet: Option<nat>)
  {
    predicate InRange() {
      Fits(numerator) && Fits(denominator) && Fits(minimum) && Fits(maximum)
    }

    predicate Charges() {
      this != NO_FEE
    }

    function Validate(): (r: Option<Error>)
    {
      if numerator <= 0 || denominator <= 0 || numerator >= denominator then Some(FeeShare)
      else if minimum < 0 || maximum < 0 then Some(FeeBounds)
      else if maximum > 0 && minimum > maximum then Some(FeeBounds)
      else if wallet.None? then Some(FeeWallet)
      else None
    }
  }

  const NO_FEE := FeeSchedule(0, 0, 0, 0, false, None)

  datatype Fee = Fee(amount: int, remainderNumerator: int, remainderDenominator: int)

  /** The payment through the numerator of the share. */
  function Scaled(f: FeeSchedule, amount: nat): nat
    requires f.numerator > 0
  {
    NonNegative(amount, f.numerator);
    amount * f.numerator
  }

  function FeeOf(f: FeeSchedule, payment: Money): (r: Result<Fee>)
    requires f.InRange() && Fits(payment.amount)
  {
    var invalid := f.Validate();
    if invalid.Some? then Err(invalid.value)
    else if !ValidDecimalPlaces(payment.decimalPlaces) then Err(DecimalPlaces)
    else if payment.amount <= 0 then Err(AmountNotPositive)
    else
      var share, remainder := Scaled(f, payment.amount) / f.denominator, Scaled(f, payment.amount) % f.denominator;
      if !Fits(share) then Err(AmountOverflow)
      else if share < f.minimum then Ok(Fee(f.minimum, 0, f.denominator))
      else if f.maximum > 0 && share > f.maximum then Ok(Fee(f.maximum, 0, f.denominator))
      else Ok(Fee(share, remainder, f.denominator))
  }

  /** The share of a payment is smaller than the payment. */
  lemma ShareIsSmaller(f: FeeSchedule, amount: nat)
    requires f.Validate().None? && amount > 0
    ensures 0 <= Scaled(f, amount) / f.denominator < amount
  {
    Division(Scaled(f, amount), f.denominator);
    QuotientAtLeast(Scaled(f, amount), f.denominator, amount);
    assert amount * f.denominator - amount * f.numerator == amount * (f.denominator - f.numerator);
    Positive(amount, f.denominator - f.numerator);
  }

  /** What a fee is, said without dividing: the share exactly with its remainder, or a bound that
      replaces a share outside it. */
  predicate Explains(fee: Fee, f: FeeSchedule, amount: nat)
    requires f.numerator > 0
  {
    && 0 <= fee.remainderNumerator < fee.remainderDenominator == f.denominator
    && (|| fee.amount * f.denominator + fee.remainderNumerator == Scaled(f, amount)
        || (fee.amount == f.minimum && Scaled(f, amount) < f.minimum * f.denominator)
        || (fee.amount == f.maximum > 0 && Scaled(f, amount) >= (f.maximum + 1) * f.denominator))
  }

  /** A valid schedule charges every payment, within its bounds and as its record explains; and
      only a floor makes a fee as large as the payment. */
  lemma FeeWithinBounds(f: FeeSchedule, payment: Money)
    requires f.InRange() && f.Validate().None? && Fits(payment.amount)
    requires ValidDecimalPlaces(payment.decimalPlaces) && payment.amount > 0
    ensures var r := FeeOf(f, payment);
            && r.Ok?
            && f.minimum <= r.value.amount && (f.maximum > 0 ==> r.value.amount <= f.maximum)
            && Fits(r.value.amount)
            && Explains(r.value, f, payment.amount)
            && (r.value.amount >= payment.amount ==> r.value.amount == f.minimum)
  {
    var x, d := Scaled(f, payment.amount), f.denominator;
    ShareIsSmaller(f, payment.amount);
    Division(x, d);
    QuotientAtLeast(x, d, f.minimum);
    QuotientAtLeast(x, d, f.maximum + 1);
    assert (f.maximum + 1) * d == f.maximum * d + d;
  }

  /** Which payments are charged, of which schedules: a proper share, bounds that are not negative, no
      floor over a ceiling there is, and a collector; the range never refuses. */
  lemma FeeIsCharged(f: FeeSchedule, payment: Money)
    requires f.InRange() && Fits(payment.amount)
    ensures FeeOf(f, payment).Ok? <==>
            && 0 < f.numerator < f.denominator && 0 <= f.minimum && 0 <= f.maximum
            && (f.maximum == 0 || f.minimum <= f.maximum) && f.wallet.Some?
            && 0 <= payment.decimalPlaces <= 9 && payment.amount > 0
  {
    if f.Validate().None? && ValidDecimalPlaces(payment.decimalPlaces) && payment.amount > 0 {
      ShareIsSmaller(f, payment.amount);
    }
  }

  /** A larger payment is never charged less. */
  lemma FeeIsMonotone(f: FeeSchedule, small: Money, large: Money)
    requires f.InRange() && f.Validate().None? && Fits(small.amount) && Fits(large.amount)
    requires ValidDecimalPlaces(small.decimalPlaces) && ValidDecimalPlaces(large.decimalPlaces)
    requires 0 < small.amount <= large.amount
    ensures FeeOf(f, small).Ok? && FeeOf(f, large).Ok?
    ensures FeeOf(f, small).value.amount <= FeeOf(f, large).value.amount
  {
    ShareIsSmaller(f, small.amount);
    ShareIsSmaller(f, large.amount);
    ProductGrows(small.amount, large.amount, f.numerator);
    FloorIsMonotone(Scaled(f, small.amount), Scaled(f, large.amount), f.denominator);
  }
}
