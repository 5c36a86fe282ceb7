/** What an agreement costs on a day: the quotes of credit.go. */
module CreditQuotes {
  import opened Int64
  import opened Arithmetic
  import opened Rounding
  import opened Sums

  datatype InstallmentStatus = Open | Paid | Cancelled

  /** Dates are local day numbers. */
  datatype Installment = Installment(
    sequence: int, dueOn: int, amount: int, principalPart: int, interestPart: int,
    status: InstallmentStatus, overdue: bool, paidAmount: int, lateFee: int, mora: int)
  {
    /** An installment is made of its two parts. */
    predicate Priced() {
      amount == principalPart + interestPart && principalPart >= 0 && interestPart >= 0
    }
  }

  datatype CreditStatus = Active | Delinquent | Settled | Closed

  datatype Agreement = Agreement(lateFeeBP: nat, moraRateBP: nat, delinquentAfterDays: int, status: CreditStatus,
      rebate: int)

  datatype InstallmentQuote = InstallmentQuote(daysLate: int, lateFee: int, mora: int, total: int)

  // ---------------------------------------------------------------- one installment

  /** Prices an installment on a day, in sixty-four bits. */
  function QuoteInstallment(a: Agreement, i: Installment, today: int): InstallmentQuote {
    var days := today - i.dueOn;
    if days <= 0 then InstallmentQuote(0, 0, 0, i.amount)
    else
      var lateFee := RoundRat(Wrap(i.amount * a.lateFeeBP), 10_000);
      var mora := RoundRat(Wrap(Wrap(i.amount * a.moraRateBP) * days), 300_000);
      InstallmentQuote(days, lateFee, mora, Wrap(i.amount + lateFee + mora))
  }

  /** The late fee once, exactly. */
  function LateFee(a: Agreement, i: Installment, today: int): int {
    if today <= i.dueOn then 0 else RoundRat(i.amount * a.lateFeeBP, 10_000)
  }

  /** The interest for lateness by the day, exactly. */
  function Mora(a: Agreement, i: Installment, today: int): int {
    if today <= i.dueOn then 0 else RoundRat(i.amount * a.moraRateBP * (today - i.dueOn), 300_000)
  }

  /** The products and the total of a late installment's quote are within sixty-four bits. */
  predicate QuoteFits(a: Agreement, i: Installment, today: int) {
    today > i.dueOn ==>
      && Fits(i.amount * a.lateFeeBP) && Fits(i.amount * a.moraRateBP * (today - i.dueOn))
      && Fits(i.amount + LateFee(a, i, today) + Mora(a, i, today))
  }

  /** What an installment costs on a day, exactly. */
  function ExactInstallmentQuote(a: Agreement, i: Installment, today: int): InstallmentQuote {
    InstallmentQuote(if today > i.dueOn then today - i.dueOn else 0, LateFee(a, i, today), Mora(a, i, today),
                     i.amount + LateFee(a, i, today) + Mora(a, i, today))
  }

  /** A quote in sixty-four bits is the exact one exactly where its two products and its total fit;
      the first of the two products interest is computed by need not. */
  lemma QuoteIsExact(a: Agreement, i: Installment, today: int)
    ensures QuoteFits(a, i, today) ==> QuoteInstallment(a, i, today) == ExactInstallmentQuote(a, i, today)
    ensures i.amount >= 0 && QuoteInstallment(a, i, today) == ExactInstallmentQuote(a, i, today) ==>
            QuoteFits(a, i, today)
  {
    WrapOfProduct(i.amount * a.moraRateBP, today - i.dueOn);
    if i.amount >= 0 && today > i.dueOn {
      LateFeeExactWhenItFits(a, i, today);
      MoraExactWhenItFits(a, i, today);
    }
  }

  /** A product that does not fit is a fee that is wrong, never one that is right by luck. */
  lemma LateFeeExactWhenItFits(a: Agreement, i: Installment, today: int)
    requires i.amount >= 0 && today > i.dueOn
    ensures QuoteInstallment(a, i, today).lateFee == LateFee(a, i, today) <==> Fits(i.amount * a.lateFeeBP)
  {
    NonNegative(i.amount, a.lateFeeBP);
    FarApart(i.amount * a.lateFeeBP, 10_000);
  }

  /** And so with the interest for lateness, by the product of all three factors: the product of two of
      them may leave the range and come back. */
  lemma MoraExactWhenItFits(a: Agreement, i: Installment, today: int)
    requires i.amount >= 0 && today > i.dueOn
    ensures QuoteInstallment(a, i, today).mora == Mora(a, i, today) <==>
            Fits(i.amount * a.moraRateBP * (today - i.dueOn))
  {
    var product, days := i.amount * a.moraRateBP, today - i.dueOn;
    NonNegative(i.amount, a.moraRateBP);
    NonNegative(product, days);
    WrapOfProduct(product, days);
    FarApart(product * days, 300_000);
  }

  /** Two percent of the largest amount there is: the product leaves the range, and the fee is wrong. */
  lemma LateFeeLeavesTheRange() returns (a: Agreement, i: Installment, today: int)
    ensures a.lateFeeBP == 200 && a.moraRateBP == 0 && i.Priced() && Fits(i.amount) && today > i.dueOn
    ensures QuoteInstallment(a, i, today).lateFee != LateFee(a, i, today)
  {
    a := Agreement(200, 0, 30, Active, 0);
    i := Installment(1, 10, MAX, MAX, 0, Open, false, 0, 0, 0);
    today := 11;
    LateFeeExactWhenItFits(a, i, today);
  }

  /** One percent a month of four thousand million million units, late for three months: the interest
      leaves the range where the fee is still right. */
  lemma MoraLeavesTheRange() returns (a: Agreement, i: Installment, today: int)
    ensures a.lateFeeBP == 200 && a.moraRateBP == 100 && i.Priced() && Fits(i.amount) && today - i.dueOn == 90
    ensures QuoteInstallment(a, i, today).lateFee == LateFee(a, i, today)
    ensures QuoteInstallment(a, i, today).mora != Mora(a, i, today)
  {
    a := Agreement(200, 100, 30, Active, 0);
    i := Installment(1, 10, 4_000_000_000_000_000, 4_000_000_000_000_000, 0, Open, false, 0, 0, 0);
    today := 100;
    LateFeeExactWhenItFits(a, i, today);
    MoraExactWhenItFits(a, i, today);
  }

  lemma FarApart(x: nat, den: int)
    requires 0 < den <= 300_000
    ensures RoundRat(Wrap(x), den) == RoundRat(x, den) <==> Fits(x)
  {
    Nearest(x, den);
    Nearest(Wrap(x), den);
    if !Fits(x) {
      assert x - Wrap(x) >= SPAN by {
        Division(x - MIN, SPAN);
        assert x - Wrap(x) == (x - MIN) / SPAN * SPAN;
        QuotientAtLeast(x - MIN, SPAN, 1);
        ProductGrows(1, (x - MIN) / SPAN, SPAN);
      }
    }
  }

  /** Lateness never costs less a day later. */
  lemma LatenessGrows(a: Agreement, i: Installment, today: int, later: int)
    requires i.amount >= 0 && today <= later
    ensures 0 <= LateFee(a, i, today) <= LateFee(a, i, later)
    ensures 0 <= Mora(a, i, today) <= Mora(a, i, later)
  {
    NonNegative(i.amount, a.lateFeeBP);
    NonNegative(i.amount, a.moraRateBP);
    var fee, mora := i.amount * a.lateFeeBP, i.amount * a.moraRateBP;
    Nearest(fee, 10_000);
    if later > i.dueOn {
      NonNegative(mora, later - i.dueOn);
      Nearest(mora * (later - i.dueOn), 300_000);
      if today > i.dueOn {
        NonNegative(mora, today - i.dueOn);
        Nearest(mora * (today - i.dueOn), 300_000);
        ProductOrder(mora, today - i.dueOn, later - i.dueOn);
        RoundingIsMonotone(mora * (today - i.dueOn), 300_000, mora * (later - i.dueOn), 300_000);
      }
    }
  }

  lemma ProductOrder(c: nat, a: int, b: int)
    requires a <= b
    ensures c * a <= c * b
  {
  }

  // ---------------------------------------------------------------- paying off

  /** What an open installment adds to a payoff: without its interest while it is not yet due, with
      what lateness costs after it. */
  function Clears(a: Agreement, i: Installment, today: int): int {
    if i.status != Open then 0
    else if i.dueOn > today then i.amount - i.interestPart
    else i.amount + LateFee(a, i, today) + Mora(a, i, today)
  }

  function OpenAmounts(ins: seq<Installment>): seq<int> {
    seq(|ins|, k requires 0 <= k < |ins| => if ins[k].status == Open then ins[k].amount else 0)
  }

  /** The debt: what the open installments add up to. */
  function OpenSum(ins: seq<Installment>): int {
    Total(OpenAmounts(ins))
  }

  function Rebates(ins: seq<Installment>, today: int): seq<int> {
    seq(|ins|, k requires 0 <= k < |ins| =>
      if ins[k].status == Open && ins[k].dueOn > today then ins[k].interestPart else 0)
  }

  function Charges(a: Agreement, ins: seq<Installment>, today: int): seq<int> {
    seq(|ins|, k requires 0 <= k < |ins| =>
      if ins[k].status == Open && ins[k].dueOn <= today then LateFee(a, ins[k], today) + Mora(a, ins[k], today) else 0)
  }

  function Clearings(a: Agreement, ins: seq<Installment>, today: int): seq<int> {
    seq(|ins|, k requires 0 <= k < |ins| => Clears(a, ins[k], today))
  }

  function OpenPrincipals(ins: seq<Installment>): seq<int> {
    seq(|ins|, k requires 0 <= k < |ins| => if ins[k].status == Open then ins[k].principalPart else 0)
  }

  datatype PayoffQuote = PayoffQuote(remaining: int, rebate: int, charges: int, total: int)

  /** A payoff whose every number is within sixty-four bits. */
  predicate PayoffFits(a: Agreement, ins: seq<Installment>, today: int) {
    && (forall k | 0 <= k < |ins| :: ins[k].status == Open ==> ins[k].Priced() && QuoteFits(a, ins[k], today))
    && Fits(OpenSum(ins)) && Fits(Total(Charges(a, ins, today))) && Fits(Total(Clearings(a, ins, today)))
  }

  /** The total of a payoff is the installments cleared one by one. */
  lemma PayoffAddsUp(a: Agreement, ins: seq<Installment>, today: int)
    ensures Total(Clearings(a, ins, today)) == OpenSum(ins) - Total(Rebates(ins, today)) + Total(Charges(a, ins, today))
  {
    var c, o, r, g := Clearings(a, ins, today), OpenAmounts(ins), Rebates(ins, today), Charges(a, ins, today);
    var owed := seq(|ins|, k requires 0 <= k < |ins| => c[k] - g[k]);
    TotalOfSums(owed, g, c);
    TotalOfSums(owed, r, o);
  }

  /** What lateness costs an installment: a price a payoff asks for and does not look into. */
  type Lateness = Installment -> int

  function LatenessOn(a: Agreement, today: int): Lateness {
    i => QuoteInstallment(a, i, today).lateFee + QuoteInstallment(a, i, today).mora
  }

  function PricedCharges(lateness: Lateness, ins: seq<Installment>, today: int): seq<int> {
    seq(|ins|, k requires 0 <= k < |ins| =>
      if ins[k].status == Open && ins[k].dueOn <= today then lateness(ins[k]) else 0)
  }

  /** Prices clearing every open installment on a day: the totals, as sixty-four bits have them. */
  method QuotePayoff(a: Agreement, ins: seq<Installment>, today: int) returns (q: PayoffQuote)
    ensures q == QuoteOfPayoff(LatenessOn(a, today), ins, today)
  {
    q := AddUp(LatenessOn(a, today), ins, today);
  }

  method AddUp(lateness: Lateness, ins: seq<Installment>, today: int) returns (q: PayoffQuote)
    ensures q == QuoteOfPayoff(lateness, ins, today)
  {
    q := PayoffQuote(0, 0, 0, 0);
    ghost var o, r, g := OpenAmounts(ins), Rebates(ins, today), PricedCharges(lateness, ins, today);
    NothingPriced(o, r, g);
    for k := 0 to |ins|
      invariant Running(q, o, r, g, k)
    {
      ghost var before := q;
      if ins[k].status == Open {
        q := q.(remaining := Wrap(q.remaining + ins[k].amount));
        if ins[k].dueOn > today {
          q := q.(rebate := Wrap(q.rebate + ins[k].interestPart));
        } else {
          q := q.(charges := Wrap(q.charges + Wrap(lateness(ins[k]))));
        }
      }
      OneMorePriced(before, q, o, r, g, k);
    }
    AllPriced(q, o, r, g);
    TotalsOfAll(q, Total(o), Total(r), Total(g));
    q := q.(total := Wrap(Wrap(q.remaining - q.rebate) + q.charges));
  }

  /** The running totals of the first k installments: values in range, with the bits of the exact ones. */
  ghost predicate Running(q: PayoffQuote, o: seq<int>, r: seq<int>, g: seq<int>, k: nat) {
    |o| == |r| == |g| >= k && RunningTotals(q, Total(o[..k]), Total(r[..k]), Total(g[..k]))
  }

  ghost predicate RunningTotals(q: PayoffQuote, o: int, r: int, g: int) {
    && Fits(q.remaining) && Fits(q.rebate) && Fits(q.charges)
    && SameBits(q.remaining, o) && SameBits(q.rebate, r) && SameBits(q.charges, g)
  }

  lemma NothingPriced(o: seq<int>, r: seq<int>, g: seq<int>)
    requires |o| == |r| == |g|
    ensures Running(PayoffQuote(0, 0, 0, 0), o, r, g, 0)
  {
    assert 0 == Up(0, 0);
  }

  /** A total that took one more, or had nothing to take. */
  predicate Took(before: int, after: int, x: int) {
    after == Wrap(before + x) || after == Wrap(before + Wrap(x)) || (x == 0 && after == before)
  }

  lemma TookOne(before: int, after: int, total: int, x: int)
    requires Fits(before) && SameBits(before, total) && Took(before, after, x)
    ensures Fits(after) && SameBits(after, total + x)
  {
    AddedBits(before, total, x);
  }

  lemma OneMorePriced(q: PayoffQuote, after: PayoffQuote, o: seq<int>, r: seq<int>, g: seq<int>, k: nat)
    requires Running(q, o, r, g, k) && k < |o|
    requires Took(q.remaining, after.remaining, o[k]) && Took(q.rebate, after.rebate, r[k])
             && Took(q.charges, after.charges, g[k])
    ensures Running(after, o, r, g, k + 1)
  {
    TotalOfPrefix(o, k);
    TotalOfPrefix(r, k);
    TotalOfPrefix(g, k);
    TookOne(q.remaining, after.remaining, Total(o[..k]), o[k]);
    TookOne(q.rebate, after.rebate, Total(r[..k]), r[k]);
    TookOne(q.charges, after.charges, Total(g[..k]), g[k]);
  }

  lemma {:induction false} AllPriced(q: PayoffQuote, o: seq<int>, r: seq<int>, g: seq<int>)
    requires Running(q, o, r, g, |o|)
    ensures RunningTotals(q, Total(o), Total(r), Total(g))
  {
    assert o[..|o|] == o && r[..|o|] == r && g[..|o|] == g;
  }

  lemma TotalsOfAll(q: PayoffQuote, o: int, r: int, g: int)
    requires RunningTotals(q, o, r, g)
    ensures q.remaining == Wrap(o) && q.rebate == Wrap(r) && q.charges == Wrap(g)
    ensures Wrap(Wrap(q.remaining - q.rebate) + q.charges) == Wrap(o - r + g)
  {
    BitsInRange(q.remaining, o);
    BitsInRange(q.rebate, r);
    BitsInRange(q.charges, g);
    SubtractedBits(q.remaining, o, q.rebate, r);
    SummedBits(Wrap(q.remaining - q.rebate), o - r, q.charges, g);
    BitsInRange(Wrap(Wrap(q.remaining - q.rebate) + q.charges), o - r + g);
  }

  /** A payoff in sixty-four bits: each total wrapped once, whatever wrapped on the way. */
  function QuoteOfPayoff(lateness: Lateness, ins: seq<Installment>, today: int): PayoffQuote {
    var o, r, g := Total(OpenAmounts(ins)), Total(Rebates(ins, today)), Total(PricedCharges(lateness, ins, today));
    PayoffQuote(Wrap(o), Wrap(r), Wrap(g), Wrap(o - r + g))
  }

  /** Where its numbers fit, that is the open installments, the interest not yet earned, what lateness
      costs, and the sum of the installments cleared one by one. */
  lemma PayoffIsExact(a: Agreement, ins: seq<Installment>, today: int)
    requires PayoffFits(a, ins, today)
    ensures QuoteOfPayoff(LatenessOn(a, today), ins, today) ==
            PayoffQuote(OpenSum(ins), Total(Rebates(ins, today)), Total(Charges(a, ins, today)),
              Total(Clearings(a, ins, today)))
  {
    NothingNegative(a, ins, today);
    PayoffAddsUp(a, ins, today);
    TotalIsMonotone(Rebates(ins, today), OpenAmounts(ins));
    TotalIsMonotone(seq(|ins|, _ => 0), Rebates(ins, today));
    TotalOfZeros(seq(|ins|, _ => 0));
    forall k | 0 <= k < |ins| ensures PricedCharges(LatenessOn(a, today), ins, today)[k] == Charges(a, ins, today)[k] {
      if ins[k].status == Open {
        QuoteIsExact(a, ins[k], today);
      }
    }
    assert PricedCharges(LatenessOn(a, today), ins, today) == Charges(a, ins, today);
  }

  lemma NothingNegative(a: Agreement, ins: seq<Installment>, today: int)
    requires forall k | 0 <= k < |ins| :: ins[k].status == Open ==> ins[k].Priced()
    ensures forall k | 0 <= k < |ins| ::
            0 <= Rebates(ins, today)[k] <= OpenAmounts(ins)[k] && Charges(a, ins, today)[k] >= 0
  {
    forall k | 0 <= k < |ins| ensures Charges(a, ins, today)[k] >= 0 {
      if ins[k].status == Open {
        LatenessGrows(a, ins[k], today, today);
      }
    }
  }

  /** A payoff never costs less a day later, and never less than the principal still open. */
  lemma PayoffNeverFalls(a: Agreement, ins: seq<Installment>, today: int, later: int)
    requires today <= later && forall k | 0 <= k < |ins| :: ins[k].status == Open ==> ins[k].Priced()
    ensures Total(OpenPrincipals(ins)) <= Total(Clearings(a, ins, today)) <= Total(Clearings(a, ins, later))
  {
    forall k | 0 <= k < |ins|
      ensures OpenPrincipals(ins)[k] <= Clearings(a, ins, today)[k] <= Clearings(a, ins, later)[k]
    {
      if ins[k].status == Open {
        LatenessGrows(a, ins[k], today, later);
      }
    }
    TotalIsMonotone(OpenPrincipals(ins), Clearings(a, ins, today));
    TotalIsMonotone(Clearings(a, ins, today), Clearings(a, ins, later));
  }
}
