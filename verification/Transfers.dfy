/** A payment between two wallets: what leaves, what arrives and what is charged (movement.go,
    service.go), and how a retry is told from another request (commit.go). */
module Transfers {
  import opened Int64
  import opened Outcome
  import opened Sums
  import opened Amounts
  import opened Rates
  import opened Fees
  import opened Tables
  import opened Apply
  import opened Ledger
  import FloorRuns

  /** What a wallet's money is counted in. */
  datatype Unit = Unit(currency: string, decimalPlaces: int)

  /** What a caller asks: the amount as it was parsed at the source's scale. */
  datatype Request = Request(
    from: nat, to: nat, amount: int, withdrawalPending: bool, depositPending: bool, force: bool)

  /** What the application's seams answer when they are asked; None where none is configured. */
  datatype Seams = Seams(discount: Option<int>, rate: Option<Rate>, schedule: Option<FeeSchedule>) {
    predicate InRange() {
      && (discount.Some? ==> Fits(discount.value))
      && (rate.Some? ==> Fits(rate.value.numerator) && Fits(rate.value.denominator))
      && (schedule.Some? ==> schedule.value.InRange())
    }

    function Discount(): int {
      if discount.None? then 0 else discount.value
    }

    function Schedule(): FeeSchedule {
      if schedule.None? then NO_FEE else schedule.value
    }
  }

  /** What is recorded about what was charged, and the wallet a fee is credited to. */
  datatype Charge = Charge(requested: int, discount: int, base: int, schedule: FeeSchedule, fee: Fee)
  datatype Charged = Charged(record: Option<Charge>, collector: Option<nat>)

  datatype Payment = Payment(debited: int, credited: int, charged: Charged, legs: seq<Leg>)

  predicate Converts(source: Unit, target: Unit) {
    source.currency != target.currency || source.decimalPlaces != target.decimalPlaces
  }

  // ---------------------------------------------------------------- the three questions

  function AskDiscount(seams: Seams): Result<int> {
    if seams.discount.None? then Ok(0)
    else if seams.discount.value < 0 then Err(DiscountNegative)
    else Ok(seams.discount.value)
  }

  /** How much arrives in the target. */
  function AskRate(seams: Seams, source: Unit, target: Unit, debited: int): Result<int>
    requires seams.InRange() && Fits(debited)
  {
    if !Converts(source, target) then Ok(debited)
    else if seams.rate.None? then Err(CurrencyMismatch)
    else
      var converted :=
        Convert(seams.rate.value, Money(debited, source.currency, source.decimalPlaces), target.currency,
          target.decimalPlaces);
      if converted.Err? then Err(converted.error) else Ok(converted.value.money.amount)
  }

  /** What the payment costs beyond the money it moves. */
  function AskCharge(units: map<nat, Unit>, seams: Seams, request: Request, discount: int, base: int): Result<Charged>
    requires seams.InRange() && Fits(base) && request.from in units && request.to in units
  {
    var source, target, schedule := units[request.from], units[request.to], seams.Schedule();
    if !schedule.Charges() then
      if discount == 0 then Ok(Charged(None, None))
      else Ok(Charged(Some(Charge(request.amount, discount, base, NO_FEE, Fee(0, 0, 0))), None))
    else if schedule.Validate().Some? then Err(schedule.Validate().value)
    else if Converts(source, target) then Err(FeeCurrencyMismatch)
    else
      var collector := schedule.wallet.value;
      if collector == request.from || collector == request.to then Err(FeeWallet)
      else if collector !in units then Err(FeeWallet)
      else if Converts(source, units[collector]) then Err(FeeCurrencyMismatch)
      else
        var fee := FeeOf(schedule, Money(base, source.currency, source.decimalPlaces));
        if fee.Err? then Err(fee.error)
        else Ok(Charged(Some(Charge(request.amount, discount, base, schedule, fee.value)), Some(collector)))
  }

  // ---------------------------------------------------------------- what a payment is

  /** The fee a collector is credited. */
  function FeeIn(c: Charged): int {
    if c.collector.Some? && c.record.Some? then c.record.value.fee.amount else 0
  }

  /** A payment that answers a request: the money arrives in whole and in part, and is charged for
      once, on one side. arrived is what the payment is worth to the target. */
  predicate Answers(p: Payment, request: Request, base: int, arrived: int, deductible: bool) {
    var fee := FeeIn(p.charged);
    && base > 0 && fee >= 0 && p.credited > 0
    && p.debited == base + (if deductible then 0 else fee)
    && p.credited == arrived - (if deductible then fee else 0)
    && Fits(p.debited) && Fits(p.credited) && Fits(fee)
    && |p.legs| == (if p.charged.collector.Some? then 3 else 2)
    && p.legs[0] == Leg(request.from, Withdraw, p.debited, request.withdrawalPending, request.force)
    && p.legs[1] == Leg(request.to, Deposit, p.credited, request.depositPending, false)
    && (p.charged.collector.Some? ==>
          p.legs[2] == Leg(p.charged.collector.value, Deposit, fee, request.withdrawalPending, false))
  }

  /** What is kept of a charge: what was asked for, whenever what left may be another amount. */
  predicate Recorded(p: Payment, request: Request, base: int) {
    if p.charged.record.Some? then p.charged.record.value.requested == request.amount
    else base == request.amount && p.charged.collector.None?
  }

  /** The fee a schedule takes of a payment in the source's money. */
  function FeeFor(schedule: FeeSchedule, base: int, source: Unit): int
    requires schedule.InRange() && Fits(base)
  {
    var fee := FeeOf(schedule, Money(base, source.currency, source.decimalPlaces));
    if fee.Ok? then fee.value.amount else 0
  }

  /** What is recorded of a charge: where anything was taken off or charged, what was asked for, what
      was taken off, what was left, the schedule, and the fee as the schedule explains it; and nothing
      where nothing was. */
  predicate ChargedAs(c: Charged, seams: Seams, request: Request) {
    var schedule := seams.Schedule();
    && c.collector == schedule.wallet
    && (c.record.None? <==> seams.Discount() == 0 && schedule == NO_FEE)
    && (c.record.Some? ==>
          var charge := c.record.value;
          && charge.requested == request.amount && charge.discount == seams.Discount()
          && charge.base == request.amount - seams.Discount() && charge.schedule == schedule
          && if schedule == NO_FEE then charge.fee == Fee(0, 0, 0)
             else schedule.numerator > 0 && charge.base >= 0 && Explains(charge.fee, schedule, charge.base))
  }

  /** Which payments pass: between two wallets there are, of more than is taken off; at a rate for
      the pair that delivers at least one unit, and then without a fee; or in the same money, with no
      fee or with one some third wallet counted the same way collects, that leaves something to
      arrive and something in range to leave. */
  predicate Payable(units: map<nat, Unit>, seams: Seams, request: Request)
    requires seams.InRange() && Fits(request.amount)
  {
    && request.from != request.to && request.from in units && request.to in units
    && 0 <= seams.Discount() < request.amount
    && var source, target, base, schedule :=
       units[request.from], units[request.to], request.amount - seams.Discount(), seams.Schedule();
    if source != target then
      && schedule == NO_FEE && seams.rate.Some?
      && var rate := seams.rate.value;
      && rate.Validate().None? && rate.from == source.currency && rate.to == target.currency
      && ValidDecimalPlaces(source.decimalPlaces) && ValidDecimalPlaces(target.decimalPlaces)
      && 1 <= Worth(rate, base, source.decimalPlaces, target.decimalPlaces) <= MAX
    else
      schedule != NO_FEE ==>
        && schedule.Validate().None? && ValidDecimalPlaces(source.decimalPlaces)
        && schedule.wallet.value in units && schedule.wallet.value != request.from
           && schedule.wallet.value != request.to
        && units[schedule.wallet.value] == source
        && (if schedule.deductible then FeeFor(schedule, base, source) < base
            else base + FeeFor(schedule, base, source) <= MAX)
  }

  lemma RateAnswers(seams: Seams, source: Unit, target: Unit, base: int)
    requires seams.InRange() && Fits(base) && base > 0
    ensures var r := AskRate(seams, source, target, base);
            && (r.Ok? ==> 0 < r.value <= MAX)
            && (source == target ==> r == Ok(base))
            && (source != target ==>
                  (r.Ok? <==> && seams.rate.Some?
                              && var rate := seams.rate.value;
                              && rate.Validate().None? && rate.from == source.currency && rate.to == target.currency
                              && ValidDecimalPlaces(source.decimalPlaces) && ValidDecimalPlaces(target.decimalPlaces)
                              && 1 <= Worth(rate, base, source.decimalPlaces, target.decimalPlaces) <= MAX))
            && (source != target && r.Ok? ==>
                  r.value == Worth(seams.rate.value, base, source.decimalPlaces, target.decimalPlaces))
  {
    if Converts(source, target) && seams.rate.Some? {
      var rate := seams.rate.value;
      if rate.Validate().None? && rate.from == source.currency && rate.to == target.currency
         && ValidDecimalPlaces(source.decimalPlaces) && ValidDecimalPlaces(target.decimalPlaces) {
        NothingIsLost(rate, Money(base, source.currency, source.decimalPlaces), target.currency, target.decimalPlaces);
      }
    }
  }

  lemma ChargeAnswers(units: map<nat, Unit>, seams: Seams, request: Request, discount: int, base: int)
    requires seams.InRange() && Fits(base) && base > 0 && request.from in units && request.to in units
    requires base == request.amount - discount
    ensures var r, source, schedule :=
            AskCharge(units, seams, request, discount, base), units[request.from], seams.Schedule();
            && (r.Ok? ==> r.value.collector.Some? ==> r.value.record.Some? && r.value.record.value.schedule == schedule)
            && (r.Ok? && discount == seams.Discount() ==> ChargedAs(r.value, seams, request))
            && (r.Ok? ==> 0 <= FeeIn(r.value) <= MAX)
            && (r.Ok? ==> FeeIn(r.value) == if schedule.Charges() then FeeFor(schedule, base, source) else 0)
            && (r.Ok? <==> schedule.Charges() ==>
                  && schedule.Validate().None? && ValidDecimalPlaces(source.decimalPlaces)
                  && source == units[request.to]
                  && schedule.wallet.value in units && schedule.wallet.value != request.from
                     && schedule.wallet.value != request.to
                  && units[schedule.wallet.value] == source)
  {
    var source, schedule := units[request.from], seams.Schedule();
    if schedule.Charges() && schedule.Validate().None? && ValidDecimalPlaces(source.decimalPlaces) {
      FeeWithinBounds(schedule, Money(base, source.currency, source.decimalPlaces));
    }
  }

  /** Transfer: credited and debited are what arrives and what leaves, moved apart by the fee. */
  method Transfer(units: map<nat, Unit>, seams: Seams, request: Request) returns (r: Result<Payment>)
    requires seams.InRange() && Fits(request.amount)
    ensures r.Ok? <==> Payable(units, seams, request)
    ensures r.Ok? ==>
              var base, source, target := request.amount - seams.Discount(), units[request.from], units[request.to];
              var arrived := if source == target then base
                             else Worth(seams.rate.value, base, source.decimalPlaces, target.decimalPlaces);
              && Answers(r.value, request, base, arrived, seams.Schedule().deductible)
              && Recorded(r.value, request, base) && ChargedAs(r.value.charged, seams, request)
  {
    if request.from == request.to {
      return Err(SameWallet);
    }
    if request.from !in units || request.to !in units {
      return Err(NotFound);
    }
    var source, target := units[request.from], units[request.to];
    if request.amount <= 0 {
      return Err(AmountNotPositive);
    }
    var discount :- AskDiscount(seams);
    var lessened := Sub(request.amount, discount);
    if lessened.Err? || lessened.value <= 0 {
      return Err(AmountNotPositive);
    }
    var base := lessened.value;
    RateAnswers(seams, source, target, base);
    ChargeAnswers(units, seams, request, discount, base);
    var credited :- AskRate(seams, source, target, base);
    var charged :- AskCharge(units, seams, request, discount, base);
    r := Divide(request, base, credited, charged);
  }

  /** Who pays the fee: it comes on top of what leaves, or out of what arrives. */
  method Divide(request: Request, base: int, arrived: int, charged: Charged) returns (r: Result<Payment>)
    requires 0 < base <= MAX && 0 < arrived <= MAX && 0 <= FeeIn(charged) <= MAX
    requires charged.collector.Some? ==> charged.record.Some?
    requires if charged.record.Some? then charged.record.value.requested == request.amount else request.amount == base
    ensures var deductible := charged.collector.Some? && charged.record.value.schedule.deductible;
            && (r.Ok? <==>
               (charged.collector.Some? ==>
                 if deductible then FeeIn(charged) < arrived else base + FeeIn(charged) <= MAX))
            && (r.Ok? ==>
               r.value.charged == charged && Answers(r.value, request, base, arrived, deductible)
                 && Recorded(r.value, request, base))
            && (r.Err? ==> r.error == if deductible then FeeExceedsAmount else AmountOverflow)
  {
    var debited, credited := base, arrived;
    if charged.collector.Some? {
      var fee := charged.record.value.fee.amount;
      if charged.record.value.schedule.deductible {
        var lessened := Sub(credited, fee);
        if lessened.Err? || lessened.value <= 0 {
          return Err(FeeExceedsAmount);
        }
        credited := lessened.value;
      } else {
        debited :- Add(base, fee);
      }
    }
    var legs := [
      Leg(request.from, Withdraw, debited, request.withdrawalPending, request.force),
      Leg(request.to, Deposit, credited, request.depositPending, false)
    ];
    if charged.collector.Some? {
      legs := legs
        + [Leg(charged.collector.value, Deposit, charged.record.value.fee.amount, request.withdrawalPending, false)];
    }
    r := Ok(Payment(debited, credited, charged, legs));
  }

  // ---------------------------------------------------------------- what a payment conserves

  /** In one money, what leaves is exactly what arrives and the fee, whatever was charged and on
      whichever side; and the operation moves nothing in total exactly when both sides count, or
      both wait. */
  lemma PaymentBalances(p: Payment, request: Request, base: int, deductible: bool)
    requires Answers(p, request, base, base, deductible)
    ensures p.debited == p.credited + FeeIn(p.charged) && p.credited > 0
    ensures FloorRuns.Balanced(Post(p.legs)) <==> request.withdrawalPending == request.depositPending
  {
    EffectsOfAPayment(p, request, base, deductible);
    var fee := FeeIn(p.charged);
    var out := if request.withdrawalPending then 0 else 0 - p.debited;
    var into := if request.depositPending then 0 else p.credited;
    var kept := if request.withdrawalPending then 0 else fee;
    TotalOfOneMore([], out);
    TotalOfOneMore([] + [out], into);
    TotalOfOneMore([] + [out] + [into], kept);
  }

  lemma EffectsOfAPayment(p: Payment, request: Request, base: int, deductible: bool)
    requires Answers(p, request, base, base, deductible)
    ensures var out := if request.withdrawalPending then 0 else 0 - p.debited;
            var into := if request.depositPending then 0 else p.credited;
            var kept := if request.withdrawalPending then 0 else FeeIn(p.charged);
            Effects(PlacedFrom(Movements(p.legs))) ==
            if p.charged.collector.Some? then [] + [out] + [into] + [kept] else [] + [out] + [into]
  {
  }

  // ---------------------------------------------------------------- a retry, or another request

  /** What a key is answered with: the entries of its operation in the order of the request, what its
      charge row says was asked for, where there is one, and the operations it settles and gives part
      of back. */
  datatype Receipt =
    Receipt(operation: nat, entries: seq<Entry>, requested: Option<int>, settles: nat, refers: Option<nat>)

  /** What the rows of a payment say. */
  predicate ReceiptOf(r: Receipt, p: Payment) {
    && |r.entries| == |p.legs|
    && (forall k | 0 <= k < |p.legs| :: RecordedAs(r.entries[k], r.operation, Placed(k, Movements(p.legs)[k])))
    && r.requested == (if p.charged.record.Some? then Some(p.charged.record.value.requested) else None)
  }

  /** askedTransfer: read off the rows alone. */
  predicate AskedTransfer(request: Request, r: Receipt) {
    && |r.entries| >= 2
    && var out, into := r.entries[0], r.entries[1];
    && out.wallet == request.from && out.kind == Withdraw && out.settled == !request.withdrawalPending
    && into.wallet == request.to && into.kind == Deposit && into.settled == !request.depositPending
    && (if r.requested.Some? then r.requested.value == request.amount else out.amount == request.amount)
  }

  /** askedMovement: a deposit or a withdrawal. */
  predicate AskedMovement(wallet: nat, kind: EntryKind, amount: int, pending: bool, r: Receipt) {
    && |r.entries| == 1
    && r.entries[0].wallet == wallet && r.entries[0].kind == kind && r.entries[0].amount == amount
    && r.entries[0].settled == !pending
  }

  /** movedFor: the wallet is in the operation. */
  predicate MovedFor(owner: nat, r: Receipt) {
    exists k :: 0 <= k < |r.entries| && r.entries[k].wallet == owner
  }

  /** The same request: everything the caller decided about the money, and nothing a seam answered. */
  predicate SameRequest(a: Request, b: Request) {
    a.(force := b.force) == b
  }

  /** A key spent on a payment answers exactly the request that made it: whatever was discounted,
      charged or converted then, and whatever would be now. */
  lemma OnlyTheSamePaymentIsReplayed(p: Payment, mine: Request, other: Request, base: int, arrived: int,
      deductible: bool, r: Receipt)
    requires Answers(p, mine, base, arrived, deductible) && Recorded(p, mine, base) && ReceiptOf(r, p)
    ensures AskedTransfer(other, r) <==> SameRequest(mine, other)
    ensures !AskedMovement(other.from, Withdraw, other.amount, other.withdrawalPending, r)
    ensures MovedFor(mine.from, r) && MovedFor(mine.to, r)
  {
    assert RecordedAs(r.entries[0], r.operation, Placed(0, Movements(p.legs)[0]));
    assert RecordedAs(r.entries[1], r.operation, Placed(1, Movements(p.legs)[1]));
  }

  /** And one spent on a deposit or a withdrawal answers exactly that movement, and no payment. */
  lemma OnlyTheSameMovementIsReplayed(leg: Leg, wallet: nat, kind: EntryKind, amount: int, pending: bool,
      other: Request, r: Receipt)
    requires |r.entries| == 1 && RecordedAs(r.entries[0], r.operation, Placed(0, Movements([leg])[0]))
    ensures AskedMovement(wallet, kind, amount, pending, r) <==>
            (wallet, kind, amount, pending) == (leg.wallet, leg.kind, leg.amount, leg.pending)
    ensures !AskedTransfer(other, r)
    ensures MovedFor(wallet, r) <==> wallet == leg.wallet
  {
  }
}
