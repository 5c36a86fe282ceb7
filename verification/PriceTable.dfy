/** The installments of a financing (Schedule of credit.go). */
module PriceTable {
  import opened Int64
  import opened Outcome
  import opened Arithmetic
  import opened Rounding
  import opened Calendar

  const MAX_INSTALLMENTS := 120

  datatype Parts = Parts(principal: int, interest: int) {
    function Amount(): int {
      principal + interest
    }
  }

  datatype ScheduledInstallment = ScheduledInstallment(sequence: int, dueOn: Date, amount: int, parts: Parts)

  function Sum(rows: seq<Parts>): int {
    if rows == [] then 0 else rows[0].principal + Sum(rows[1..])
  }

  // ---------------------------------------------------------------- without interest

  /** Equal parts, the first ones a unit larger where the principal does not divide. */
  function EvenParts(base: int, extra: nat, count: nat): seq<Parts> {
    seq(count, i => Parts(if i < extra then base + 1 else base, 0))
  }

  lemma {:induction false} EvenPartsSum(base: int, extra: nat, count: nat)
    requires extra <= count
    ensures Sum(EvenParts(base, extra, count)) == base * count + extra
  {
    var rows := EvenParts(base, extra, count);
    if count > 0 {
      var rest := if extra > 0 then extra - 1 else 0;
      assert rows[1..] == EvenParts(base, rest, count - 1);
      EvenPartsSum(base, rest, count - 1);
    }
  }

  // ---------------------------------------------------------------- with interest

  function Power(base: nat, n: nat): nat {
    if n == 0 then 1 else base * Power(base, n - 1)
  }

  /** P * i * (1+i)^n over (1+i)^n - 1, with i = bp/10_000, as one fraction of whole numbers. */
  function PaymentNumerator(principal: nat, count: nat, bp: nat): nat {
    principal * bp * Power(10_000 + bp, count)
  }

  function PaymentDenominator(count: nat, bp: nat): int {
    10_000 * (Power(10_000 + bp, count) - Power(10_000, count))
  }

  lemma {:induction false} PowersDiffer(count: nat, bp: nat)
    requires count > 0 && bp > 0
    ensures Power(10_000 + bp, count) > Power(10_000, count) > 0
    ensures PaymentDenominator(count, bp) > 0
  {
    var p, q := Power(10_000 + bp, count - 1), Power(10_000, count - 1);
    if count > 1 {
      PowersDiffer(count - 1, bp);
    }
    assert (10_000 + bp) * p == 10_000 * p + bp * p;
    Positive(bp, p);
  }

  function Payment(principal: nat, count: nat, bp: nat): int
    requires count > 0 && bp > 0
  {
    PowersDiffer(count, bp);
    RoundRat(PaymentNumerator(principal, count, bp), PaymentDenominator(count, bp))
  }

  /** What a balance owes for one period. */
  type Interest = int -> int

  /** The rounded interest at a rate in basis points. */
  function InterestAt(bp: nat): Interest {
    balance => RoundRat(balance * bp, 10_000)
  }

  /** Interest is of the sign of its balance and never falls as the balance grows. */
  ghost predicate Ordered(interest: Interest) {
    && interest(0) == 0
    && (forall a, b | 0 <= a <= b :: 0 <= interest(a) <= interest(b))
    && forall a | a < 0 :: interest(a) <= 0
  }

  lemma InterestIsOrdered(bp: nat)
    ensures Ordered(InterestAt(bp))
  {
    var interest := InterestAt(bp);
    WholeIsKept(0, 10_000);
    forall a, b | 0 <= a <= b ensures 0 <= interest(a) <= interest(b) {
      ProductGrows(a, b, bp);
      NonNegative(a, bp);
      Nearest(a * bp, 10_000);
      RoundingIsMonotone(a * bp, 10_000, b * bp, 10_000);
    }
    forall a | a < 0 ensures interest(a) <= 0 {
      ProductGrows(a, 0, bp);
      Nearest(a * bp, 10_000);
    }
  }

  /** The rows still to come on a balance: interest rounded on the balance, the rest of the payment
      taken off it, the whole balance taken by the last row or by a payment larger than it. */
  function Table(balance: int, payment: int, interest: Interest, left: nat): (rows: seq<Parts>)
    ensures |rows| == left
    decreases left
  {
    if left == 0 then []
    else
      var due := interest(balance);
      var part := if left == 1 || payment - due > balance then balance else payment - due;
      [Parts(part, due)] + Table(balance - part, payment, interest, left - 1)
  }

  /** The whole schedule, before it meets the range of an Amount. */
  function Plan(principal: nat, count: nat, bp: nat): (rows: seq<Parts>)
    requires principal > 0 && count > 0
    ensures |rows| == count
  {
    if bp == 0 then EvenParts(principal / count, principal % count, count)
    else Table(principal, Payment(principal, count, bp), InterestAt(bp), count)
  }

  /** Every number the sixty-four-bit arithmetic produces on the way is the exact one. */
  predicate InRange(principal: nat, count: nat, bp: nat)
    requires principal > 0 && count > 0
  {
    && (bp > 0 ==> Fits(Payment(principal, count, bp)))
    && AllFit(Plan(principal, count, bp))
  }

  predicate AllFit(rows: seq<Parts>) {
    forall k | 0 <= k < |rows| :: Fits(rows[k].Amount())
  }

  /** How a plan is written down: numbered from one, monthly from the first date. */
  predicate Written(rows: seq<ScheduledInstallment>, plan: seq<Parts>, firstDue: Date)
    requires firstDue.Valid()
  {
    && |rows| == |plan|
    && forall k | 0 <= k < |plan| ::
       rows[k] == ScheduledInstallment(k + 1, AddMonths(firstDue, k), plan[k].Amount(), plan[k])
  }

  /** The days a schedule falls on, in the Gregorian calendar: the first date's day in each month that
      has it, and the day before the next month in one that has not; y and m, and v and n, are the
      month of installment k and the next, in years that begin in March. */
  lemma InstallmentsFallOn(
      rows: seq<ScheduledInstallment>, plan: seq<Parts>, firstDue: Date, k: nat, y: int, m: nat, v: int, n: nat)
    requires firstDue.Valid() && Written(rows, plan, firstDue) && k < |rows|
    requires 12 * firstDue.year + firstDue.month + 9 + k == 12 * (y + 1) + m && m < 12
    requires 12 * firstDue.year + firstDue.month + 10 + k == 12 * (v + 1) + n && n < 12
    ensures rows[k].dueOn.Valid()
    ensures var first := 365 * y + y / 4 - y / 100 + y / 400 + (153 * m + 2) / 5 + 60;
            var next := 365 * v + v / 4 - v / 100 + v / 400 + (153 * n + 2) / 5 + 60;
            rows[k].dueOn.Number() == if first + firstDue.day <= next then first + firstDue.day - 1 else next - 1
  {
    DueDatesFallOn(firstDue, k, y, m, v, n);
  }

  /** Works out the installments of a financing, in sixty-four bits at every step. */
  method Schedule(principal: int, count: int, bp: int, firstDue: Date) returns (r: Result<seq<ScheduledInstallment>>)
    requires Fits(principal) && firstDue.Valid()
    ensures r.Ok? <==> principal > 0 && 1 <= count <= MAX_INSTALLMENTS && bp >= 0
    ensures r.Err? ==> r.error == ScheduleTerms
    ensures r.Ok? ==> |r.value| == count && forall k | 0 <= k < count :: InItsPlace(r.value[k], firstDue, k)
    ensures r.Ok? && InRange(principal, count, bp) ==> Written(r.value, Plan(principal, count, bp), firstDue)
  {
    if principal <= 0 || count < 1 || count > MAX_INSTALLMENTS || bp < 0 {
      return Err(ScheduleTerms);
    }
    var out := new ScheduledInstallment[count];
    for i := 0 to count
      invariant forall k | 0 <= k < i :: out[k] == Dated(firstDue, k)
    {
      out[i] := Dated(firstDue, i);
    }
    if bp == 0 {
      FillEven(out, principal, firstDue);
    } else {
      InterestIsOrdered(bp);
      PaymentCoversInterest(principal, count, bp);
      FillTable(out, principal, Wrap(Payment(principal, count, bp)), InterestAt(bp), firstDue);
    }
    r := Ok(out[..]);
  }

  /** Its number and its date, and an amount of sixty-four bits, whatever was priced. */
  predicate InItsPlace(row: ScheduledInstallment, firstDue: Date, k: nat)
    requires firstDue.Valid()
  {
    row.sequence == k + 1 && row.dueOn == AddMonths(firstDue, k) && Fits(row.amount)
  }

  function Dated(firstDue: Date, k: nat): ScheduledInstallment
    requires firstDue.month >= 1
  {
    ScheduledInstallment(k + 1, AddMonths(firstDue, k), 0, Parts(0, 0))
  }

  function Priced(firstDue: Date, k: nat, parts: Parts): ScheduledInstallment
    requires firstDue.month >= 1
  {
    Dated(firstDue, k).(amount := parts.Amount(), parts := parts)
  }

  /** The branch without interest. */
  method FillEven(out: array<ScheduledInstallment>, principal: int, firstDue: Date)
    requires 0 < principal <= MAX && out.Length > 0 && firstDue.Valid()
    requires forall k | 0 <= k < out.Length :: out[k] == Dated(firstDue, k)
    modifies out
    ensures forall k | 0 <= k < out.Length :: InItsPlace(out[k], firstDue, k)
    ensures Written(out[..], Plan(principal, out.Length, 0), firstDue)
  {
    var count := out.Length;
    var base := principal / count;
    var extra := principal - base * count;
    Division(principal, count);
    ghost var plan := Plan(principal, count, 0);
    for i := 0 to count
      invariant forall k | 0 <= k < i :: out[k] == Priced(firstDue, k, plan[k])
      invariant forall k | i <= k < count :: out[k] == Dated(firstDue, k)
    {
      var part := base;
      if i < extra {
        part := part + 1;
      }
      out[i] := out[i].(amount := part, parts := Parts(part, 0));
    }
    EvenPartsFit(principal, count);
  }

  lemma EvenPartsFit(principal: nat, count: nat)
    requires 0 < principal <= MAX && count > 0
    ensures AllFit(EvenParts(principal / count, principal % count, count))
  {
    Division(principal, count);
    ProductGrows(1, count, principal / count);
  }

  /** The branch with interest: the rows of a level payment, closed by the last one. */
  method FillTable(out: array<ScheduledInstallment>, principal: int, payment: int, interestAt: Interest, firstDue: Date)
    requires principal > 0 && out.Length > 0 && firstDue.Valid() && Ordered(interestAt)
    requires forall k | 0 <= k < out.Length :: out[k] == Dated(firstDue, k)
    modifies out
    ensures forall k | 0 <= k < out.Length :: InItsPlace(out[k], firstDue, k)
    ensures var plan := Table(principal, payment, interestAt, out.Length);
            Fits(principal) && Fits(payment) && payment >= interestAt(principal) && AllFit(plan) ==>
              Written(out[..], plan, firstDue)
  {
    var count := out.Length;
    var balance := principal;
    ghost var plan := Table(principal, payment, interestAt, count);
    ghost var fits := Fits(principal) && Fits(payment) && payment >= interestAt(principal) && AllFit(plan);
    for i := 0 to count
      invariant forall k | 0 <= k < count :: InItsPlace(out[k], firstDue, k)
      invariant fits ==> Filling(out[..], plan, balance, payment, interestAt, i, firstDue)
    {
      ghost var before := out[..];
      var parts := RowInRange(balance, payment, interestAt, i == count - 1);
      out[i] := out[i].(amount := Wrap(parts.Amount()), parts := parts);
      if fits {
        FillStep(before, plan, balance, payment, interestAt, i, firstDue);
        assert out[..] == before[i := before[i].(amount := Wrap(parts.Amount()), parts := parts)];
      }
      balance := Wrap(balance - parts.principal);
    }
  }

  /** The first i rows are the plan's, and the rest of the plan is the table on the balance left. */
  ghost predicate Filling(rows: seq<ScheduledInstallment>, plan: seq<Parts>, balance: int, payment: int,
      interestAt: Interest, i: nat, firstDue: Date)
  {
    && firstDue.Valid() && |rows| == |plan| && i <= |plan|
    && Fits(balance) && Fits(payment) && 0 <= balance && payment >= interestAt(balance)
    && plan[i..] == Table(balance, payment, interestAt, |plan| - i)
    && (forall k | 0 <= k < i :: rows[k] == Priced(firstDue, k, plan[k]))
    && forall k | i <= k < |rows| :: rows[k] == Dated(firstDue, k)
  }

  lemma FillStep(rows: seq<ScheduledInstallment>, plan: seq<Parts>, balance: int, payment: int, interestAt: Interest,
      i: nat, firstDue: Date)
    requires Filling(rows, plan, balance, payment, interestAt, i, firstDue) && i < |plan| && Ordered(interestAt)
             && AllFit(plan)
    ensures var parts := RowInRange(balance, payment, interestAt, i == |plan| - 1);
            Filling(rows[i := rows[i].(amount := Wrap(parts.Amount()), parts := parts)], plan,
                    Wrap(balance - parts.principal), payment, interestAt, i + 1, firstDue)
  {
    NextOfThePlan(plan, balance, payment, interestAt, i);
    RowFilled(rows, plan, i, firstDue);
  }

  lemma NextOfThePlan(plan: seq<Parts>, balance: nat, payment: int, interestAt: Interest, i: nat)
    requires i < |plan| && Ordered(interestAt) && AllFit(plan) && Fits(balance) && Fits(payment)
             && payment >= interestAt(balance)
    requires plan[i..] == Table(balance, payment, interestAt, |plan| - i)
    ensures var parts := RowInRange(balance, payment, interestAt, i == |plan| - 1);
            && plan[i] == parts && 0 <= parts.principal <= balance
            && plan[i + 1..] == Table(balance - parts.principal, payment, interestAt, |plan| - (i + 1))
            && payment >= interestAt(balance - parts.principal)
  {
    assert plan[i] == plan[i..][0] && plan[i + 1..] == plan[i..][1..];
    FirstRow(balance, payment, interestAt, |plan| - i);
  }

  lemma RowFilled(rows: seq<ScheduledInstallment>, plan: seq<Parts>, i: nat, firstDue: Date)
    requires firstDue.Valid() && |rows| == |plan| && i < |plan| && Fits(plan[i].Amount())
    requires forall k | 0 <= k < i :: rows[k] == Priced(firstDue, k, plan[k])
    requires forall k | i <= k < |rows| :: rows[k] == Dated(firstDue, k)
    ensures var after := rows[i := rows[i].(amount := Wrap(plan[i].Amount()), parts := plan[i])];
            && (forall k | 0 <= k < i + 1 :: after[k] == Priced(firstDue, k, plan[k]))
            && forall k | i + 1 <= k < |rows| :: after[k] == Dated(firstDue, k)
  {
  }

  /** One row, every step of it in sixty-four bits. */
  function RowInRange(balance: int, payment: int, interestAt: Interest, last: bool): Parts {
    var interest := Wrap(interestAt(balance));
    var part := Wrap(payment - interest);
    Parts(if last || part > balance then balance else part, interest)
  }

  /** The first row of a table on a balance whose interest the payment covers, where its amount fits:
      sixty-four bits are enough, and the rest is the table on what is left. */
  lemma FirstRow(balance: nat, payment: int, interest: Interest, left: nat)
    requires Ordered(interest) && left > 0 && Fits(balance) && Fits(payment) && payment >= interest(balance)
    requires Fits(Table(balance, payment, interest, left)[0].Amount())
    ensures var rows := Table(balance, payment, interest, left);
            && rows[0] == RowInRange(balance, payment, interest, left == 1)
            && 0 <= rows[0].principal <= balance
            && rows[1..] == Table(balance - rows[0].principal, payment, interest, left - 1)
            && payment >= interest(balance - rows[0].principal)
  {
  }

  // ---------------------------------------------------------------- the schedule closes

  lemma {:induction false} TableCloses(balance: int, payment: int, interest: Interest, left: nat)
    requires left > 0
    ensures Sum(Table(balance, payment, interest, left)) == balance
    decreases left
  {
    var rows := Table(balance, payment, interest, left);
    if left > 1 {
      TableCloses(balance - rows[0].principal, payment, interest, left - 1);
      assert rows[1..] == Table(balance - rows[0].principal, payment, interest, left - 1);
    } else {
      assert rows[1..] == [];
    }
  }

  predicate NonNegativeRows(rows: seq<Parts>) {
    forall k | 0 <= k < |rows| :: rows[k].principal >= 0 && rows[k].interest >= 0
  }

  predicate InterestNeverRises(rows: seq<Parts>) {
    forall j, k | 0 <= j <= k < |rows| :: rows[k].interest <= rows[j].interest
  }

  /** A payment that covers the first interest covers every one, so no part is negative. */
  lemma {:induction false} TableOrdered(balance: nat, payment: int, interest: Interest, left: nat)
    requires Ordered(interest) && left > 0 && payment >= interest(balance)
    ensures NonNegativeRows(Table(balance, payment, interest, left))
    ensures InterestNeverRises(Table(balance, payment, interest, left))
    decreases left
  {
    var rows := Table(balance, payment, interest, left);
    var after := balance - rows[0].principal;
    if left > 1 {
      TableOrdered(after, payment, interest, left - 1);
      assert rows[1..] == Table(after, payment, interest, left - 1);
      assert forall k | 1 <= k < left :: rows[k] == rows[1..][k - 1];
      assert rows[1..][0].interest == interest(after);
    }
  }

  /** The level payment covers the interest on the whole principal. */
  lemma PaymentCoversInterest(principal: nat, count: nat, bp: nat)
    requires count > 0 && bp > 0
    ensures Payment(principal, count, bp) >= InterestAt(bp)(principal) >= 0
  {
    PowersDiffer(count, bp);
    var w, g, d := principal * bp, Power(10_000 + bp, count), Power(10_000, count);
    NonNegative(principal, bp);
    InterestIsOrdered(bp);
    NonNegative(w, d);
    assert w * PaymentDenominator(count, bp) == 10_000 * (w * g) - 10_000 * (w * d);
    RoundingIsMonotone(w, 10_000, PaymentNumerator(principal, count, bp), PaymentDenominator(count, bp));
  }

  lemma EvenPartsOrdered(principal: nat, count: nat)
    requires principal > 0 && count > 0
    ensures var rows := EvenParts(principal / count, principal % count, count);
            NonNegativeRows(rows) && InterestNeverRises(rows)
  {
    Division(principal, count);
  }

  /** The schedule closes the principal exactly; no part is negative and interest never rises. */
  lemma PlanClosesThePrincipal(principal: nat, count: nat, bp: nat)
    requires principal > 0 && count > 0
    ensures var rows := Plan(principal, count, bp);
            Sum(rows) == principal && NonNegativeRows(rows) && InterestNeverRises(rows)
  {
    if bp == 0 {
      Division(principal, count);
      EvenPartsSum(principal / count, principal % count, count);
      EvenPartsOrdered(principal, count);
    } else {
      PaymentCoversInterest(principal, count, bp);
      TableCloses(principal, Payment(principal, count, bp), InterestAt(bp), count);
      InterestIsOrdered(bp);
      TableOrdered(principal, Payment(principal, count, bp), InterestAt(bp), count);
    }
  }

  /** Without interest the amounts never rise, and differ by at most one unit. */
  lemma EvenAmounts(principal: nat, count: nat, j: nat, k: nat)
    requires principal > 0 && j <= k < count
    ensures var rows := Plan(principal, count, 0);
            rows[k].Amount() <= rows[j].Amount() <= rows[k].Amount() + 1
  {
  }

  // ---------------------------------------------------------------- how far the last row is

  function RateOf(bp: nat): real {
    bp as real / 10_000.0
  }

  /** An amount left to grow for n periods: amount * (1+i)^n. */
  function Grown(amount: real, i: real, n: nat): real
    decreases n
  {
    if n == 0 then amount else Grown(amount + amount * i, i, n - 1)
  }

  /** 1 + (1+i) + ... + (1+i)^(n-1). */
  function Spread(i: real, n: nat): real {
    if n == 0 then 0.0 else Spread(i, n - 1) + Grown(1.0, i, n - 1)
  }

  /** Where a balance would be after n periods with nothing rounded. */
  function Exact(balance: real, payment: real, i: real, n: nat): real
    decreases n
  {
    if n == 0 then balance else Exact(balance + balance * i - payment, payment, i, n - 1)
  }

  /** One period of a balance nothing is clamped on, below zero too. */
  function Period(balance: int, payment: int, interest: Interest): int {
    balance + interest(balance) - payment
  }

  function Free(balance: int, payment: int, interest: Interest, n: nat): int
    decreases n
  {
    if n == 0 then balance else Free(Period(balance, payment, interest), payment, interest, n - 1)
  }

  lemma {:induction false} GrownAdds(a: real, b: real, i: real, n: nat)
    ensures Grown(a + b, i, n) == Grown(a, i, n) + Grown(b, i, n)
    decreases n
  {
    if n > 0 {
      assert (a + b) * i == a * i + b * i;
      GrownAdds(a + a * i, b + b * i, i, n - 1);
    }
  }

  lemma {:induction false} GrownIsPositive(a: real, i: real, n: nat)
    requires a >= 0.0 && i >= 0.0
    ensures Grown(a, i, n) >= a
    decreases n
  {
    if n > 0 {
      assert a * i >= 0.0;
      GrownIsPositive(a + a * i, i, n - 1);
    }
  }

  lemma GrownWithin(e: real, i: real, n: nat)
    requires -1.0 <= e <= 1.0 && i >= 0.0
    ensures -Grown(1.0, i, n) <= Grown(e, i, n) <= Grown(1.0, i, n)
  {
    GrownAdds(e, 1.0 - e, i, n);
    GrownAdds(-1.0, 1.0, i, n);
    GrownAdds(e, -1.0 - e, i, n);
    GrownAdds(-1.0 - e, 1.0 + e, i, n);
    GrownAdds(0.0, 0.0, i, n);
    GrownIsPositive(1.0 - e, i, n);
    GrownIsPositive(1.0 + e, i, n);
  }

  lemma {:induction false} ExactShifts(balance: real, e: real, payment: real, i: real, n: nat)
    ensures Exact(balance + e, payment, i, n) == Exact(balance, payment, i, n) + Grown(e, i, n)
    decreases n
  {
    if n > 0 {
      assert (balance + e) * i == balance * i + e * i;
      assert balance + e + (balance + e) * i - payment == balance + balance * i - payment + (e + e * i);
      ExactShifts(balance + balance * i - payment, e + e * i, payment, i, n - 1);
    }
  }

  /** Interest is rounded by at most half a unit. */
  ghost predicate Rounds(interest: Interest, i: real) {
    forall b: int :: WithinHalf(interest(b), b, i)
  }

  predicate WithinHalf(r: int, b: int, i: real) {
    -0.5 <= r as real - b as real * i <= 0.5
  }

  lemma InterestIsRounded(bp: nat)
    ensures Rounds(InterestAt(bp), RateOf(bp))
  {
    forall b: int ensures WithinHalf(InterestAt(bp)(b), b, RateOf(bp)) {
      Nearest(b * bp, 10_000);
      BasisPoints(b, bp, RoundRat(b * bp, 10_000));
    }
  }

  lemma OffByAUnit(balance: int, interest: int, payment: int, pmt: real, i: real)
    requires WithinHalf(interest, balance, i) && -0.5 <= payment as real - pmt <= 0.5
    ensures -1.0 <= (balance + interest - payment) as real - (balance as real + balance as real * i - pmt) <= 1.0
  {
  }

  lemma BasisPoints(b: int, bp: nat, r: int)
    requires -10_000 <= 2 * (r * 10_000 - b * bp) <= 10_000
    ensures WithinHalf(r, b, RateOf(bp))
  {
    ProductInReals(b, bp);
    assert b as real * RateOf(bp) == (b * bp) as real / 10_000.0;
  }

  /** A rounded payment and an interest rounded every period put the balance off by at most one unit
      a period, each grown to the end: by the spread. */
  lemma {:induction false} FreeStaysNear(balance: int, payment: int, pmt: real, interest: Interest, i: real, n: nat)
    requires Rounds(interest, i) && i >= 0.0 && -0.5 <= payment as real - pmt <= 0.5
    ensures var e := Free(balance, payment, interest, n) as real - Exact(balance as real, pmt, i, n);
            -Spread(i, n) <= e <= Spread(i, n)
    decreases n
  {
    if n > 0 {
      var b, next := balance as real, Period(balance, payment, interest);
      var x := b + b * i - pmt;
      var e := next as real - x;
      OffByAUnit(balance, interest(balance), payment, pmt, i);
      FreeStaysNear(next, payment, pmt, interest, i, n - 1);
      ExactShifts(x, e, pmt, i, n - 1);
      assert Exact(x + e, pmt, i, n - 1) == Exact(next as real, pmt, i, n - 1);
      ExactPeriod(b, x, pmt, i, n);
      GrownWithin(e, i, n - 1);
    }
  }

  lemma ExactPeriod(b: real, x: real, payment: real, i: real, n: nat)
    requires n > 0 && x == b + b * i - payment
    ensures Exact(b, payment, i, n) == Exact(x, payment, i, n - 1)
  {
  }

  lemma GrownPeriod(b: real, x: real, i: real, n: nat)
    requires n > 0 && x == b + b * i
    ensures Grown(b, i, n) == Grown(x, i, n - 1)
  {
  }

  predicate IsProduct(m: real, a: real, b: real) {
    m == a * b
  }

  /** Growth scales: m is a of b, and stays so. */
  lemma {:induction false} GrownScales(m: real, a: real, b: real, i: real, n: nat)
    requires m == a * b
    ensures IsProduct(Grown(m, i, n), a, Grown(b, i, n))
    decreases n
  {
    if n > 0 {
      var x, y := m + m * i, b + b * i;
      ScalePeriod(m, a, b, i);
      GrownScales(x, a, y, i, n - 1);
      GrownPeriod(m, x, i, n);
      GrownPeriod(b, y, i, n);
    }
  }

  lemma ScalePeriod(m: real, a: real, b: real, i: real)
    requires m == a * b
    ensures m + m * i == a * (b + b * i)
  {
    assert a * (b + b * i) == a * b + a * (b * i);
    assert m * i == a * (b * i);
  }

  predicate IsSpread(s: real, i: real, g: real) {
    s * i == g - 1.0
  }

  /** The spread times the rate is the growth of one unit. */
  lemma {:induction false} SpreadIsTheQuotient(i: real, n: nat)
    ensures IsSpread(Spread(i, n), i, Grown(1.0, i, n))
  {
    if n > 0 {
      SpreadIsTheQuotient(i, n - 1);
      GrownAdds(1.0, i, i, n - 1);
      GrownScales(i, i, 1.0, i, n - 1);
      GrownPeriod(1.0, 1.0 + i, i, n);
      SpreadStep(Spread(i, n - 1), Grown(1.0, i, n - 1), i);
    }
  }

  lemma SpreadStep(s: real, g: real, i: real)
    ensures (s + g) * i == s * i + i * g
  {
  }

  predicate WhatIsLeft(end: real, grown: real, payment: real, spread: real) {
    end == grown - payment * spread
  }

  /** The exact trajectory in closed form. */
  lemma {:induction false} ExactIs(balance: real, payment: real, i: real, n: nat)
    ensures WhatIsLeft(Exact(balance, payment, i, n), Grown(balance, i, n), payment, Spread(i, n))
    decreases n
  {
    if n > 0 {
      ExactIs(balance + balance * i - payment, payment, i, n - 1);
      GrownAdds(balance + balance * i, -payment, i, n - 1);
      GrownScales(-payment, -payment, 1.0, i, n - 1);
      ExactPeriod(balance, balance + balance * i - payment, payment, i, n);
      GrownPeriod(balance, balance + balance * i, i, n);
      SpentStep(payment, Spread(i, n - 1), Grown(1.0, i, n - 1));
    }
  }

  lemma SpentStep(p: real, s: real, g: real)
    ensures p * (s + g) == p * s - (-p) * g
  {
  }

  lemma {:induction false} GrowthIsThePowers(bp: nat, n: nat)
    ensures Grown(Power(10_000, n) as real, RateOf(bp), n) == Power(10_000 + bp, n) as real
  {
    if n > 0 {
      var d, b, i := Power(10_000, n - 1) as real, Power(10_000, n) as real, RateOf(bp);
      var x := (10_000 + bp) as real * d;
      OneMorePower(bp, Power(10_000, n - 1));
      GrownPeriod(b, x, i, n);
      GrownScales(x, (10_000 + bp) as real, d, i, n - 1);
      GrowthIsThePowers(bp, n - 1);
      ProductInReals(10_000 + bp, Power(10_000 + bp, n - 1));
    }
  }

  lemma OneMorePower(bp: nat, d: nat)
    ensures var b := (10_000 * d) as real; (10_000 + bp) as real * d as real == b + b * RateOf(bp)
  {
    var b := (10_000 * d) as real;
    assert b * RateOf(bp) == d as real * bp as real;
  }

  lemma ProductInReals(a: int, b: int)
    ensures (a * b) as real == a as real * b as real
  {
  }

  /** The level payment, before it is rounded, ends the exact balance at nothing. */
  lemma ExactPaymentClears(principal: nat, count: nat, bp: nat, pmt: real)
    requires count > 0 && bp > 0 && PaymentDenominator(count, bp) > 0
    requires pmt == PaymentNumerator(principal, count, bp) as real / PaymentDenominator(count, bp) as real
    ensures Exact(principal as real, pmt, RateOf(bp), count) == 0.0
  {
    var i, p, q := RateOf(bp), Power(10_000 + bp, count), Power(10_000, count);
    PowersDiffer(count, bp);
    ExactIs(principal as real, pmt, i, count);
    GrownScales(principal as real, principal as real, 1.0, i, count);
    GrowthIsThePowers(bp, count);
    GrownScales(q as real, q as real, 1.0, i, count);
    SpreadIsTheQuotient(i, count);
    FractionInReals(principal, bp, p, q, PaymentNumerator(principal, count, bp), PaymentDenominator(count, bp));
    Cancel(pmt, principal as real, bp as real, Grown(1.0, i, count), q as real, p as real, Spread(i, count), i,
           Exact(principal as real, pmt, i, count), Grown(principal as real, i, count));
  }

  lemma FractionInReals(principal: nat, bp: nat, p: nat, q: nat, num: int, den: int)
    requires num == principal * bp * p && den == 10_000 * (p - q) && den > 0
    ensures num as real / den as real * (10_000.0 * (p as real - q as real))
            == principal as real * bp as real * p as real
  {
    assert den as real == 10_000.0 * (p as real - q as real);
    ProductInReals(principal, bp);
    ProductInReals(principal * bp, p);
  }

  /** With the powers cancelled, the payment times the spread is the principal grown. */
  lemma Cancel(pmt: real, p: real, bp: real, g: real, d: real, a: real, s: real, i: real, end: real, grown: real)
    requires d > 0.0 && bp > 0.0 && i == bp / 10_000.0
    requires IsProduct(a, d, g) && IsSpread(s, i, g) && IsProduct(grown, p, g) && WhatIsLeft(end, grown, pmt, s)
    requires pmt * (10_000.0 * (a - d)) == p * bp * a
    ensures end == 0.0
  {
    assert a - d == d * (g - 1.0) == d * (s * i);
    assert 10_000.0 * (d * (s * i)) == d * s * bp;
    assert pmt * (d * s * bp) == (pmt * s) * (bp * d);
    assert p * bp * (d * g) == (p * g) * (bp * d);
    assert bp * d > 0.0;
    assert (pmt * s - p * g) * (bp * d) == 0.0;
  }

  lemma NearInReals(num: int, den: int, r: int)
    requires den > 0 && -den <= 2 * (r * den - num) <= den
    ensures -0.5 <= r as real - num as real / den as real <= 0.5
  {
    ProductInReals(r, den);
    Nearness(r as real, num as real, den as real);
  }

  lemma Nearness(x: real, n: real, d: real)
    requires d > 0.0 && -d <= 2.0 * (x * d - n) <= d
    ensures -0.5 <= x - n / d <= 0.5
  {
    var e := x - n / d;
    assert e * d == x * d - n / d * d;
    assert (e - 0.5) * d <= 0.0 && (e + 0.5) * d >= 0.0;
  }

  lemma PaymentEndsNearZero(principal: nat, count: nat, bp: nat)
    requires count > 0 && bp > 0
    ensures var s, end :=
            Spread(RateOf(bp), count), Free(principal, Payment(principal, count, bp), InterestAt(bp), count) as real;
            -s <= end <= s
  {
    PowersDiffer(count, bp);
    var num, den := PaymentNumerator(principal, count, bp), PaymentDenominator(count, bp);
    var pmt := num as real / den as real;
    Nearest(num, den);
    NearInReals(num, den, RoundRat(num, den));
    ExactPaymentClears(principal, count, bp, pmt);
    InterestIsRounded(bp);
    FreeStaysNear(principal, RoundRat(num, den), pmt, InterestAt(bp), RateOf(bp), count);
  }

  /** A balance below zero only sinks. */
  lemma {:induction false} FreeSinks(balance: int, payment: int, interest: Interest, n: nat)
    requires Ordered(interest) && balance < 0 && payment >= 0
    ensures Free(balance, payment, interest, n) < if n > 0 then -payment else 0
    decreases n
  {
    if n > 0 {
      FreeSinks(Period(balance, payment, interest), payment, interest, n - 1);
    }
  }

  lemma {:induction false} NothingLeft(payment: int, interest: Interest, left: nat)
    requires Ordered(interest) && payment >= 0
    ensures forall k | 0 <= k < left :: Table(0, payment, interest, left)[k] == Parts(0, 0)
  {
    if left > 0 {
      NothingLeft(payment, interest, left - 1);
    }
  }

  lemma ClampedBefore(balance: nat, payment: int, interest: Interest, left: nat, rest: seq<Parts>)
    requires Ordered(interest) && left > 1 && payment >= 0 && Period(balance, payment, interest) < 0
    requires rest == Table(0, payment, interest, left - 1)
    ensures rest[left - 2] == Parts(0, 0) && Free(balance, payment, interest, left) < -payment
  {
    NothingLeft(payment, interest, left - 1);
    FreeSinks(Period(balance, payment, interest), payment, interest, left - 1);
  }

  /** The last row is what an unclamped balance would have ended at, over the payment -- or nothing,
      because a row before it took the whole balance. */
  lemma {:induction false} LastRow(balance: nat, payment: int, interest: Interest, left: nat)
    requires Ordered(interest) && left > 0 && payment >= 0
    ensures var last, end :=
            Table(balance, payment, interest, left)[left - 1].Amount(), Free(balance, payment, interest, left);
            last - payment == end || (last == 0 && end < -payment)
    decreases left
  {
    var first, rest := TableInTwo(balance, payment, interest, left);
    var period := Period(balance, payment, interest);
    if left == 1 {
      assert Free(balance, payment, interest, 1) == Free(period, payment, interest, 0);
    } else {
      assert ([first] + rest)[left - 1] == rest[left - 2];
      if period < 0 {
        ClampedBefore(balance, payment, interest, left, rest);
      } else {
        LastRow(balance - first.principal, payment, interest, left - 1);
      }
    }
  }

  /** What a row before the last is: the level payment, or less with nothing left after it. */
  predicate LevelAt(rows: seq<Parts>, payment: int, k: nat)
    requires k < |rows|
  {
    || rows[k].Amount() == payment
    || (rows[k].Amount() < payment && forall j | k < j < |rows| :: rows[j] == Parts(0, 0))
  }

  lemma {:induction false} EarlierRows(balance: nat, payment: int, interest: Interest, left: nat, k: nat)
    requires Ordered(interest) && payment >= 0 && k < left - 1
    ensures LevelAt(Table(balance, payment, interest, left), payment, k)
    decreases left
  {
    var first, rest := TableInTwo(balance, payment, interest, left);
    if payment - first.interest > balance {
      RestIsNothing(payment, interest, left - 1, rest);
      LevelBeforeNothing(first, rest, payment, k);
    } else if k == 0 {
      FirstIsLevel(first, rest, payment);
    } else {
      EarlierRows(balance - first.principal, payment, interest, left - 1, k - 1);
      LevelLater(first, rest, payment, k);
    }
  }

  lemma RestIsNothing(payment: int, interest: Interest, left: nat, rest: seq<Parts>)
    requires Ordered(interest) && payment >= 0 && rest == Table(0, payment, interest, left)
    ensures forall k | 0 <= k < left :: rest[k] == Parts(0, 0)
  {
    NothingLeft(payment, interest, left);
  }

  lemma FirstIsLevel(first: Parts, rest: seq<Parts>, payment: int)
    requires first.Amount() == payment
    ensures LevelAt([first] + rest, payment, 0)
  {
  }

  lemma TableInTwo(balance: int, payment: int, interest: Interest, left: nat) returns (first: Parts, rest: seq<Parts>)
    requires left > 0
    ensures Table(balance, payment, interest, left) == [first] + rest && |rest| == left - 1
    ensures first.interest == interest(balance)
    ensures first.principal == if left == 1 || payment - first.interest > balance then balance
            else payment - first.interest
    ensures rest == Table(balance - first.principal, payment, interest, left - 1)
  {
    var due := interest(balance);
    first := Parts(if left == 1 || payment - due > balance then balance else payment - due, due);
    rest := Table(balance - first.principal, payment, interest, left - 1);
  }

  lemma LevelBeforeNothing(first: Parts, rest: seq<Parts>, payment: int, k: nat)
    requires k <= |rest| && first.Amount() < payment && forall j | 0 <= j < |rest| :: rest[j] == Parts(0, 0)
    requires payment >= 0
    ensures LevelAt([first] + rest, payment, k)
  {
    assert forall j | 0 < j < |rest| + 1 :: ([first] + rest)[j] == Parts(0, 0);
  }

  lemma LevelLater(first: Parts, rest: seq<Parts>, payment: int, k: nat)
    requires 0 < k <= |rest| && LevelAt(rest, payment, k - 1)
    ensures LevelAt([first] + rest, payment, k)
  {
    assert forall j | 0 < j < |rest| + 1 :: ([first] + rest)[j] == rest[j - 1];
  }

  lemma QuotientOf(s: real, i: real, g: real)
    requires i > 0.0 && IsSpread(s, i, g)
    ensures s == (g - 1.0) / i
  {
  }

  /** What a schedule says about a level payment: every row before the last is that payment, or
      closed the balance for less and left the rows after it empty; the last is near it. */
  predicate Level(rows: seq<Parts>, payment: int, bound: real) {
    && rows != []
    && -bound <= (rows[|rows| - 1].Amount() - payment) as real <= bound
    && forall k | 0 <= k < |rows| - 1 :: LevelAt(rows, payment, k)
  }

  lemma TableIsLevel(balance: nat, payment: nat, interest: Interest, left: nat, bound: real)
    requires Ordered(interest) && left > 0 && -bound <= Free(balance, payment, interest, left) as real <= bound
    ensures Level(Table(balance, payment, interest, left), payment, bound)
  {
    var rows := Table(balance, payment, interest, left);
    LastRow(balance, payment, interest, left);
    forall k | 0 <= k < left - 1 ensures LevelAt(rows, payment, k) {
      EarlierRows(balance, payment, interest, left, k);
    }
  }

  /** The Price table's error bound: although interest is rounded on every row and a row may be
      clamped to the balance, the last installment differs from the level payment by at most
      ((1+i)^n - 1)/i minor units. */
  lemma PriceTableErrorBound(principal: nat, count: nat, bp: nat, i: real)
    requires principal > 0 && count > 0 && bp > 0 && i == RateOf(bp)
    ensures Level(Plan(principal, count, bp), Payment(principal, count, bp), (Grown(1.0, i, count) - 1.0) / i)
  {
    var payment, bound := Payment(principal, count, bp), (Grown(1.0, i, count) - 1.0) / i;
    RateIsPositive(bp);
    SpreadInClosedForm(i, count);
    PaymentCoversInterest(principal, count, bp);
    PaymentEndsNearZero(principal, count, bp);
    InterestIsOrdered(bp);
    PlanIsLevel(principal, count, bp, payment, InterestAt(bp), bound);
  }

  lemma RateIsPositive(bp: nat)
    requires bp > 0
    ensures RateOf(bp) > 0.0
  {
  }

  lemma PlanIsLevel(principal: nat, count: nat, bp: nat, payment: nat, interest: Interest, bound: real)
    requires principal > 0 && count > 0 && bp > 0 && Ordered(interest)
    requires Plan(principal, count, bp) == Table(principal, payment, interest, count)
    requires -bound <= Free(principal, payment, interest, count) as real <= bound
    ensures Level(Plan(principal, count, bp), payment, bound)
  {
    TableIsLevel(principal, payment, interest, count, bound);
  }

  lemma SpreadInClosedForm(i: real, count: nat)
    requires i > 0.0
    ensures Spread(i, count) == (Grown(1.0, i, count) - 1.0) / i
  {
    SpreadIsTheQuotient(i, count);
    QuotientOf(Spread(i, count), i, Grown(1.0, i, count));
  }
}
