/** What the calls on an agreement write, row by row, said without the functions that compute it
    (OpenCredit, PayInstallment, PayOffCredit, CancelCredit and SweepCredit of credit.go). */
module CreditWrites {
  import opened Int64
  import opened Outcome
  import opened Arithmetic
  import opened Rounding
  import opened Sums
  import opened Calendar
  import opened CreditQuotes
  import opened PriceTable
  import opened CreditBook

  // ---------------------------------------------------------------- opening

  function Principals(plan: seq<Parts>): seq<int> {
    seq(|plan|, k requires 0 <= k < |plan| => plan[k].principal)
  }

  lemma {:induction false} PrincipalsAddUp(plan: seq<Parts>)
    ensures Total(Principals(plan)) == Sum(plan)
  {
    if plan != [] {
      PrincipalsAddUp(plan[1..]);
      TotalOfConcat([plan[0].principal], Principals(plan[1..]));
      assert Principals(plan) == [plan[0].principal] + Principals(plan[1..]);
      TotalOfOneMore([], plan[0].principal);
      assert [] + [plan[0].principal] == [plan[0].principal];
    }
  }

  /** An agreement opens owing its principal, in the parts of the plan, and none of it overdue. */
  lemma OpensOnItsPrincipal(rows: seq<Installment>, principal: nat, count: nat, bp: nat, firstDue: Date)
    requires principal > 0 && count > 0 && firstDue.Valid() && AsPlanned(rows, Plan(principal, count, bp), firstDue)
    ensures Total(OpenPrincipals(rows)) == principal
    ensures forall k | 0 <= k < |rows| :: rows[k].Priced() && rows[k].dueOn >= firstDue.Number()
  {
    var plan := Plan(principal, count, bp);
    PlanClosesThePrincipal(principal, count, bp);
    OpenPrincipalsArePlanned(rows, plan, firstDue);
    PrincipalsAddUp(plan);
    NoneDueBefore(rows, plan, firstDue);
  }

  lemma OpenPrincipalsArePlanned(rows: seq<Installment>, plan: seq<Parts>, firstDue: Date)
    requires firstDue.Valid() && AsPlanned(rows, plan, firstDue)
    ensures OpenPrincipals(rows) == Principals(plan)
  {
  }

  lemma NoneDueBefore(rows: seq<Installment>, plan: seq<Parts>, firstDue: Date)
    requires firstDue.Valid() && AsPlanned(rows, plan, firstDue)
    ensures forall k | 0 <= k < |rows| :: rows[k].dueOn >= firstDue.Number()
  {
    forall k | 0 <= k < |rows| ensures rows[k].dueOn >= firstDue.Number() {
      AddMonthsKeepsTheDay(firstDue, k);
      if k > 0 {
        DueDatesIncrease(firstDue, 0, k);
      }
    }
  }

  /** Before the first installment is due a payoff is the principal to the unit: all of the interest is
      taken off, and nothing is late. Whatever lateness would cost, and in sixty-four bits. */
  lemma PayingOffEarlyCostsThePrincipal(
      rows: seq<Installment>, principal: nat, count: nat, bp: nat, firstDue: Date, a: Agreement, today: int)
    requires 0 < principal <= MAX && count > 0 && firstDue.Valid()
    requires AsPlanned(rows, Plan(principal, count, bp), firstDue) && today < firstDue.Number()
    ensures QuoteOfPayoff(LatenessOn(a, today), rows, today).total == principal
    ensures QuoteOfPayoff(LatenessOn(a, today), rows, today).charges == 0
  {
    OpensOnItsPrincipal(rows, principal, count, bp, firstDue);
    NothingYetDue(LatenessOn(a, today), rows, today);
  }

  lemma NothingYetDue(lateness: Lateness, rows: seq<Installment>, today: int)
    requires forall k | 0 <= k < |rows| :: rows[k].Priced() && rows[k].dueOn > today
    requires Fits(Total(OpenPrincipals(rows)))
    ensures QuoteOfPayoff(lateness, rows, today).total == Total(OpenPrincipals(rows))
    ensures QuoteOfPayoff(lateness, rows, today).charges == 0
  {
    TotalOfZeros(PricedCharges(lateness, rows, today));
    TotalOfSums(OpenPrincipals(rows), Rebates(rows, today), OpenAmounts(rows));
  }

  // ---------------------------------------------------------------- a quote

  /** What lateness costs, without the rounding that computes it: nothing up to the due date; after it the
      whole numbers nearest to the share of the amount, once, and to a thirtieth of the monthly one, by
      the day; a tie goes up. */
  lemma WhatLatenessCosts(a: Agreement, i: Installment, today: int)
    requires i.amount >= 0 && QuoteFits(a, i, today)
    ensures var q, days := QuoteInstallment(a, i, today), today - i.dueOn;
            if days <= 0 then q == InstallmentQuote(0, 0, 0, i.amount)
            else
              && q.daysLate == days && q.total == i.amount + q.lateFee + q.mora
              && -10_000 < 2 * (q.lateFee * 10_000 - i.amount * a.lateFeeBP) <= 10_000
              && -300_000 < 2 * (q.mora * 300_000 - i.amount * a.moraRateBP * days) <= 300_000
  {
    QuoteIsExact(a, i, today);
    if today > i.dueOn {
      NonNegative(i.amount, a.lateFeeBP);
      NonNegative(i.amount, a.moraRateBP);
      NonNegative(i.amount * a.moraRateBP, today - i.dueOn);
      Nearest(i.amount * a.lateFeeBP, 10_000);
      Nearest(i.amount * a.moraRateBP * (today - i.dueOn), 300_000);
    }
  }

  /** An installment of a payoff: without its interest before its day, and on it or after it what the
      installment alone would cost. */
  lemma WhatClearsAnInstallment(a: Agreement, i: Installment, today: int)
    requires QuoteFits(a, i, today)
    ensures Clears(a, i, today) ==
            if i.status != Open then 0
            else if today < i.dueOn then i.amount - i.interestPart
            else QuoteInstallment(a, i, today).total
  {
    QuoteIsExact(a, i, today);
  }

  // ---------------------------------------------------------------- what is written

  /** The rows of b but one, and its terms and rebate. */
  predicate OnlyTheRow(b: Book, c: Book, k: nat) {
    && |c.installments| == |b.installments| && SameButStatus(b.agreement, c.agreement)
    && forall j | 0 <= j < |b.installments| && j != k :: c.installments[j] == b.installments[j]
  }

  predicate SameButStatus(a: Agreement, c: Agreement) {
    && c.lateFeeBP == a.lateFeeBP && c.moraRateBP == a.moraRateBP && c.rebate == a.rebate
    && c.delinquentAfterDays == a.delinquentAfterDays
  }

  /** A payment writes what was paid and what lateness cost that day on its installment, and deposits
      the installment's amount; one that is refused writes nothing. */
  lemma PaymentWrites(b: Book, seen: Book, sequence: int, paid: int, today: int)
    requires Follows(seen, b)
    ensures var answer := PayAnswer(b, seen, sequence, paid, today);
            if answer.refused.Some? then answer.book == b
            else
              var k, c := sequence - 1, answer.book;
              && 0 <= k < |b.installments| && b.installments[k].status == Open && OnlyTheRow(b, c, k)
              && var i, q := b.installments[k], QuoteInstallment(b.agreement, b.installments[k], today);
                 && c.installments[k] == Installment(i.sequence, i.dueOn, i.amount, i.principalPart, i.interestPart,
                                                     Paid, i.overdue, paid, q.lateFee, q.mora)
                 && c.ledger == b.ledger + [Deposited(i.amount)]
  {
    var answer := PayAnswer(b, seen, sequence, paid, today);
    if answer.refused.None? {
      assert SameInstallment(seen.installments[sequence - 1], b.installments[sequence - 1]);
      SameTermsSameQuote(seen, b, sequence - 1, today);
    }
  }

  /** A payoff closes every installment it read as open, at what each costs that day, and writes the
      rebate; what it deposits is what they add up to. */
  lemma PayoffWrites(b: Book, seen: Book, paid: int, today: int)
    requires Follows(seen, b) && PayoffFits(seen.agreement, seen.installments, today)
    ensures var answer := PayOffAnswer(b, seen, QuoteOf(seen, today), paid, today);
            if answer.refused.Some? then answer.book == b
            else
              var c := answer.book;
              && |c.installments| == |b.installments|
              && c.ledger == b.ledger + [Deposited(OpenSum(seen.installments))]
              && c.agreement.status == Settled && c.agreement.rebate == Total(Rebates(seen.installments, today))
              && SameButStatus(b.agreement, c.agreement.(rebate := b.agreement.rebate))
              && forall k | 0 <= k < |b.installments| ::
                   PaidOff(b.agreement, b.installments[k], c.installments[k], seen.installments[k].status == Open,
                     today)
  {
    PayoffIsExact(seen.agreement, seen.installments, today);
    var answer := PayOffAnswer(b, seen, QuoteOf(seen, today), paid, today);
    if answer.refused.None? {
      forall k | 0 <= k < |b.installments|
        ensures PaidOff(
                  b.agreement, b.installments[k], answer.book.installments[k], seen.installments[k].status
                    == Open, today)
      {
        PayoffWritesARow(b, seen, k, today);
      }
    }
  }

  /** The row of an installment a payoff closed: before its day paid without its interest, on it or
      after it with what lateness costs. */
  predicate PaidOff(a: Agreement, i: Installment, after: Installment, open: bool, today: int) {
    if !open then after == i
    else if today < i.dueOn then after == i.(status := Paid, paidAmount := i.amount - i.interestPart)
    else
      var q := QuoteInstallment(a, i, today);
      after == i.(status := Paid, paidAmount := q.total, lateFee := q.lateFee, mora := q.mora)
  }

  lemma PayoffWritesARow(b: Book, seen: Book, k: nat, today: int)
    requires Follows(seen, b) && StillOpen(b, seen) && k < |b.installments|
    ensures PaidOff(
              b.agreement, b.installments[k], ClearedRows(b, seen, today)[k], seen.installments[k].status
                == Open, today)
  {
    if IsOpen(seen, k) {
      assert IsOpen(b, k);
      QuoteOfTheSame(seen.agreement, seen.installments[k], b.installments[k], today);
      SameTermsSameQuote(seen, b, k, today);
    }
  }

  /** A cancellation: an agreement read as closed is left as it is, one read or found settled, or found
      closed, refuses; any other is closed, every open installment cancelled, and what was read as open
      deposited. */
  lemma CancelWrites(b: Book, seen: Book)
    ensures var answer := CancelAnswer(b, seen);
            && (answer.refused == if seen.agreement.status == Closed
                                     || (seen.agreement.status != Settled
                                         && b.agreement.status != Settled && b.agreement.status != Closed)
                                  then None else Some(Error.CreditClosed))
            && (answer.refused.Some? || seen.agreement.status == Closed ==> answer.book == b)
            && (answer.refused.None? && seen.agreement.status != Closed ==>
                  var c, owed := answer.book, OpenSum(seen.installments);
                  && c.agreement.status == Closed && SameButStatus(b.agreement, c.agreement)
                  && c.ledger == b.ledger + (if owed > 0 then [Deposited(owed)] else [])
                  && |c.installments| == |b.installments|
                  && forall k | 0 <= k < |b.installments| ::
                       c.installments[k] == if b.installments[k].status == Open
                                            then b.installments[k].(status := Cancelled) else b.installments[k])
  {
  }

  /** A sweep: an installment is overdue once its day has passed while it is open, and stays so; and no
      other column of any row changes. */
  lemma SweepWrites(b: Book, today: int)
    requires b.agreement.status == Active || b.agreement.status == Delinquent
    ensures var c := SweepBook(b, today);
            && c.ledger == b.ledger && |c.installments| == |b.installments| && SameButStatus(b.agreement, c.agreement)
            && forall k | 0 <= k < |b.installments| ::
                 var i, after := b.installments[k], c.installments[k];
                 && after == i.(overdue := after.overdue)
                 && (after.overdue <==> i.overdue || (i.status == Open && today > i.dueOn))
  {
  }

  /** One statement of a sweep, on a reading as stale as it likes: it marks one installment, read as open
      and late and not marked, and open and not marked by then; and nothing else. */
  lemma MarkWrites(b: Book, seen: Book, sequence: int, today: int)
    requires Follows(seen, b)
    ensures var c, k := MarkOverdue(b, seen, sequence, today), sequence - 1;
            var marks := 1 <= sequence <= |b.installments|
                         && (seen.agreement.status == Active || seen.agreement.status == Delinquent)
                         && b.installments[k].status == Open && today > b.installments[k].dueOn
                         && !seen.installments[k].overdue && !b.installments[k].overdue;
            c == if marks then b.(installments := b.installments[k := b.installments[k].(overdue := true)]) else b
  {
    if 1 <= sequence <= |b.installments| {
      assert SameInstallment(seen.installments[sequence - 1], b.installments[sequence - 1]);
      assert IsOpen(b, sequence - 1) ==> IsOpen(seen, sequence - 1);
    }
  }

  /** When an agreement is delinquent after a sweep: it was, or it is active and more days than its grace
      have passed since the due date of an installment still open. The day the grace ends is not one. */
  lemma DelinquentAfterTheGrace(b: Book, today: int)
    requires InOrder(b)
    ensures SweepBook(b, today).agreement.status == Delinquent <==>
            || b.agreement.status == Delinquent
            || (b.agreement.status == Active
                && exists k :: 0 <= k < |b.installments| && b.installments[k].status == Open
                               && today > b.installments[k].dueOn + b.agreement.delinquentAfterDays)
  {
    SweepFindsTheLate(b, today);
    forall k | 0 <= k < |b.installments|
      ensures IsOpen(b, k) && PastGrace(b.agreement, b.installments[k], today) <==>
              b.installments[k].status == Open && today > b.installments[k].dueOn + b.agreement.delinquentAfterDays
    {
    }
  }
}
