/** An agreement over its life: paid, paid off, cancelled and swept, by calls that read first and
    write later (credit.go). */
module CreditBook {
  import opened Int64
  import opened Outcome
  import opened Sums
  import opened Amounts
  import opened CreditQuotes
  import opened Calendar
  import opened PriceTable

  /** A line the agreement wrote in the ledger: what was drawn when it opened, what came back. */
  datatype Line = Drawn(amount: int) | Deposited(amount: int)

  datatype Book = Book(agreement: Agreement, installments: seq<Installment>, ledger: seq<Line>)

  function Movements(ledger: seq<Line>): seq<int> {
    seq(|ledger|, k requires 0 <= k < |ledger| => if ledger[k].Drawn? then ledger[k].amount else -ledger[k].amount)
  }

  /** What was drawn and has not come back. */
  function Debt(ledger: seq<Line>): int {
    Total(Movements(ledger))
  }

  predicate IsOpen(b: Book, k: nat) {
    k < |b.installments| && b.installments[k].status == Open
  }

  predicate NothingOpen(b: Book) {
    forall k | 0 <= k < |b.installments| :: !IsOpen(b, k)
  }

  predicate Ended(status: CreditStatus) {
    status == Settled || status == Closed
  }

  /** The first open installment, in sequence, and the length where there is none. */
  function FirstOpen(ins: seq<Installment>): (k: nat)
    ensures k <= |ins|
    ensures forall j | 0 <= j < k :: ins[j].status != Open
    ensures k < |ins| ==> ins[k].status == Open
  {
    if ins == [] || ins[0].status == Open then 0 else 1 + FirstOpen(ins[1..])
  }

  predicate PastGrace(a: Agreement, i: Installment, today: int) {
    today - i.dueOn > a.delinquentAfterDays
  }

  predicate Dates(schedule: seq<ScheduledInstallment>) {
    forall k | 0 <= k < |schedule| :: schedule[k].dueOn.Valid()
  }

  /** The rows an agreement opens with: its schedule, every installment open. */
  function Opened(schedule: seq<ScheduledInstallment>): (rows: seq<Installment>)
    requires Dates(schedule)
    ensures |rows| == |schedule| && forall k | 0 <= k < |rows| :: rows[k].status == Open
  {
    seq(|schedule|, k requires 0 <= k < |schedule| && schedule[k].dueOn.Valid() =>
      Installment(schedule[k].sequence, schedule[k].dueOn.Number(), schedule[k].amount, schedule[k].parts.principal,
                  schedule[k].parts.interest, Open, false, 0, 0, 0))
  }

  /** What the installments of a plan amount to. */
  function PlannedAmounts(plan: seq<Parts>): seq<int> {
    seq(|plan|, k requires 0 <= k < |plan| => plan[k].principal + plan[k].interest)
  }

  /** Rows as a plan has them: numbered from one, due a month apart from the first date, each of its own
      principal and interest, all open, nothing paid. */
  predicate AsPlanned(rows: seq<Installment>, plan: seq<Parts>, firstDue: Date)
    requires firstDue.Valid()
  {
    && |rows| == |plan|
    && forall k | 0 <= k < |rows| ::
         && AddMonths(firstDue, k).Valid() && rows[k].dueOn == AddMonths(firstDue, k).Number()
         && rows[k].sequence == k + 1 && rows[k].amount == plan[k].principal + plan[k].interest
         && rows[k].principalPart == plan[k].principal && rows[k].interestPart == plan[k].interest
         && rows[k].status == Open && !rows[k].overdue
         && rows[k].paidAmount == 0 && rows[k].lateFee == 0 && rows[k].mora == 0
  }

  lemma DatesOfASchedule(schedule: seq<ScheduledInstallment>, firstDue: Date)
    requires firstDue.Valid() && forall k | 0 <= k < |schedule| :: InItsPlace(schedule[k], firstDue, k)
    ensures Dates(schedule) && forall k | 0 <= k < |schedule| :: Fits(schedule[k].amount)
  {
    forall k | 0 <= k < |schedule| ensures schedule[k].dueOn.Valid() && Fits(schedule[k].amount) {
      assert InItsPlace(schedule[k], firstDue, k);
      AddMonthsKeepsTheDay(firstDue, k);
    }
  }

  lemma OpensAsPlanned(schedule: seq<ScheduledInstallment>, plan: seq<Parts>, firstDue: Date)
    requires firstDue.Valid() && Written(schedule, plan, firstDue) && Dates(schedule)
    ensures AsPlanned(Opened(schedule), plan, firstDue)
    ensures OpenAmounts(Opened(schedule)) == PlannedAmounts(plan)
  {
    forall k | 0 <= k < |schedule|
      ensures AddMonths(firstDue, k).Valid() && schedule[k].dueOn == AddMonths(firstDue, k)
      ensures OpenAmounts(Opened(schedule))[k] == PlannedAmounts(plan)[k]
    {
      AddMonthsKeepsTheDay(firstDue, k);
    }
  }

  /** Of amounts that are not negative every running total fits exactly when the whole does. */
  lemma TotalsFit(plan: seq<Parts>)
    requires NonNegativeRows(plan)
    ensures (forall k | 0 <= k <= |plan| :: Fits(Total(PlannedAmounts(plan)[..k]))) <==>
            Fits(Total(PlannedAmounts(plan)))
  {
    var amounts := PlannedAmounts(plan);
    assert amounts[..|amounts|] == amounts;
    forall k | 0 <= k <= |plan| ensures 0 <= Total(amounts[..k]) <= Total(amounts) {
      PrefixIsNoMore(amounts, k);
    }
  }

  // ---------------------------------------------------------------- what each call does

  /** What a call left, and what it refused, where it did. */
  datatype Answer = Answer(book: Book, refused: Option<Error>)

  function MarkPaid(i: Installment, paid: int, lateFee: int, mora: int): Installment {
    i.(status := Paid, paidAmount := paid, lateFee := lateFee, mora := mora)
  }

  /** What the agreement becomes once an installment was paid: settled with nothing open, and active
      again when it was delinquent and nothing is past its grace any more. */
  function AfterPayment(a: Agreement, seen: CreditStatus, ins: seq<Installment>, today: int): Agreement {
    var first := FirstOpen(ins);
    if first == |ins| then (if Ended(a.status) then a else a.(status := Settled))
    else if seen != Delinquent || PastGrace(a, ins[first], today) then a
    else if a.status == Delinquent then a.(status := Active) else a
  }

  /** PayInstallment: seen is what the call read before its transaction. */
  function PayAnswer(b: Book, seen: Book, sequence: int, paid: int, today: int): Answer {
    if !(1 <= sequence <= |seen.installments| == |b.installments|) then Answer(b, Some(NotFound))
    else
      var k := sequence - 1;
      var i := seen.installments[k];
      if i.status != Open then Answer(b, Some(InstallmentClosed))
      else if Ended(seen.agreement.status) then Answer(b, Some(CreditClosed))
      else if paid <= 0 then Answer(b, Some(AmountNotPositive))
      else
        var q := QuoteInstallment(seen.agreement, i, today);
        if paid < q.total then Answer(b, Some(Underpaid))
        else if b.installments[k].status != Open then Answer(b, Some(InstallmentClosed))
        else
          var ins := b.installments[k := MarkPaid(b.installments[k], paid, q.lateFee, q.mora)];
          Answer(Book(AfterPayment(b.agreement, seen.agreement.status, ins, today), ins,
            b.ledger + [Deposited(i.amount)]), None)
  }

  /** What a payoff writes on an installment it clears. */
  function Cleared(a: Agreement, i: Installment, today: int): Installment {
    if i.status != Open then i
    else if i.dueOn > today then MarkPaid(i, i.amount - i.interestPart, i.lateFee, i.mora)
    else
      var q := QuoteInstallment(a, i, today);
      MarkPaid(i, q.total, q.lateFee, q.mora)
  }

  /** Everything the call read as open is open still. */
  predicate StillOpen(b: Book, seen: Book) {
    && |seen.installments| == |b.installments|
    && forall k | 0 <= k < |b.installments| :: IsOpen(seen, k) ==> IsOpen(b, k)
  }

  /** What a payoff leaves of the installments. */
  function ClearedRows(b: Book, seen: Book, today: int): seq<Installment>
    requires |seen.installments| == |b.installments|
  {
    seq(|b.installments|, k requires 0 <= k < |b.installments| =>
      if IsOpen(seen, k) then Cleared(seen.agreement, b.installments[k], today) else b.installments[k])
  }

  /** PayOffCredit, where quote is what QuotePayoff made of what the call read. */
  function PayOffAnswer(b: Book, seen: Book, quote: PayoffQuote, paid: int, today: int): Answer {
    if Ended(seen.agreement.status) then Answer(b, Some(CreditClosed))
    else if paid <= 0 then Answer(b, Some(AmountNotPositive))
    else if paid < quote.total then Answer(b, Some(Underpaid))
    else if !StillOpen(b, seen) then Answer(b, Some(InstallmentClosed))
    else if Ended(b.agreement.status) then Answer(b, Some(CreditClosed))
    else
      Answer(Book(b.agreement.(status := Settled, rebate := quote.rebate), ClearedRows(b, seen, today),
                  b.ledger + [Deposited(quote.remaining)]), None)
  }

  function AllCancelled(ins: seq<Installment>): seq<Installment> {
    seq(|ins|, k requires 0 <= k < |ins| => if ins[k].status == Open then ins[k].(status := Cancelled) else ins[k])
  }

  /** CancelCredit: what is owed is added up on what the call read, and deposited later. */
  function CancelAnswer(b: Book, seen: Book): Answer {
    if seen.agreement.status == Closed then Answer(b, None)
    else if seen.agreement.status == Settled then Answer(b, Some(CreditClosed))
    else if Ended(b.agreement.status) then Answer(b, Some(CreditClosed))
    else
      var owed := OpenSum(seen.installments);
      Answer(Book(b.agreement.(status := Closed), AllCancelled(b.installments),
                  if owed > 0 then b.ledger + [Deposited(owed)] else b.ledger), None)
  }

  function Swept(i: Installment, today: int): Installment {
    if i.status == Open && today > i.dueOn then i.(overdue := true) else i
  }

  function SweptAll(ins: seq<Installment>, today: int): seq<Installment> {
    seq(|ins|, k requires 0 <= k < |ins| => Swept(ins[k], today))
  }

  /** SweepCredit on one agreement. */
  function SweepBook(b: Book, today: int): Book {
    if Ended(b.agreement.status) then b
    else
      var first := FirstOpen(b.installments);
      var late := first < |b.installments| && PastGrace(b.agreement, b.installments[first], today);
      Book(if b.agreement.status == Active && late then b.agreement.(status := Delinquent) else b.agreement,
           SweptAll(b.installments, today), b.ledger)
  }

  /** One statement of a sweep: an installment it read as open and late is marked, where it is open still
      and not marked yet. */
  function MarkOverdue(b: Book, seen: Book, sequence: int, today: int): Book {
    var k := sequence - 1;
    if 0 <= k < |b.installments| && |seen.installments| == |b.installments| && !Ended(seen.agreement.status)
       && IsOpen(seen, k) && today > seen.installments[k].dueOn && !seen.installments[k].overdue
       && IsOpen(b, k) && !b.installments[k].overdue
    then b.(installments := b.installments[k := b.installments[k].(overdue := true)])
    else b
  }

  /** And its last: an agreement it read as active, with its first open installment past its grace, is
      marked delinquent, where it is active still. */
  function MarkDelinquent(b: Book, seen: Book, today: int): Book {
    var first := FirstOpen(seen.installments);
    if seen.agreement.status == Active && first < |seen.installments|
       && PastGrace(seen.agreement, seen.installments[first], today) && b.agreement.status == Active
    then b.(agreement := b.agreement.(status := Delinquent))
    else b
  }

  // ---------------------------------------------------------------- the calls themselves

  class CreditAgreementRows {
    var agreement: Agreement
    var installments: seq<Installment>
    var ledger: seq<Line>

    function View(): Book
      reads this
    {
      Book(agreement, installments, ledger)
    }

    constructor (lateFeeBP: nat, moraRateBP: nat, grace: int, schedule: seq<ScheduledInstallment>, total: int)
      requires Dates(schedule) && total == OpenSum(Opened(schedule))
      ensures installments == Opened(schedule) && ledger == [Drawn(OpenSum(installments))]
      ensures agreement == Agreement(lateFeeBP, moraRateBP, if grace == 0 then 30 else grace, Active, 0)
    {
      agreement := Agreement(lateFeeBP, moraRateBP, if grace == 0 then 30 else grace, Active, 0);
      installments := Opened(schedule);
      ledger := [Drawn(total)];
    }

    /** The rows of an agreement on a schedule: the total is drawn, and refused exactly where adding the
        installments up leaves the range. */
    static method OpenOn(lateFeeBP: nat, moraRateBP: nat, grace: int, schedule: seq<ScheduledInstallment>)
      returns (r: Result<CreditAgreementRows>)
      requires Dates(schedule) && forall k | 0 <= k < |schedule| :: Fits(schedule[k].amount)
      ensures r.Ok? <==> forall k | 0 <= k <= |schedule| :: Fits(Total(OpenAmounts(Opened(schedule))[..k]))
      ensures r.Err? ==> r.error == AmountOverflow
      ensures r.Ok? ==> fresh(r.value) && Fits(OpenSum(r.value.installments))
      ensures r.Ok? ==>
              r.value.installments == Opened(schedule) && r.value.ledger == [Drawn(OpenSum(r.value.installments))]
      ensures r.Ok? ==>
              r.value.agreement == Agreement(lateFeeBP, moraRateBP, if grace == 0 then 30 else grace, Active, 0)
    {
      var total := 0;
      ghost var amounts := OpenAmounts(Opened(schedule));
      for k := 0 to |schedule|
        invariant total == Total(amounts[..k]) && forall j | 0 <= j <= k :: Fits(Total(amounts[..j]))
      {
        TotalOfPrefix(amounts, k);
        total :- Add(total, schedule[k].amount);
      }
      assert amounts[..|schedule|] == amounts;
      var rows := new CreditAgreementRows(lateFeeBP, moraRateBP, grace, schedule, total);
      r := Ok(rows);
    }

    /** OpenCredit: the terms priced, the total drawn, and the agreement and its installments written with
        it. */
    static method OpenCredit(
      lateFeeBP: nat, moraRateBP: nat, grace: int, principal: int, count: int, bp: int, firstDue: Date)
      returns (r: Result<CreditAgreementRows>)
      requires Fits(principal) && firstDue.Valid()
      ensures var terms := principal > 0 && 1 <= count <= 120 && bp >= 0;
              && (r.Err? ==> r.error == if terms then AmountOverflow else ScheduleTerms)
              && (r.Ok? ==> terms)
              && (terms && InRange(principal, count, bp) ==>
                    (r.Ok? <==> Fits(Total(PlannedAmounts(Plan(principal, count, bp))))))
              && (r.Ok? && InRange(principal, count, bp) ==>
                    AsPlanned(r.value.installments, Plan(principal, count, bp), firstDue))
      ensures r.Ok? ==>
                && fresh(r.value) && |r.value.installments| == count
                && r.value.agreement == Agreement(lateFeeBP, moraRateBP, if grace == 0 then 30 else grace, Active, 0)
                && r.value.ledger == [Drawn(OpenSum(r.value.installments))] && Fits(OpenSum(r.value.installments))
    {
      var schedule :- Schedule(principal, count, bp, firstDue);
      assert forall k | 0 <= k < count :: InItsPlace(schedule[k], firstDue, k);
      DatesOfASchedule(schedule, firstDue);
      r := OpenOn(lateFeeBP, moraRateBP, grace, schedule);
      if InRange(principal, count, bp) {
        ghost var plan := Plan(principal, count, bp);
        PlanClosesThePrincipal(principal, count, bp);
        OpensAsPlanned(schedule, plan, firstDue);
        TotalsFit(plan);
      }
    }

    method PayInstallment(seen: Book, sequence: int, paid: int, today: int) returns (refused: Option<Error>)
      modifies this
      ensures Answer(View(), refused) == PayAnswer(old(View()), seen, sequence, paid, today)
    {
      if !(1 <= sequence <= |seen.installments| == |installments|) {
        return Some(NotFound);
      }
      var k := sequence - 1;
      var i := seen.installments[k];
      if i.status != Open {
        return Some(InstallmentClosed);
      }
      if Ended(seen.agreement.status) {
        return Some(CreditClosed);
      }
      if paid <= 0 {
        return Some(AmountNotPositive);
      }
      var q := QuoteInstallment(seen.agreement, i, today);
      if paid < q.total {
        return Some(Underpaid);
      }
      // From here on it is one transaction, and a refusal rolls it back.
      if installments[k].status != Open {
        return Some(InstallmentClosed);
      }
      ledger := ledger + [Deposited(i.amount)];
      installments := installments[k := MarkPaid(installments[k], paid, q.lateFee, q.mora)];
      var first := FirstOpen(installments);
      if first == |installments| {
        if !Ended(agreement.status) {
          agreement := agreement.(status := Settled);
        }
      } else if seen.agreement.status == Delinquent && !PastGrace(agreement, installments[first], today) {
        if agreement.status == Delinquent {
          agreement := agreement.(status := Active);
        }
      }
      refused := None;
    }

    method PayOffCredit(seen: Book, paid: int, today: int) returns (refused: Option<Error>, quote: PayoffQuote)
      modifies this
      ensures quote == QuoteOf(seen, today)
      ensures Answer(View(), refused) == PayOffAnswer(old(View()), seen, quote, paid, today)
    {
      quote := PayoffQuote(0, 0, 0, 0);
      quote := QuotePayoff(seen.agreement, seen.installments, today);
      if Ended(seen.agreement.status) {
        return Some(CreditClosed), quote;
      }
      if paid <= 0 {
        return Some(AmountNotPositive), quote;
      }
      if paid < quote.total {
        return Some(Underpaid), quote;
      }
      if |seen.installments| != |installments| {
        return Some(InstallmentClosed), quote;
      }
      // One transaction, and a refusal rolls it back.
      var cleared := ClearInstallments(seen, today);
      if cleared.None? {
        return Some(InstallmentClosed), quote;
      }
      if Ended(agreement.status) {
        return Some(CreditClosed), quote;
      }
      ledger := ledger + [Deposited(quote.remaining)];
      installments := cleared.value;
      agreement := agreement.(status := Settled, rebate := quote.rebate);
      refused := None;
    }

    /** The installments a payoff writes, one by one, where each it read as open is open still. */
    method ClearInstallments(seen: Book, today: int) returns (cleared: Option<seq<Installment>>)
      requires |seen.installments| == |installments|
      ensures cleared.Some? <==> StillOpen(View(), seen)
      ensures cleared.Some? ==> cleared.value == ClearedRows(View(), seen, today)
    {
      var rows := installments;
      for k := 0 to |rows|
        invariant |rows| == |installments|
        invariant forall j | 0 <= j < k :: IsOpen(seen, j) ==> IsOpen(View(), j)
        invariant forall j | 0 <= j < k :: rows[j] == ClearedRows(View(), seen, today)[j]
        invariant forall j | k <= j < |rows| :: rows[j] == installments[j]
      {
        if seen.installments[k].status == Open {
          if rows[k].status != Open {
            assert IsOpen(seen, k) && !IsOpen(View(), k);
            return None;
          }
          rows := rows[k := Cleared(seen.agreement, rows[k], today)];
        }
      }
      cleared := Some(rows);
    }

    method CancelCredit(seen: Book) returns (refused: Option<Error>)
      modifies this
      ensures Answer(View(), refused) == CancelAnswer(old(View()), seen)
    {
      if seen.agreement.status == Closed {
        return None;
      }
      if seen.agreement.status == Settled {
        return Some(CreditClosed);
      }
      var owed := 0;
      for k := 0 to |seen.installments|
        invariant owed == Total(OpenAmounts(seen.installments)[..k])
        invariant View() == old(View())
      {
        TotalOfPrefix(OpenAmounts(seen.installments), k);
        if seen.installments[k].status == Open {
          owed := owed + seen.installments[k].amount;
        }
      }
      assert OpenAmounts(seen.installments)[..|seen.installments|] == OpenAmounts(seen.installments);
      if Ended(agreement.status) {
        return Some(CreditClosed);
      }
      if owed > 0 {
        ledger := ledger + [Deposited(owed)];
      }
      installments := AllCancelled(installments);
      agreement := agreement.(status := Closed);
      refused := None;
    }

    method SweepCredit(today: int)
      modifies this
      ensures View() == SweepBook(old(View()), today)
    {
      if Ended(agreement.status) {
        return;
      }
      var first := FirstOpen(installments);
      var rows := installments;
      for k := 0 to |rows|
        invariant |rows| == |installments|
        invariant forall j | 0 <= j < k :: rows[j] == Swept(installments[j], today)
        invariant forall j | k <= j < |rows| :: rows[j] == installments[j]
      {
        if rows[k].status == Open && today > rows[k].dueOn && !rows[k].overdue {
          rows := rows[k := rows[k].(overdue := true)];
        }
      }
      if agreement.status == Active && first < |installments| && PastGrace(agreement, installments[first], today) {
        agreement := agreement.(status := Delinquent);
      }
      installments := rows;
    }
  }

  // ---------------------------------------------------------------- what every call keeps

  /** The terms of an agreement: what no call changes. */
  predicate SameTerms(a: Book, b: Book) {
    && a.agreement.lateFeeBP == b.agreement.lateFeeBP && a.agreement.moraRateBP == b.agreement.moraRateBP
    && a.agreement.delinquentAfterDays == b.agreement.delinquentAfterDays
    && |a.installments| == |b.installments|
    && forall k | 0 <= k < |a.installments| :: SameInstallment(a.installments[k], b.installments[k])
  }

  predicate SameInstallment(i: Installment, j: Installment) {
    && i.sequence == j.sequence && i.dueOn == j.dueOn && i.amount == j.amount
    && i.principalPart == j.principalPart && i.interestPart == j.interestPart
  }

  /** b is a later state of the agreement seen: an installment once closed never opens again, and an
      agreement once ended stays as it ended. */
  predicate Follows(seen: Book, b: Book) {
    && SameTerms(seen, b)
    && (forall k | 0 <= k < |b.installments| :: IsOpen(b, k) ==> IsOpen(seen, k))
    && (Ended(seen.agreement.status) ==> b.agreement.status == seen.agreement.status)
  }

  /** The agreement is ended exactly when no installment is open. */
  predicate EndedWhenNothingOpen(b: Book) {
    Ended(b.agreement.status) <==> NothingOpen(b)
  }

  predicate PricedRows(b: Book) {
    forall k | 0 <= k < |b.installments| :: b.installments[k].Priced()
  }

  /** A call, and the statements of a sweep one by one. */
  datatype Action =
    | Pay(sequence: int, paid: int, today: int)
    | PayOff(paid: int, today: int)
    | Cancel
    | Sweep(today: int)
    | Mark(sequence: int, today: int)
    | Flag(today: int)

  /** The quote a payoff works with, as sixty-four bits have it. */
  function QuoteOf(seen: Book, today: int): PayoffQuote {
    QuoteOfPayoff(LatenessOn(seen.agreement, today), seen.installments, today)
  }

  function Perform(b: Book, seen: Book, action: Action): Book {
    match action
    case Pay(sequence, paid, today) => PayAnswer(b, seen, sequence, paid, today).book
    case PayOff(paid, today) => PayOffAnswer(b, seen, QuoteOf(seen, today), paid, today).book
    case Cancel => CancelAnswer(b, seen).book
    case Sweep(today) => SweepBook(b, today)
    case Mark(sequence, today) => MarkOverdue(b, seen, sequence, today)
    case Flag(today) => MarkDelinquent(b, seen, today)
  }

  /** How much a cancellation deposits that is not owed: what was paid between its reading and its
      writing, and nothing for any other call. */
  function Excess(b: Book, seen: Book, action: Action): int {
    if action.Cancel? && !Ended(seen.agreement.status) && !Ended(b.agreement.status)
    then OpenSum(seen.installments) - OpenSum(b.installments)
    else 0
  }

  lemma DebtOfDeposit(ledger: seq<Line>, amount: int)
    ensures Debt(ledger + [Deposited(amount)]) == Debt(ledger) - amount
  {
    assert Movements(ledger + [Deposited(amount)]) == Movements(ledger) + [-amount];
    TotalOfOneMore(Movements(ledger), -amount);
  }

  lemma OpenSumOfNothing(ins: seq<Installment>)
    requires forall k | 0 <= k < |ins| :: ins[k].status != Open
    ensures OpenSum(ins) == 0
  {
    TotalOfZeros(OpenAmounts(ins));
  }

  /** What was open only shrinks, so what a stale reading owes is never too little. */
  lemma OpenSumShrinks(seen: Book, b: Book)
    requires Follows(seen, b) && PricedRows(b)
    ensures OpenSum(b.installments) <= OpenSum(seen.installments)
    ensures StillOpen(b, seen) ==> OpenAmounts(b.installments) == OpenAmounts(seen.installments)
  {
    forall k | 0 <= k < |b.installments|
      ensures OpenAmounts(b.installments)[k] <= OpenAmounts(seen.installments)[k]
      ensures IsOpen(b, k) || !IsOpen(seen, k) ==> OpenAmounts(b.installments)[k] == OpenAmounts(seen.installments)[k]
    {
      assert SameInstallment(seen.installments[k], b.installments[k]);
      assert b.installments[k].Priced() && (IsOpen(b, k) ==> IsOpen(seen, k));
    }
    TotalIsMonotone(OpenAmounts(b.installments), OpenAmounts(seen.installments));
  }

  /** Every call, on whatever it read before: the terms and the order of closing are kept, the
      agreement is ended exactly when nothing is open, and the debt moves with the open installments
      but for what an overtaken cancellation deposits. */
  lemma EveryCallKeeps(b: Book, seen: Book, action: Action)
    requires Follows(seen, b) && EndedWhenNothingOpen(b) && PricedRows(b) && Fits(OpenSum(seen.installments))
    ensures var c := Perform(b, seen, action);
            && Follows(b, c) && EndedWhenNothingOpen(c) && PricedRows(c)
            && Debt(c.ledger) - OpenSum(c.installments)
               == Debt(b.ledger) - OpenSum(b.installments) - Excess(b, seen, action)
            && Excess(b, seen, action) >= 0
  {
    OpenSumShrinks(seen, b);
    match action
    case Pay(sequence, paid, today) => PayKeeps(b, seen, sequence, paid, today);
    case PayOff(paid, today) => PayOffKeeps(b, seen, QuoteOf(seen, today), paid, today);
    case Cancel => CancelKeeps(b, seen);
    case Sweep(today) => SweepKeeps(b, today);
    case Mark(sequence, today) => MarkKeeps(b, seen, sequence, today);
    case Flag(today) => FlagKeeps(b, seen, today);
  }

  lemma PayKeeps(b: Book, seen: Book, sequence: int, paid: int, today: int)
    requires Follows(seen, b) && EndedWhenNothingOpen(b) && PricedRows(b)
    ensures var c := PayAnswer(b, seen, sequence, paid, today).book;
            && Follows(b, c) && EndedWhenNothingOpen(c) && PricedRows(c)
            && Debt(c.ledger) - OpenSum(c.installments) == Debt(b.ledger) - OpenSum(b.installments)
  {
    var answer := PayAnswer(b, seen, sequence, paid, today);
    if answer.refused.None? {
      var k := sequence - 1;
      var c := answer.book;
      assert IsOpen(b, k);
      assert SameInstallment(seen.installments[k], b.installments[k]);
      OneLessOpen(b.installments, c.installments, k);
      DebtOfDeposit(b.ledger, seen.installments[k].amount);
      var first := FirstOpen(c.installments);
      if first < |c.installments| {
        assert IsOpen(c, first);
      }
    }
  }

  lemma OneLessOpen(before: seq<Installment>, after: seq<Installment>, k: nat)
    requires k < |before| == |after| && after == before[k := after[k]] && before[k].status == Open
             && after[k].status != Open
    ensures OpenSum(after) == OpenSum(before) - before[k].amount
  {
    assert OpenAmounts(after) == OpenAmounts(before)[k := 0];
    TotalOfUpdate(OpenAmounts(before), k, 0);
  }

  /** Whatever a payoff was quoted, as long as what it deposits is what it read as open. */
  lemma PayOffKeeps(b: Book, seen: Book, quote: PayoffQuote, paid: int, today: int)
    requires Follows(seen, b) && EndedWhenNothingOpen(b) && PricedRows(b)
    requires quote.remaining == OpenSum(seen.installments)
    ensures var c := PayOffAnswer(b, seen, quote, paid, today).book;
            && Follows(b, c) && EndedWhenNothingOpen(c) && PricedRows(c)
            && Debt(c.ledger) - OpenSum(c.installments) == Debt(b.ledger) - OpenSum(b.installments)
  {
    var answer := PayOffAnswer(b, seen, quote, paid, today);
    if answer.refused.None? {
      var c := answer.book;
      forall k | 0 <= k < |c.installments| ensures !IsOpen(c, k) {
        assert IsOpen(b, k) ==> IsOpen(seen, k);
      }
      DebtOfDeposit(b.ledger, OpenSum(seen.installments));
      OpenSumShrinks(seen, b);
      OpenSumOfNothing(c.installments);
    }
  }

  lemma CancelKeeps(b: Book, seen: Book)
    requires Follows(seen, b) && EndedWhenNothingOpen(b) && PricedRows(b)
    ensures var c := CancelAnswer(b, seen).book;
            && Follows(b, c) && EndedWhenNothingOpen(c) && PricedRows(c)
            && Debt(c.ledger) - OpenSum(c.installments)
               == Debt(b.ledger) - OpenSum(b.installments) - Excess(b, seen, Cancel)
  {
    if !Ended(seen.agreement.status) && !Ended(b.agreement.status) {
      var owed := OpenSum(seen.installments);
      DebtOfDeposit(b.ledger, owed);
      OpenSumOfNothing(CancelAnswer(b, seen).book.installments);
      OpenSumShrinks(seen, b);
      TotalIsMonotone(seq(|seen.installments|, _ => 0), OpenAmounts(seen.installments));
      TotalOfZeros(seq(|seen.installments|, _ => 0));
    }
  }

  lemma SweepKeeps(b: Book, today: int)
    requires EndedWhenNothingOpen(b) && PricedRows(b)
    ensures var c := SweepBook(b, today);
            && Follows(b, c) && EndedWhenNothingOpen(c) && PricedRows(c)
            && c.ledger == b.ledger && OpenSum(c.installments) == OpenSum(b.installments)
  {
    var c := SweepBook(b, today);
    assert forall k | 0 <= k < |b.installments| :: IsOpen(c, k) <==> IsOpen(b, k);
    assert OpenAmounts(c.installments) == OpenAmounts(b.installments);
  }

  lemma FlagKeeps(b: Book, seen: Book, today: int)
    requires EndedWhenNothingOpen(b) && PricedRows(b)
    ensures var c := MarkDelinquent(b, seen, today);
            && Follows(b, c) && EndedWhenNothingOpen(c) && PricedRows(c)
            && c.ledger == b.ledger && c.installments == b.installments
  {
    assert forall k | 0 <= k < |b.installments| :: IsOpen(MarkDelinquent(b, seen, today), k) <==> IsOpen(b, k);
  }

  lemma MarkKeeps(b: Book, seen: Book, sequence: int, today: int)
    requires EndedWhenNothingOpen(b) && PricedRows(b)
    ensures var c := MarkOverdue(b, seen, sequence, today);
            && Follows(b, c) && EndedWhenNothingOpen(c) && PricedRows(c)
            && c.ledger == b.ledger && OpenSum(c.installments) == OpenSum(b.installments)
  {
    var c := MarkOverdue(b, seen, sequence, today);
    assert forall k | 0 <= k < |b.installments| :: IsOpen(c, k) <==> IsOpen(b, k);
    assert OpenAmounts(c.installments) == OpenAmounts(b.installments);
  }

  // ---------------------------------------------------------------- whole runs

  /** A call and the state it read: the one the run had reached after that many calls. */
  datatype Event = Event(action: Action, readAfter: nat)

  predicate Timely(events: seq<Event>) {
    forall k | 0 <= k < |events| :: events[k].readAfter <= k
  }

  /** One call of a run, from the state before it and the one it read to the state after it. */
  predicate Happened(states: seq<Book>, events: seq<Event>, k: nat)
    requires |states| == |events| + 1 && Timely(events) && k < |events|
  {
    states[k + 1] == Perform(states[k], states[events[k].readAfter], events[k].action)
  }

  /** The states of a run, one more than its calls. */
  predicate History(states: seq<Book>, events: seq<Event>) {
    && |states| == |events| + 1 && Timely(events)
    && forall k {:trigger Happened(states, events, k)} | 0 <= k < |events| :: Happened(states, events, k)
  }

  /** An agreement as it opens, and as long as nothing overtakes a cancellation: what it owes is the
      open installments, and fits. */
  predicate Explained(b: Book) {
    EndedWhenNothingOpen(b) && PricedRows(b) && Debt(b.ledger) == OpenSum(b.installments)
      && Fits(OpenSum(b.installments))
  }

  /** What OpenCredit writes of a schedule whose total fits is such an agreement, its dates in order. */
  lemma AnOpenedAgreementIsExplained(
      b: Book, schedule: seq<ScheduledInstallment>, principal: nat, count: nat, bp: nat, firstDue: Date)
    requires principal > 0 && count > 0 && firstDue.Valid() && Written(schedule, Plan(principal, count, bp), firstDue)
    requires Dates(schedule) && b.installments == Opened(schedule) && b.agreement.status == Active
    requires b.ledger == [Drawn(OpenSum(b.installments))] && Fits(OpenSum(b.installments))
    ensures Explained(b) && InOrder(b)
  {
    ScheduleOpensInOrder(schedule, principal, count, bp, firstDue);
    assert b == Book(b.agreement, Opened(schedule), b.ledger);
    assert IsOpen(b, 0);
    OfOne(Movements(b.ledger), OpenSum(b.installments));
  }

  function ExcessAt(states: seq<Book>, events: seq<Event>, k: nat): int
    requires |states| == |events| + 1 && Timely(events) && k < |events|
  {
    Excess(states[k], states[events[k].readAfter], events[k].action)
  }

  function ExcessAfter(states: seq<Book>, events: seq<Event>, n: nat): int
    requires |states| == |events| + 1 && Timely(events) && n <= |events|
  {
    if n == 0 then 0 else ExcessAfter(states, events, n - 1) + ExcessAt(states, events, n - 1)
  }

  lemma FollowsIsTransitive(a: Book, b: Book, c: Book)
    requires Follows(a, b) && Follows(b, c)
    ensures Follows(a, c)
  {
    forall k | 0 <= k < |a.installments| ensures SameInstallment(a.installments[k], c.installments[k]) {
      assert SameInstallment(a.installments[k], b.installments[k])
             && SameInstallment(b.installments[k], c.installments[k]);
    }
  }

  lemma FollowsItself(b: Book)
    ensures Follows(b, b)
  {
  }

  lemma NextState(states: seq<Book>, events: seq<Event>, k: nat)
    requires History(states, events) && k < |events| && Follows(states[events[k].readAfter], states[k])
    requires EndedWhenNothingOpen(states[k]) && PricedRows(states[k])
    requires Fits(OpenSum(states[events[k].readAfter].installments))
    ensures var b, c := states[k], states[k + 1];
            && Follows(b, c) && EndedWhenNothingOpen(c) && PricedRows(c)
            && Debt(c.ledger) - OpenSum(c.installments)
               == Debt(b.ledger) - OpenSum(b.installments) - ExcessAt(states, events, k)
            && ExcessAt(states, events, k) >= 0
  {
    assert Happened(states, events, k);
    EveryCallKeeps(states[k], states[events[k].readAfter], events[k].action);
  }

  /** Over every run, with every call as stale as it likes: the agreement is ended exactly when
      nothing is open, and the debt is the open installments less what overtaken cancellations
      deposited on top. */
  lemma {:induction false} DebtOverEveryRun(states: seq<Book>, events: seq<Event>, n: nat)
    requires History(states, events) && n <= |events| && Explained(states[0])
    ensures var b := states[n];
            && EndedWhenNothingOpen(b) && PricedRows(b)
            && Debt(b.ledger) == OpenSum(b.installments) - ExcessAfter(states, events, n)
    ensures forall k | 0 <= k < n :: ExcessAt(states, events, k) >= 0
    decreases n, 0
  {
    if n > 0 {
      DebtOverEveryRun(states, events, n - 1);
      LaterFollows(states, events, events[n - 1].readAfter, n - 1);
      OpenSumFits(states, events, events[n - 1].readAfter);
      NextState(states, events, n - 1);
    }
  }

  lemma {:induction false} LaterFollows(states: seq<Book>, events: seq<Event>, m: nat, n: nat)
    requires History(states, events) && m <= n <= |events| && Explained(states[0])
    ensures Follows(states[m], states[n])
    decreases n, 1
  {
    if m < n {
      DebtOverEveryRun(states, events, n - 1);
      LaterFollows(states, events, events[n - 1].readAfter, n - 1);
      OpenSumFits(states, events, events[n - 1].readAfter);
      NextState(states, events, n - 1);
      LaterFollows(states, events, m, n - 1);
      FollowsIsTransitive(states[m], states[n - 1], states[n]);
    } else {
      FollowsItself(states[n]);
    }
  }

  /** What is open never passes what was drawn, so no sum of it ever leaves the range. */
  lemma OpenSumFits(states: seq<Book>, events: seq<Event>, n: nat)
    requires History(states, events) && n <= |events| && Explained(states[0])
    ensures 0 <= OpenSum(states[n].installments) <= OpenSum(states[0].installments)
            && Fits(OpenSum(states[n].installments))
    decreases n, 2
  {
    DebtOverEveryRun(states, events, n);
    LaterFollows(states, events, 0, n);
    OpenSumShrinks(states[0], states[n]);
    var rows := OpenAmounts(states[n].installments);
    TotalIsMonotone(seq(|rows|, _ => 0), rows);
    TotalOfZeros(seq(|rows|, _ => 0));
  }

  /** A cancellation takes effect, and something it read as open was closed since. */
  predicate Overtaken(states: seq<Book>, events: seq<Event>, k: nat)
    requires |states| == |events| + 1 && Timely(events) && k < |events|
  {
    var b, seen := states[k], states[events[k].readAfter];
    events[k].action.Cancel? && !Ended(seen.agreement.status) && !Ended(b.agreement.status)
    && OpenSum(seen.installments) != OpenSum(b.installments)
  }

  /** So the debt is what the open installments add up to exactly in the runs no cancellation of which
      was overtaken; and it is never more. */
  lemma DebtIsTheOpenInstallments(states: seq<Book>, events: seq<Event>, n: nat)
    requires History(states, events) && n <= |events| && Explained(states[0])
    ensures Debt(states[n].ledger) <= OpenSum(states[n].installments)
    ensures Debt(states[n].ledger) == OpenSum(states[n].installments) <==>
            forall k | 0 <= k < n :: !Overtaken(states, events, k)
  {
    DebtOverEveryRun(states, events, n);
    NoExcess(states, events, n);
  }

  lemma {:induction false} NoExcess(states: seq<Book>, events: seq<Event>, n: nat)
    requires |states| == |events| + 1 && Timely(events) && n <= |events|
    requires forall k | 0 <= k < n :: ExcessAt(states, events, k) >= 0
    ensures ExcessAfter(states, events, n) >= 0
    ensures ExcessAfter(states, events, n) == 0 <==> forall k | 0 <= k < n :: !Overtaken(states, events, k)
    decreases n
  {
    if n > 0 {
      NoExcess(states, events, n - 1);
      assert ExcessAt(states, events, n - 1) == 0 <==> !Overtaken(states, events, n - 1);
    }
  }

  /** A cancellation that takes effect keeps the debt explained exactly when it was not overtaken. */
  lemma CancelExplainsTheDebt(b: Book, seen: Book)
    requires Follows(seen, b) && Explained(b) && !Ended(b.agreement.status)
    ensures var c := CancelAnswer(b, seen).book;
            Debt(c.ledger) == OpenSum(c.installments) <==> OpenSum(seen.installments) == OpenSum(b.installments)
  {
    CancelKeeps(b, seen);
  }

  /** One payment is enough to overtake it: whatever is paid between the reading and the writing is
      deposited a second time, and the debt ends that far below zero. */
  lemma PaidInBetween(b: Book, sequence: int, paid: int, today: int)
    requires Explained(b)
    requires var answer := PayAnswer(b, b, sequence, paid, today);
             answer.refused.None? && !Ended(answer.book.agreement.status)
    ensures var c := CancelAnswer(PayAnswer(b, b, sequence, paid, today).book, b);
            c.refused.None? && NothingOpen(c.book) && Debt(c.book.ledger) == -b.installments[sequence - 1].amount
  {
    var after, k := PayAnswer(b, b, sequence, paid, today).book, sequence - 1;
    assert Follows(b, b);
    PayKeeps(b, b, sequence, paid, today);
    CancelKeeps(after, b);
    OneLessOpen(b.installments, after.installments, k);
    OpenSumOfNothing(CancelAnswer(after, b).book.installments);
  }

  /** Two installments of 50 owed for the 100 that was drawn. */
  predicate TwoOwed(b: Book) {
    && b.agreement == Agreement(0, 0, 30, Active, 0)
    && |b.installments| == 2
    && b.installments[0] == Installment(1, 10, 50, 50, 0, Open, false, 0, 0, 0)
    && b.installments[1] == Installment(2, 40, 50, 50, 0, Open, false, 0, 0, 0)
    && b.ledger == [Drawn(100)]
  }

  lemma {:induction false} TwoOwedAddUp(b: Book)
    requires TwoOwed(b)
    ensures Explained(b)
  {
    assert IsOpen(b, 0);
    OfTwo(OpenAmounts(b.installments), 50, 50);
    OfOne(Movements(b.ledger), 100);
  }

  lemma OfOne(xs: seq<int>, x: int)
    requires |xs| == 1 && xs[0] == x
    ensures Total(xs) == x
  {
    TotalOfOneMore([], x);
    assert xs == [] + [x];
  }

  lemma OfTwo(xs: seq<int>, x: int, y: int)
    requires |xs| == 2 && xs[0] == x && xs[1] == y
    ensures Total(xs) == x + y
  {
    TotalOfOneMore([x], y);
    OfOne([x], x);
    assert xs == [x] + [y];
  }

  lemma FirstIsPaid(b: Book)
    requires TwoOwed(b)
    ensures var answer := PayAnswer(b, b, 1, 50, 5); answer.refused.None? && !Ended(answer.book.agreement.status)
  {
    assert IsOpen(PayAnswer(b, b, 1, 50, 5).book, 1);
  }

  /** The first of them paid while the agreement is being cancelled: the wallet ends holding 50 that
      nobody paid. */
  lemma {:induction false} CancelOvertaken(states: seq<Book>, events: seq<Event>, sequence: int, paid: int, today: int)
    requires History(states, events) && PaidWhileCancelling(events, sequence, paid, today)
    requires sequence == 1 && paid == 50 && today == 5 && TwoOwed(states[0])
    ensures NothingOpen(states[2]) && Debt(states[2].ledger) == -50 && Explained(states[0])
  {
    TwoOwedAddUp(states[0]);
    FirstIsPaid(states[0]);
    PaidWhileCancelled(states, events, sequence, paid, today);
  }

  /** A cancellation that read the agreement before a payment and writes after it. */
  predicate PaidWhileCancelling(events: seq<Event>, sequence: int, paid: int, today: int) {
    |events| == 2 && events[0] == Event(Pay(sequence, paid, today), 0) && events[1] == Event(Cancel, 0)
  }

  lemma PaidWhileCancelled(states: seq<Book>, events: seq<Event>, sequence: int, paid: int, today: int)
    requires History(states, events) && PaidWhileCancelling(events, sequence, paid, today) && Explained(states[0])
    requires var answer := PayAnswer(states[0], states[0], sequence, paid, today);
             answer.refused.None? && !Ended(answer.book.agreement.status)
    ensures NothingOpen(states[2]) && Debt(states[2].ledger) == -states[0].installments[sequence - 1].amount
  {
    PaidInBetween(states[0], sequence, paid, today);
    assert Happened(states, events, 0) && Happened(states, events, 1);
  }

  // ---------------------------------------------------------------- paying off, and the sweep

  function PaidAmounts(ins: seq<Installment>, cleared: seq<Installment>): seq<int>
    requires |ins| == |cleared|
  {
    seq(|ins|, k requires 0 <= k < |ins| == |cleared| => if ins[k].status == Open then cleared[k].paidAmount else 0)
  }

  /** A payoff, however stale its reading, is accepted exactly where nothing it read as open was closed
      since and what is paid covers its quote; and what it writes as paid, installment by installment,
      is exactly the total of that quote. */
  lemma PayoffWritesItsTotal(b: Book, seen: Book, paid: int, today: int)
    requires Follows(seen, b) && EndedWhenNothingOpen(b) && PayoffFits(seen.agreement, seen.installments, today)
    ensures var quote, answer := QuoteOf(seen, today), PayOffAnswer(b, seen, QuoteOf(seen, today), paid, today);
            && quote.total == Total(Clearings(seen.agreement, seen.installments, today))
            && (answer.refused.None? <==> paid > 0 && paid >= quote.total && StillOpen(b, seen) && !NothingOpen(b))
            && (answer.refused.None? ==>
                  && NothingOpen(answer.book) && answer.book.agreement.status == Settled
                  && Total(PaidAmounts(seen.installments, answer.book.installments)) == quote.total)
  {
    PayoffIsExact(seen.agreement, seen.installments, today);
    var answer := PayOffAnswer(b, seen, QuoteOf(seen, today), paid, today);
    if answer.refused.None? {
      ClearedByAPayoff(b, seen, answer.book, today);
    }
  }

  lemma ClearedByAPayoff(b: Book, seen: Book, c: Book, today: int)
    requires Follows(seen, b) && PayoffFits(seen.agreement, seen.installments, today) && StillOpen(b, seen)
    requires |c.installments| == |b.installments| && forall k | 0 <= k < |b.installments| ::
               c.installments[k] == if IsOpen(seen, k) then Cleared(seen.agreement, b.installments[k], today)
                 else b.installments[k]
    ensures NothingOpen(c)
    ensures Total(PaidAmounts(seen.installments, c.installments))
            == Total(Clearings(seen.agreement, seen.installments, today))
  {
    forall k | 0 <= k < |seen.installments|
      ensures !IsOpen(c, k)
      ensures PaidAmounts(seen.installments, c.installments)[k]
              == Clearings(seen.agreement, seen.installments, today)[k]
    {
      assert SameInstallment(seen.installments[k], b.installments[k]) && (IsOpen(b, k) ==> IsOpen(seen, k));
      if IsOpen(seen, k) {
        assert IsOpen(b, k);
        QuoteOfTheSame(seen.agreement, seen.installments[k], b.installments[k], today);
        QuoteIsExact(seen.agreement, seen.installments[k], today);
      }
    }
    assert PaidAmounts(seen.installments, c.installments) == Clearings(seen.agreement, seen.installments, today);
  }

  lemma QuoteOfTheSame(a: Agreement, i: Installment, j: Installment, today: int)
    requires i.amount == j.amount && i.dueOn == j.dueOn
    ensures QuoteInstallment(a, i, today) == QuoteInstallment(a, j, today)
  {
  }

  /** Installments fall due in their order. */
  predicate InOrder(b: Book) {
    forall j, k | 0 <= j < k < |b.installments| :: b.installments[j].dueOn < b.installments[k].dueOn
  }

  /** What a schedule writes opens in order, every installment made of parts that are not negative. */
  lemma ScheduleOpensInOrder(schedule: seq<ScheduledInstallment>, principal: nat, count: nat, bp: nat, firstDue: Date)
    requires principal > 0 && count > 0 && firstDue.Valid()
    requires Written(schedule, Plan(principal, count, bp), firstDue)
    ensures Dates(schedule)
    ensures forall a, ledger {:trigger Book(a, Opened(schedule), ledger)} ::
              InOrder(Book(a, Opened(schedule), ledger)) && PricedRows(Book(a, Opened(schedule), ledger))
  {
    forall k | 0 <= k < count ensures schedule[k].dueOn.Valid() {
      AddMonthsKeepsTheDay(firstDue, k);
    }
    PlanClosesThePrincipal(principal, count, bp);
    forall j, k | 0 <= j < k < count ensures schedule[j].dueOn.Number() < schedule[k].dueOn.Number() {
      DueDatesIncrease(firstDue, j, k);
    }
  }

  /** And stays in order, over every run. */
  lemma OrderOverEveryRun(states: seq<Book>, events: seq<Event>, n: nat)
    requires History(states, events) && n <= |events| && Explained(states[0]) && InOrder(states[0])
    ensures InOrder(states[n])
  {
    LaterFollows(states, events, 0, n);
    FollowsKeepsOrder(states[0], states[n]);
  }

  lemma FollowsKeepsOrder(a: Book, b: Book)
    requires Follows(a, b) && InOrder(a)
    ensures InOrder(b)
  {
    forall k | 0 <= k < |b.installments| ensures b.installments[k].dueOn == a.installments[k].dueOn {
      assert SameInstallment(a.installments[k], b.installments[k]);
    }
  }

  /** The first open installment is past grace exactly when any open one is. */
  lemma OldestDecides(b: Book, today: int)
    requires InOrder(b)
    ensures var first := FirstOpen(b.installments);
            (first < |b.installments| && PastGrace(b.agreement, b.installments[first], today))
            <==> exists k ::
              0 <= k < |b.installments| && IsOpen(b, k) && PastGrace(b.agreement, b.installments[k], today)
  {
    var first := FirstOpen(b.installments);
    if first < |b.installments| {
      assert IsOpen(b, first);
    }
  }

  /** Sweeping marks an agreement delinquent exactly when it was, or when it is active and an open
      installment is past its grace. */
  lemma SweepFindsTheLate(b: Book, today: int)
    requires InOrder(b)
    ensures var c := SweepBook(b, today);
            c.agreement.status == Delinquent <==>
            || b.agreement.status == Delinquent
            || (b.agreement.status == Active
                && exists k ::
                   0 <= k < |b.installments| && IsOpen(b, k) && PastGrace(b.agreement, b.installments[k], today))
  {
    OldestDecides(b, today);
  }

  lemma SweepLeavesTheFirstOpen(ins: seq<Installment>, today: int)
    ensures FirstOpen(SweptAll(ins, today)) == FirstOpen(ins)
  {
    assert forall k | 0 <= k < |ins| :: SweptAll(ins, today)[k].status == ins[k].status;
  }

  /** Sweeping an earlier day and then a later one leaves what the later one alone leaves; so the
      same day twice finds nothing new. */
  lemma SweepsCompose(b: Book, today: int, later: int)
    requires today <= later
    ensures SweepBook(SweepBook(b, today), later) == SweepBook(b, later)
  {
    if !Ended(b.agreement.status) {
      var ins := b.installments;
      SweepLeavesTheFirstOpen(ins, today);
      assert SweptAll(SweptAll(ins, today), later) == SweptAll(ins, later);
      var first := FirstOpen(ins);
      if first < |ins| {
        assert SweptAll(ins, today)[first].dueOn == ins[first].dueOn;
      }
    }
  }

  /** The marks of a sweep on the first installments, all on one reading. */
  function Marks(b: Book, seen: Book, n: nat, today: int): Book {
    if n == 0 then b else MarkOverdue(Marks(b, seen, n - 1, today), seen, n, today)
  }

  lemma {:induction false} MarksSweep(b: Book, n: nat, today: int)
    requires n <= |b.installments| && !Ended(b.agreement.status)
    ensures var c := Marks(b, b, n, today);
            && c.agreement == b.agreement && c.ledger == b.ledger && |c.installments| == |b.installments|
            && forall k | 0 <= k < |b.installments| ::
                 c.installments[k] == if k < n then Swept(b.installments[k], today) else b.installments[k]
  {
    if n > 0 {
      MarksSweep(b, n - 1, today);
    }
  }

  /** A sweep nothing comes in between of is its statements. */
  lemma ASweepIsItsStatements(b: Book, today: int)
    requires !Ended(b.agreement.status)
    ensures MarkDelinquent(Marks(b, b, |b.installments|, today), b, today) == SweepBook(b, today)
  {
    MarksSweep(b, |b.installments|, today);
    assert Marks(b, b, |b.installments|, today).installments == SweptAll(b.installments, today);
  }

  /** A payment is judged by the agreement as it is when it is written, however stale the reading it was
      priced on: accepted exactly where the installment is open by then and what is paid covers what it
      costs that day. */
  lemma PaymentIsAccepted(b: Book, seen: Book, sequence: int, paid: int, today: int)
    requires Follows(seen, b) && EndedWhenNothingOpen(b)
    ensures PayAnswer(b, seen, sequence, paid, today).refused.None? <==>
            && 1 <= sequence <= |b.installments| && IsOpen(b, sequence - 1)
            && paid > 0 && paid >= QuoteInstallment(b.agreement, b.installments[sequence - 1], today).total
  {
    if 1 <= sequence <= |b.installments| {
      var k := sequence - 1;
      assert SameInstallment(seen.installments[k], b.installments[k]) && (IsOpen(b, k) ==> IsOpen(seen, k));
      SameTermsSameQuote(seen, b, k, today);
    }
  }

  lemma SameTermsSameQuote(seen: Book, b: Book, k: nat, today: int)
    requires SameTerms(seen, b) && k < |b.installments|
    ensures QuoteInstallment(seen.agreement, seen.installments[k], today)
            == QuoteInstallment(b.agreement, b.installments[k], today)
  {
    assert SameInstallment(seen.installments[k], b.installments[k]);
  }

  /** A payment of an installment that was accepted. */
  predicate Accepted(states: seq<Book>, events: seq<Event>, k: nat, sequence: int)
    requires |states| == |events| + 1 && Timely(events) && k < |events|
  {
    && events[k].action.Pay? && events[k].action.sequence == sequence
    && PayAnswer(states[k], states[events[k].readAfter], sequence, events[k].action.paid,
       events[k].action.today).refused.None?
  }

  /** In every run no installment is paid twice, however stale the readings of its payments. */
  lemma AnInstallmentIsPaidOnce(states: seq<Book>, events: seq<Event>, j: nat, k: nat, sequence: int)
    requires History(states, events) && Explained(states[0]) && j < k < |events|
    requires Accepted(states, events, j, sequence)
    ensures !Accepted(states, events, k, sequence)
  {
    assert Happened(states, events, j);
    LaterFollows(states, events, j + 1, k);
    PaidIsClosed(states[j], states[events[j].readAfter], sequence, events[j].action.paid, events[j].action.today);
    ClosedIsRefused(states[j + 1], states[k], states[events[k].readAfter], sequence, events[k].action);
  }

  lemma PaidIsClosed(b: Book, seen: Book, sequence: int, paid: int, today: int)
    requires PayAnswer(b, seen, sequence, paid, today).refused.None?
    ensures var c := PayAnswer(b, seen, sequence, paid, today).book;
            1 <= sequence <= |c.installments| && !IsOpen(c, sequence - 1)
  {
  }

  lemma ClosedIsRefused(closed: Book, b: Book, seen: Book, sequence: int, action: Action)
    requires Follows(closed, b) && 1 <= sequence <= |closed.installments| && !IsOpen(closed, sequence - 1)
    ensures action.Pay? ==> PayAnswer(b, seen, sequence, action.paid, action.today).refused.Some?
  {
    assert !IsOpen(b, sequence - 1);
  }

  /** An open installment is past its grace. */
  predicate SomethingLate(b: Book, today: int) {
    exists k :: 0 <= k < |b.installments| && IsOpen(b, k) && PastGrace(b.agreement, b.installments[k], today)
  }

  /** What a payment leaves of the agreement, on any reading: settled when nothing is open any more; and
      delinquent still where it was and something open is past its grace -- or where the reading was
      from before it became so, which leaves it delinquent with nothing past its grace. */
  lemma PaymentDecidesTheStatus(b: Book, seen: Book, sequence: int, paid: int, today: int)
    requires Follows(seen, b) && EndedWhenNothingOpen(b) && InOrder(b)
    requires PayAnswer(b, seen, sequence, paid, today).refused.None?
    ensures var c := PayAnswer(b, seen, sequence, paid, today).book;
            && (c.agreement.status == Settled <==> NothingOpen(c))
            && (c.agreement.status == Delinquent <==>
                  && b.agreement.status == Delinquent && !NothingOpen(c)
                  && (seen.agreement.status != Delinquent || SomethingLate(c, today)))
            && c.agreement.status != Closed
  {
    var c := PayAnswer(b, seen, sequence, paid, today).book;
    PaidStaysInOrder(b, seen, sequence, paid, today);
    OldestDecides(c, today);
    var first := FirstOpen(c.installments);
    if first < |c.installments| {
      assert IsOpen(c, first);
    }
    assert IsOpen(b, sequence - 1);
  }

  /** So where nothing that is left open is late, the agreement is left delinquent exactly when it became
      so after it was read. */
  lemma RegularIsLeftDelinquent(b: Book, seen: Book, sequence: int, paid: int, today: int)
    requires Follows(seen, b) && EndedWhenNothingOpen(b) && InOrder(b)
    requires var answer := PayAnswer(b, seen, sequence, paid, today);
             answer.refused.None? && !NothingOpen(answer.book) && !SomethingLate(answer.book, today)
    ensures PayAnswer(b, seen, sequence, paid, today).book.agreement.status == Delinquent
            <==> b.agreement.status == Delinquent && seen.agreement.status != Delinquent
  {
    PaymentDecidesTheStatus(b, seen, sequence, paid, today);
  }

  /** Delinquent, with something open and nothing of it late. */
  predicate LeftDelinquent(b: Book, today: int) {
    b.agreement.status == Delinquent && !SomethingLate(b, today) && !NothingOpen(b)
  }

  /** The first of two installments of 50 is paid by a call that read the agreement, on the day a sweep
      that came in between found it late: what is left open is a day late, and the agreement delinquent. */
  lemma SweptWhilePaying(states: seq<Book>, events: seq<Event>, today: int, paid: int)
    requires History(states, events) && TwoOwed(states[0]) && today == 41 && paid == 50
    requires |events| == 2 && events[0] == Event(Sweep(today), 0) && events[1] == Event(Pay(1, paid, today), 0)
    ensures LeftDelinquent(states[2], today)
  {
    SweepOfTwo(states, events, today);
    PaymentOfTwo(states, events, today, paid);
  }

  predicate FoundLate(b: Book, c: Book) {
    && c.agreement == b.agreement.(status := Delinquent) && |c.installments| == 2 == |b.installments|
    && c.installments[0] == b.installments[0].(overdue := true)
    && c.installments[1] == b.installments[1].(overdue := true)
  }

  lemma SweepOfTwo(states: seq<Book>, events: seq<Event>, today: int)
    requires History(states, events) && TwoOwed(states[0]) && today == 41
    requires |events| == 2 && events[0] == Event(Sweep(today), 0)
    ensures FoundLate(states[0], states[1])
  {
    assert Happened(states, events, 0);
    assert IsOpen(states[0], 0);
  }

  lemma PaymentOfTwo(states: seq<Book>, events: seq<Event>, today: int, paid: int)
    requires History(states, events) && |events| == 2 && events[1] == Event(Pay(1, paid, today), 0)
    requires TwoOwed(states[0]) && FoundLate(states[0], states[1]) && today == 41 && paid == 50
    ensures LeftDelinquent(states[2], today)
  {
    assert Happened(states, events, 1);
    FirstIsPaidLate(states[1], states[0], states[2], today, paid);
  }

  lemma FirstIsPaidLate(b: Book, seen: Book, c: Book, today: int, paid: int)
    requires TwoOwed(seen) && FoundLate(seen, b) && today == 41 && paid == 50
    requires c == PayAnswer(b, seen, 1, paid, today).book
    ensures LeftDelinquent(c, today)
  {
    assert QuoteInstallment(seen.agreement, seen.installments[0], today).total == 50;
    assert c.installments[1] == b.installments[1] && c.installments[0].status == Paid;
    assert FirstOpen(c.installments) == 1 && IsOpen(c, 1);
  }

  /** And the other way round: a sweep marks an agreement on what it read, so one with nothing late any
      more is marked delinquent exactly when it was active and something late as the sweep read it. */
  lemma RegularIsMarkedDelinquent(b: Book, seen: Book, today: int)
    requires Follows(seen, b) && InOrder(seen) && b.agreement.status == Active && !SomethingLate(b, today)
    ensures MarkDelinquent(b, seen, today).agreement.status == Delinquent
            <==> seen.agreement.status == Active && SomethingLate(seen, today)
  {
    OldestDecides(seen, today);
  }

  /** The first of two installments of 50 is paid between the reading of a sweep, which found it late, and
      the statement that marks the agreement. */
  lemma PaidWhileSweeping(states: seq<Book>, events: seq<Event>, today: int, paid: int)
    requires History(states, events) && TwoOwed(states[0]) && today == 41 && paid == 50
    requires |events| == 2 && events[0] == Event(Pay(1, paid, today), 0) && events[1] == Event(Flag(today), 0)
    ensures LeftDelinquent(states[2], today)
  {
    PaymentOfTheFirst(states, events, today, paid);
    FlagOfTwo(states, events, today);
  }

  predicate FirstIsClosed(b: Book, c: Book) {
    && c.agreement == b.agreement && |c.installments| == 2 == |b.installments|
    && !IsOpen(c, 0) && c.installments[1] == b.installments[1]
  }

  lemma PaymentOfTheFirst(states: seq<Book>, events: seq<Event>, today: int, paid: int)
    requires History(states, events) && TwoOwed(states[0]) && today == 41 && paid == 50
    requires |events| == 2 && events[0] == Event(Pay(1, paid, today), 0)
    ensures FirstIsClosed(states[0], states[1])
  {
    assert Happened(states, events, 0);
    assert IsOpen(states[0], 0);
  }

  lemma FlagOfTwo(states: seq<Book>, events: seq<Event>, today: int)
    requires History(states, events) && |events| == 2 && events[1] == Event(Flag(today), 0)
    requires TwoOwed(states[0]) && FirstIsClosed(states[0], states[1]) && today == 41
    ensures LeftDelinquent(states[2], today)
  {
    assert Happened(states, events, 1);
    assert FirstOpen(states[0].installments) == 0;
    assert states[2].installments == states[1].installments && IsOpen(states[2], 1);
  }

  lemma PaidStaysInOrder(b: Book, seen: Book, sequence: int, paid: int, today: int)
    requires InOrder(b) && PayAnswer(b, seen, sequence, paid, today).refused.None?
    ensures var c := PayAnswer(b, seen, sequence, paid, today).book;
            && InOrder(c) && c.agreement.delinquentAfterDays == b.agreement.delinquentAfterDays
            && c.installments == b.installments[sequence - 1 := c.installments[sequence - 1]]
  {
  }
}
