/** One key, one operation: callers that look a key up, try, lose races, fail to hear their own commit
    and try again (commit, attempt and replay of commit.go). A caller's attempt is one transaction;
    everything else about its timing is the steps of a run, in any order. */
module Protocol {
  import opened Outcome
  import opened Tables
  import opened Apply
  import Ledger
  import opened Transfers

  const MAX_COMMIT_ATTEMPTS := 4

  // ---------------------------------------------------------------- what is asked

  datatype CreditDeed =
    | Opening(agreement: nat)
    | PayingInstallment(agreement: nat, sequence: nat)
    | PayingOff(agreement: nat)
    | Cancelling(agreement: nat)

  datatype SettlingAct = Reversing | Confirming | Voiding

  /** What a caller asks to happen; exchange says whether its two wallets need a rate, held is the
      hold as it was read, and what settles an operation moves what its entries say, one movement at
      least. */
  datatype Body =
    | Payment(request: Request, exchange: bool)
    | Move(leg: Ledger.Leg)
    | Capture(hold: nat, held: Hold, amount: int, to: Option<nat>)
    | Credit(deed: CreditDeed, wallet: nat, amount: int)
    | Settlement(act: SettlingAct, operation: nat, first: Movement, others: seq<Movement>)
    | Part(operation: nat, first: Movement, others: seq<Movement>)
    | Repair(wallet: nat, difference: int)

  datatype Kind =
    | DepositOperation | WithdrawOperation | TransferOperation | ExchangeOperation
    | ReversalOperation | ConfirmationOperation | VoidOperation | PartialReversalOperation | AdjustmentOperation

  /** All that a request is recognised by: the kind of its operation, and what its claim is written of. */
  datatype Claim =
    | OneMovement(wallet: nat, kind: EntryKind, amount: int, pending: bool)
    | TwoSides(exchange: bool, from: nat, to: nat, amount: int, withdrawalPending: bool, depositPending: bool)
    | Settles(act: SettlingAct, operation: nat)
    | GivesBack(operation: nat, amount: int)
    | Repairs(wallet: nat)

  function ClaimOf(body: Body): Claim {
    match body
    case Payment(r, exchange) => TwoSides(exchange, r.from, r.to, r.amount, r.withdrawalPending, r.depositPending)
    case Move(leg) => OneMovement(leg.wallet, leg.kind, leg.amount, leg.pending)
    case Capture(_, held, amount, None) => OneMovement(held.wallet, Withdraw, amount, false)
    case Capture(_, held, amount, Some(to)) => TwoSides(false, held.wallet, to, amount, false, false)
    case Credit(deed, wallet, amount) => OneMovement(wallet, if deed.Opening? then Withdraw else Deposit, amount, false)
    case Settlement(act, operation, _, _) => Settles(act, operation)
    case Part(operation, first, _) => GivesBack(operation, first.amount)
    case Repair(wallet, _) => Repairs(wallet)
  }

  function KindOf(claim: Claim): Kind {
    match claim
    case OneMovement(_, kind, _, _) => if kind == Deposit then DepositOperation else WithdrawOperation
    case TwoSides(exchange, _, _, _, _, _) => if exchange then ExchangeOperation else TransferOperation
    case Settles(Reversing, _) => ReversalOperation
    case Settles(Confirming, _) => ConfirmationOperation
    case Settles(Voiding, _) => VoidOperation
    case GivesBack(_, _) => PartialReversalOperation
    case Repairs(_) => AdjustmentOperation
  }

  /** The wallet the calling method authorized; settledFor, for what settles an operation. */
  function Owner(body: Body): nat {
    match body
    case Payment(request, _) => request.from
    case Move(leg) => leg.wallet
    case Capture(_, held, _, _) => held.wallet
    case Credit(_, wallet, _) => wallet
    case Settlement(_, _, first, _) => first.wallet
    case Part(_, first, _) => first.wallet
    case Repair(wallet, _) => wallet
  }

  /** What a claim does not hold: the hold a capture takes, and what a credit call is for. */
  datatype Purpose = OfMoney | OfAHold(hold: nat) | OfCredit(deed: CreditDeed)

  function PurposeOf(body: Body): Purpose {
    match body
    case Capture(hold, _, _, _) => OfAHold(hold)
    case Credit(deed, _, _) => OfCredit(deed)
    case _ => OfMoney
  }

  /** Everything the caller decided is the same. Force is no part of that, nor is what a seam, the
      rows of the operation named or the entries of a wallet decide. */
  predicate SameBody(a: Body, b: Body) {
    match (a, b)
    case (Payment(x, i), Payment(y, j)) => SameRequest(x, y) && i == j
    case (Move(x), Move(y)) => x.(force := y.force) == y
    case (Capture(h, x, m, t), Capture(k, y, n, u)) => h == k && x.wallet == y.wallet && m == n && t == u
    case (Credit(_, _, _), Credit(_, _, _)) => a == b
    case (Settlement(x, o, _, _), Settlement(y, p, _, _)) => x == y && o == p
    case (Part(o, x, _), Part(p, y, _)) => o == p && x.amount == y.amount
    case (Repair(w, _), Repair(v, _)) => w == v
    case _ => false
  }

  /** Two requests that settle one operation are for one wallet: what is read of it never changes
      (ReversalRuns.WhatIsReadStays). */
  predicate Agree(a: Body, b: Body) {
    (a.Settlement? || a.Part?) && ClaimOf(a) == ClaimOf(b) ==> Owner(a) == Owner(b)
  }

  /** Two requests are the same exactly when their claims are and what they are for is: a claim leaves
      out nothing else. */
  lemma WhatAClaimLeavesOut(a: Body, b: Body)
    ensures SameBody(a, b) <==> ClaimOf(a) == ClaimOf(b) && PurposeOf(a) == PurposeOf(b)
  {
  }

  // ---------------------------------------------------------------- what is recorded

  /** An operation row and the rows beside it: what wrote it, and when, are kept to say what a run did. */
  datatype Row = Row(key: nat, kind: Kind, receipt: Receipt, writer: nat, asked: Body, late: bool)

  /** The movements of what is not priced. */
  function MovementsFor(body: Body): seq<Movement>
    requires !body.Payment?
  {
    match body
    case Move(leg) => Ledger.Movements([leg])
    case Capture(_, held, amount, to) => Ledger.CaptureMovements(held, amount, to)
    case Credit(deed, wallet, amount) =>
      [Plain(wallet, if deed.Opening? then Withdraw else Deposit, amount, false, false)]
    case Settlement(_, _, first, others) => [first] + others
    case Part(_, first, others) => [first] + others
    case Repair(wallet, difference) => [Ledger.AdjustMovement(wallet, 0, 0, difference)]
  }

  predicate Records(receipt: Receipt, movements: seq<Movement>) {
    && |receipt.entries| == |movements|
    && forall k | 0 <= k < |movements| :: RecordedAs(receipt.entries[k], receipt.operation, Placed(k, movements[k]))
  }

  /** What an attempt writes is what its request priced to, whatever that was. */
  ghost predicate WrittenFor(body: Body, receipt: Receipt) {
    if body.Payment? then
      exists p: Transfers.Payment, base, arrived, deductible ::
        PaymentFor(p, body.request, base, arrived, deductible, receipt)
    else
      && Records(receipt, MovementsFor(body)) && receipt.requested == None
      && (body.Settlement? ==> receipt.settles == body.operation)
      && (body.Part? ==> receipt.refers == Some(body.operation))
  }

  ghost predicate PaymentFor(
    p: Transfers.Payment, request: Request, base: int, arrived: int, deductible: bool, receipt: Receipt)
  {
    Answers(p, request, base, arrived, deductible) && Recorded(p, request, base) && ReceiptOf(receipt, p)
  }

  /** A claim, read off a receipt. */
  predicate Asked(claim: Claim, receipt: Receipt) {
    match claim
    case OneMovement(wallet, kind, amount, pending) => AskedMovement(wallet, kind, amount, pending, receipt)
    case TwoSides(_, from, to, amount, withdrawalPending, depositPending) =>
      AskedTransfer(Request(from, to, amount, withdrawalPending, depositPending, false), receipt)
    case Settles(_, operation) => receipt.settles == operation
    case GivesBack(operation, amount) =>
      receipt.refers == Some(operation) && receipt.entries != [] && receipt.entries[0].amount == amount
    case Repairs(wallet) => |receipt.entries| == 1 && receipt.entries[0].wallet == wallet
  }

  /** replay: whether a row is the answer to a request under its key, or to another one. */
  predicate Claimed(body: Body, row: Row) {
    row.kind == KindOf(ClaimOf(body)) && MovedFor(Owner(body), row.receipt) && Asked(ClaimOf(body), row.receipt)
  }

  /** Of the claims of its kind, the rows of a request meet its own and no other. */
  lemma OnlyItsClaimIsMet(asked: Body, receipt: Receipt, claim: Claim)
    requires WrittenFor(asked, receipt) && KindOf(claim) == KindOf(ClaimOf(asked))
    ensures Asked(claim, receipt) <==> claim == ClaimOf(asked)
    ensures MovedFor(Owner(asked), receipt)
  {
    if asked.Payment? {
      var p: Transfers.Payment, base, arrived, deductible :|
        PaymentFor(p, asked.request, base, arrived, deductible, receipt);
      var other := Request(claim.from, claim.to, claim.amount, claim.withdrawalPending, claim.depositPending, false);
      OnlyTheSamePaymentIsReplayed(p, asked.request, other, base, arrived, deductible, receipt);
    } else {
      assert RecordedAs(receipt.entries[0], receipt.operation, Placed(0, MovementsFor(asked)[0]));
      if |receipt.entries| > 1 {
        assert RecordedAs(receipt.entries[1], receipt.operation, Placed(1, MovementsFor(asked)[1]));
      }
    }
  }

  /** A row answers a request exactly when the request that wrote it has the same claim: the same
      kind, and the same wallets, amount and waiting sides, the same operation settled or given back,
      or the same wallet repaired. */
  lemma OnlyTheSameRequestIsAnswered(body: Body, row: Row)
    requires WrittenFor(row.asked, row.receipt) && row.kind == KindOf(ClaimOf(row.asked)) && Agree(body, row.asked)
    ensures Claimed(body, row) <==> ClaimOf(body) == ClaimOf(row.asked)
  {
    if row.kind == KindOf(ClaimOf(body)) {
      OnlyItsClaimIsMet(row.asked, row.receipt, ClaimOf(body));
    }
  }

  // ---------------------------------------------------------------- the callers

  datatype Answer =
    | Fresh(row: nat)
    | Replayed(row: nat)
    | OperationConflict
    | GaveUp(lookupFailed: bool)

  /** Looking before pricing; about to try; having failed, or not having heard; or done. */
  datatype Phase = Looking | Trying(attempt: nat) | Failed(attempt: nat, conflicted: bool) | Done(answer: Answer)

  /** inFlight is what was sent, is not heard of and is not there yet. */
  datatype Caller = Caller(key: nat, body: Body, phase: Phase, inFlight: seq<Receipt>)

  datatype State = State(rows: seq<Row>, callers: seq<Caller>)

  /** Whether the caller hears of its commit, and whether what it does not hear of is there already. */
  datatype Hearing = Heard | Lost | Late

  /** What befalls a step: a lookup that fails or not, and is the last because the caller's own time
      is over; an attempt that commits, or is refused; and a commit in flight that lands. */
  datatype Fate =
    | Lookup(fails: bool, cancelled: bool)
    | Commits(receipt: Receipt, hearing: Hearing, conflicted: bool)
    | RollsBack(conflicted: bool)
    | Lands(sent: nat)

  datatype Step = Step(caller: nat, fate: Fate)

  /** The row a key names, and how many there are where it names none. */
  function Find(rows: seq<Row>, key: nat): (k: nat)
    ensures k <= |rows|
    ensures forall j | 0 <= j < k :: rows[j].key != key
    ensures k < |rows| ==> rows[k].key == key
  {
    if rows == [] || rows[0].key == key then 0 else 1 + Find(rows[1..], key)
  }

  predicate Spent(rows: seq<Row>, key: nat) {
    Find(rows, key) < |rows|
  }

  /** No row of a key. */
  predicate Unspent(rows: seq<Row>, key: nat) {
    forall k | 0 <= k < |rows| :: rows[k].key != key
  }

  /** What a lookup answers, where it finds the key spent. */
  function Replay(rows: seq<Row>, c: Caller): Option<Answer> {
    var k := Find(rows, c.key);
    if k == |rows| then None
    else if Claimed(c.body, rows[k]) then Some(Replayed(k))
    else Some(OperationConflict)
  }

  /** Credit calls go straight to their transaction; every other one looks its key up first. */
  function First(body: Body): Phase {
    if body.Credit? then Trying(1) else Looking
  }

  /** After a failure that no row answers: only a conflict is sent again, only so often, and only while
      the caller waits. */
  function Again(attempt: nat, conflicted: bool, fate: Fate): Phase
    requires fate.Lookup?
  {
    if !conflicted || attempt >= MAX_COMMIT_ATTEMPTS || fate.cancelled then Done(GaveUp(fate.fails))
    else Trying(attempt + 1)
  }

  function RowOf(c: Caller, i: nat, receipt: Receipt, late: bool): Row {
    Row(c.key, KindOf(ClaimOf(c.body)), receipt, i, c.body, late)
  }

  function Moved(s: State, i: nat, phase: Phase): State
    requires i < |s.callers|
  {
    s.(callers := s.callers[i := s.callers[i].(phase := phase)])
  }

  /** The unique index lets no second row of a key in. */
  function Next(s: State, step: Step): State {
    if step.caller >= |s.callers| then s
    else
      var i, c := step.caller, s.callers[step.caller];
      match (c.phase, step.fate)
      case (Looking, Lookup(fails, _)) =>
        var answer := Replay(s.rows, c);
        Moved(s, i, if fails then Done(GaveUp(true)) else if answer.Some? then Done(answer.value) else Trying(1))
      case (Trying(n), Commits(receipt, Late, conflicted)) =>
        s.(callers := s.callers[i := c.(phase := Failed(n, conflicted), inFlight := c.inFlight + [receipt])])
      case (Trying(n), Commits(receipt, hearing, conflicted)) =>
        if Spent(s.rows, c.key) then Moved(s, i, Failed(n, conflicted))
        else
          Moved(s, i, if hearing == Heard then Done(Fresh(|s.rows|)) else Failed(n, conflicted))
            .(rows := s.rows + [RowOf(c, i, receipt, false)])
      case (Trying(n), RollsBack(conflicted)) => Moved(s, i, Failed(n, conflicted))
      case (Failed(n, conflicted), Lookup(fails, _)) =>
        var answer := Replay(s.rows, c);
        Moved(s, i, if !fails && answer.Some? then Done(answer.value) else Again(n, conflicted, step.fate))
      case (_, Lands(k)) =>
        if k >= |c.inFlight| || Spent(s.rows, c.key) then s
        else s.(rows := s.rows + [RowOf(c, i, c.inFlight[k], true)])
      case _ => s
  }

  function Run(s: State, steps: seq<Step>): State {
    if steps == [] then s else Next(Run(s, steps[..|steps| - 1]), steps[|steps| - 1])
  }

  /** Every attempt writes what its caller's request priced to. */
  ghost predicate Faithful(s: State, step: Step) {
    step.caller < |s.callers| && step.fate.Commits? ==> WrittenFor(s.callers[step.caller].body, step.fate.receipt)
  }

  // ---------------------------------------------------------------- what every run keeps

  ghost predicate RowInOrder(s: State, k: nat)
    requires k < |s.rows|
  {
    var row := s.rows[k];
    && row.writer < |s.callers| && row.key == s.callers[row.writer].key && row.asked == s.callers[row.writer].body
    && row.kind == KindOf(ClaimOf(row.asked)) && WrittenFor(row.asked, row.receipt)
    && (row.late ==> row.receipt in s.callers[row.writer].inFlight)
  }

  predicate KeysDiffer(rows: seq<Row>) {
    forall j, k | 0 <= j < k < |rows| :: rows[j].key != rows[k].key
  }

  predicate WroteNothing(rows: seq<Row>, c: nat) {
    forall k | 0 <= k < |rows| :: rows[k].writer != c
  }

  /** Whatever it wrote landed after it was sent. */
  predicate WroteOnlyLate(rows: seq<Row>, c: nat) {
    forall k | 0 <= k < |rows| && rows[k].writer == c :: rows[k].late
  }

  predicate Conflicts(rows: seq<Row>, c: Caller) {
    exists k :: 0 <= k < |rows| && rows[k].key == c.key && ClaimOf(c.body) != ClaimOf(rows[k].asked)
  }

  /** What an answer says is so. */
  predicate AnswerHolds(rows: seq<Row>, i: nat, c: Caller, answer: Answer) {
    match answer
    case Fresh(k) => k < |rows| && rows[k].key == c.key && rows[k].writer == i
    case Replayed(k) => k < |rows| && rows[k].key == c.key && ClaimOf(c.body) == ClaimOf(rows[k].asked)
    case OperationConflict => Conflicts(rows, c) && WroteNothing(rows, i)
    case GaveUp(lookupFailed) => lookupFailed || WroteOnlyLate(rows, i)
  }

  predicate PhaseHolds(rows: seq<Row>, i: nat, c: Caller) {
    match c.phase
    case Looking => true
    case Trying(n) => 1 <= n <= MAX_COMMIT_ATTEMPTS
    case Failed(n, _) => 1 <= n <= MAX_COMMIT_ATTEMPTS
    case Done(answer) => AnswerHolds(rows, i, c, answer)
  }

  ghost predicate CallerInOrder(rows: seq<Row>, i: nat, c: Caller) {
    && PhaseHolds(rows, i, c)
    && forall k | 0 <= k < |c.inFlight| :: WrittenFor(c.body, c.inFlight[k])
  }

  predicate AllAgree(callers: seq<Caller>) {
    forall i, j | 0 <= i < |callers| && 0 <= j < |callers| :: Agree(callers[i].body, callers[j].body)
  }

  ghost predicate InOrder(s: State) {
    && KeysDiffer(s.rows) && AllAgree(s.callers)
    && (forall k {:trigger RowInOrder(s, k)} | 0 <= k < |s.rows| :: RowInOrder(s, k))
    && (forall i | 0 <= i < |s.callers| :: CallerInOrder(s.rows, i, s.callers[i]))
  }

  /** Where every run starts: nothing is recorded, and nobody asked anything yet. */
  predicate Untouched(s: State) {
    && s.rows == [] && AllAgree(s.callers)
    && forall i | 0 <= i < |s.callers| :: s.callers[i].phase == First(s.callers[i].body) && s.callers[i].inFlight == []
  }

  /** What a lookup answers is so. */
  lemma ReplayHolds(s: State, i: nat)
    requires InOrder(s) && i < |s.callers|
    ensures var answer := Replay(s.rows, s.callers[i]);
            if answer.Some? then AnswerHolds(s.rows, i, s.callers[i], answer.value)
            else WroteNothing(s.rows, i)
  {
    var c := s.callers[i];
    var k := Find(s.rows, c.key);
    if k < |s.rows| {
      assert RowInOrder(s, k);
      OnlyTheSameRequestIsAnswered(c.body, s.rows[k]);
      forall j | 0 <= j < |s.rows| && s.rows[j].writer == i ensures j == k {
        assert RowInOrder(s, j);
      }
    } else {
      forall j | 0 <= j < |s.rows| ensures s.rows[j].writer != i {
        assert RowInOrder(s, j);
      }
    }
  }

  /** A caller as it was but for its phase and what it sent. */
  predicate SameCaller(c: Caller, d: Caller) {
    d.key == c.key && d.body == c.body && c.inFlight <= d.inFlight
  }

  /** Moving one caller on, with the rows as they are. */
  lemma CallerMoved(s: State, i: nat, d: Caller)
    requires InOrder(s) && i < |s.callers| && SameCaller(s.callers[i], d) && CallerInOrder(s.rows, i, d)
    ensures InOrder(s.(callers := s.callers[i := d]))
  {
    var t := s.(callers := s.callers[i := d]);
    forall k | 0 <= k < |t.rows| ensures RowInOrder(t, k) {
      assert RowInOrder(s, k);
    }
  }

  /** Writing the row of a caller's key, where there is none, at its attempt or late. */
  lemma RowWritten(s: State, i: nat, phase: Phase, receipt: Receipt, late: bool)
    requires InOrder(s) && i < |s.callers| && !Spent(s.rows, s.callers[i].key)
    requires WrittenFor(s.callers[i].body, receipt) && (late ==> receipt in s.callers[i].inFlight)
    requires if late then phase == s.callers[i].phase
             else || phase == Done(Fresh(|s.rows|))
                  || (phase.Failed? && 1 <= phase.attempt <= MAX_COMMIT_ATTEMPTS)
    ensures InOrder(Moved(s, i, phase).(rows := s.rows + [RowOf(s.callers[i], i, receipt, late)]))
  {
    var c := s.callers[i];
    var t := Moved(s, i, phase).(rows := s.rows + [RowOf(c, i, receipt, late)]);
    forall k | 0 <= k < |t.rows| ensures RowInOrder(t, k) {
      if k < |s.rows| {
        assert RowInOrder(s, k);
      }
    }
    forall j | 0 <= j < |t.callers| ensures CallerInOrder(t.rows, j, t.callers[j]) {
      assert CallerInOrder(s.rows, j, s.callers[j]);
      if j != i || late {
        AnswersStayTrue(s, t.rows, i, j);
      }
    }
  }

  /** A row another caller writes, or one that lands late, leaves what an answer says. */
  lemma AnswersStayTrue(s: State, rows: seq<Row>, i: nat, j: nat)
    requires j < |s.callers| && PhaseHolds(s.rows, j, s.callers[j])
    requires |rows| == |s.rows| + 1 && rows[..|s.rows|] == s.rows && rows[|s.rows|].writer == i
    requires i == j ==> rows[|s.rows|].late && !Spent(s.rows, s.callers[j].key)
    ensures PhaseHolds(rows, j, s.callers[j])
  {
    assert forall k | 0 <= k < |s.rows| :: rows[k] == s.rows[k];
    var c := s.callers[j];
    if c.phase == Done(OperationConflict) {
      var k :| 0 <= k < |s.rows| && s.rows[k].key == c.key && ClaimOf(c.body) != ClaimOf(s.rows[k].asked);
      assert rows[k].key == c.key && ClaimOf(c.body) != ClaimOf(rows[k].asked);
    }
  }

  lemma StepKeepsOrder(s: State, step: Step)
    requires InOrder(s) && Faithful(s, step)
    ensures InOrder(Next(s, step))
  {
    if step.caller < |s.callers| {
      var i, c := step.caller, s.callers[step.caller];
      assert CallerInOrder(s.rows, i, c);
      match (c.phase, step.fate)
      case (Looking, Lookup(fails, _)) => {
        ReplayHolds(s, i);
        CallerMoved(s, i, Next(s, step).callers[i]);
      }
      case (Trying(n), Commits(receipt, hearing, conflicted)) => {
        if hearing == Late || Spent(s.rows, c.key) {
          CallerMoved(s, i, Next(s, step).callers[i]);
        } else {
          RowWritten(s, i, Next(s, step).callers[i].phase, receipt, false);
        }
      }
      case (Trying(n), RollsBack(conflicted)) => {
        CallerMoved(s, i, Next(s, step).callers[i]);
      }
      case (Failed(n, conflicted), Lookup(fails, _)) => {
        ReplayHolds(s, i);
        CallerMoved(s, i, Next(s, step).callers[i]);
      }
      case (_, Lands(k)) => {
        if k < |c.inFlight| && !Spent(s.rows, c.key) {
          RowWritten(s, i, c.phase, c.inFlight[k], true);
          assert Moved(s, i, c.phase).callers == s.callers;
        }
      }
      case _ => {
      }
    }
  }

  ghost predicate FaithfulAt(s: State, steps: seq<Step>, k: nat)
    requires k < |steps|
  {
    Faithful(Run(s, steps[..k]), steps[k])
  }

  ghost predicate FaithfulRun(s: State, steps: seq<Step>) {
    forall k {:trigger FaithfulAt(s, steps, k)} | 0 <= k < |steps| :: FaithfulAt(s, steps, k)
  }

  lemma {:induction false} EveryRunIsInOrder(s: State, steps: seq<Step>)
    requires InOrder(s) && FaithfulRun(s, steps)
    ensures InOrder(Run(s, steps))
  {
    if steps != [] {
      var n := |steps| - 1;
      forall k | 0 <= k < n ensures FaithfulAt(s, steps[..n], k) {
        assert FaithfulAt(s, steps, k) && steps[..n][..k] == steps[..k];
      }
      EveryRunIsInOrder(s, steps[..n]);
      assert FaithfulAt(s, steps, n);
      StepKeepsOrder(Run(s, steps[..n]), steps[n]);
    }
  }

  // ---------------------------------------------------------------- what it means for a key

  /** The operation an answer is about. */
  predicate About(answer: Answer, k: nat) {
    answer == Fresh(k) || answer == Replayed(k)
  }

  /** Over every run: a key has at most one operation and one set of entries, every receipt returned
      under it is about that operation, whoever asked and however often, and only to requests of its
      claim; at most one of them is not a replay. It is the receipt of the request it is returned to
      exactly when both are for the same: where they are for two holds, two credit calls, or a hold and
      plain money, the caller is answered and wrote nothing. */
  lemma {:induction false} OneKeyOneOperation(s: State, steps: seq<Step>, i: nat, j: nat, a: nat, b: nat)
    requires Untouched(s) && FaithfulRun(s, steps)
    requires var t := Run(s, steps); i < |t.callers| && j < |t.callers| && t.callers[i].key == t.callers[j].key
    requires var t := Run(s, steps);
             && t.callers[i].phase.Done? && About(t.callers[i].phase.answer, a)
             && t.callers[j].phase.Done? && About(t.callers[j].phase.answer, b)
    ensures var t := Run(s, steps);
            && a == b < |t.rows| && t.rows[a].key == t.callers[i].key
            && (forall k | 0 <= k < |t.rows| && t.rows[k].key == t.callers[i].key :: k == a)
            && ClaimOf(t.callers[i].body) == ClaimOf(t.rows[a].asked)
            && (t.callers[i].phase.answer.Fresh? && t.callers[j].phase.answer.Fresh? ==> i == j)
    ensures var t := Run(s, steps);
            && (SameBody(t.callers[i].body, t.rows[a].asked)
                <==> PurposeOf(t.callers[i].body) == PurposeOf(t.rows[a].asked))
            && (!SameBody(t.callers[i].body, t.rows[a].asked) ==> WroteNothing(t.rows, i))
  {
    EveryRunIsInOrder(s, steps);
    var t := Run(s, steps);
    assert CallerInOrder(t.rows, i, t.callers[i]) && CallerInOrder(t.rows, j, t.callers[j]);
    assert RowInOrder(t, a);
    WhatAClaimLeavesOut(t.callers[i].body, t.rows[a].asked);
    OnlyItsRow(t, i, a);
  }

  /** Where a key is spent, nobody of that key wrote anything but its row. */
  lemma OnlyItsRow(t: State, i: nat, a: nat)
    requires InOrder(t) && i < |t.callers| && a < |t.rows| && t.rows[a].key == t.callers[i].key
    ensures forall k | 0 <= k < |t.rows| && t.rows[k].writer == i :: k == a && t.rows[k].asked == t.callers[i].body
  {
    forall k | 0 <= k < |t.rows| && t.rows[k].writer == i ensures k == a && t.rows[k].asked == t.callers[i].body {
      assert RowInOrder(t, k);
    }
  }

  /** Over every run: a request whose claim does not match is refused with nothing written by it. One
      that gave up without its last lookup failing wrote nothing either, but by a commit of its own that
      it did not hear of and that landed after that lookup. */
  lemma {:induction false} RefusedWroteNothing(s: State, steps: seq<Step>, i: nat)
    requires Untouched(s) && FaithfulRun(s, steps) && i < |Run(s, steps).callers|
    requires var phase := Run(s, steps).callers[i].phase;
             phase == Done(OperationConflict) || phase == Done(GaveUp(false))
    ensures var t := Run(s, steps);
            && WroteOnlyLate(t.rows, i) && (t.callers[i].inFlight == [] ==> WroteNothing(t.rows, i))
            && (t.callers[i].phase.answer == OperationConflict ==>
                  Conflicts(t.rows, t.callers[i]) && WroteNothing(t.rows, i))
  {
    EveryRunIsInOrder(s, steps);
    var t := Run(s, steps);
    assert CallerInOrder(t.rows, i, t.callers[i]);
    forall k | 0 <= k < |t.rows| && t.rows[k].writer == i ensures t.callers[i].inFlight != [] {
      assert RowInOrder(t, k);
    }
  }

  /** Over every run: a request under a key a request of another claim is recorded under has written
      nothing, and whatever it is answered, it is no receipt. */
  lemma {:induction false} AMismatchWritesNothing(s: State, steps: seq<Step>, i: nat, k: nat)
    requires Untouched(s) && FaithfulRun(s, steps) && i < |Run(s, steps).callers| && k < |Run(s, steps).rows|
    requires var t := Run(s, steps);
             t.rows[k].key == t.callers[i].key && ClaimOf(t.callers[i].body) != ClaimOf(t.rows[k].asked)
    ensures var t := Run(s, steps);
            && WroteNothing(t.rows, i)
            && (t.callers[i].phase.Done? ==> !t.callers[i].phase.answer.Fresh? && !t.callers[i].phase.answer.Replayed?)
  {
    EveryRunIsInOrder(s, steps);
    MismatchIn(Run(s, steps), i, k);
  }

  lemma MismatchIn(t: State, i: nat, k: nat)
    requires InOrder(t) && i < |t.callers| && k < |t.rows|
    requires t.rows[k].key == t.callers[i].key && ClaimOf(t.callers[i].body) != ClaimOf(t.rows[k].asked)
    ensures WroteNothing(t.rows, i)
    ensures t.callers[i].phase.Done? ==> !t.callers[i].phase.answer.Fresh? && !t.callers[i].phase.answer.Replayed?
  {
    assert CallerInOrder(t.rows, i, t.callers[i]);
    OnlyItsRow(t, i, k);
  }

  /** A lookup that does not fail and finds the key spent answers, before the first attempt and after a
      failed one alike: with the operation where the claim is the request's, and with a conflict where
      it is another. */
  lemma ASpentKeyIsAnswered(s: State, i: nat, k: nat, cancelled: bool)
    requires InOrder(s) && i < |s.callers| && k < |s.rows| && s.rows[k].key == s.callers[i].key
    requires s.callers[i].phase.Looking? || s.callers[i].phase.Failed?
    ensures Next(s, Step(i, Lookup(false, cancelled))).callers[i].phase
            == Done(if ClaimOf(s.callers[i].body) == ClaimOf(s.rows[k].asked) then Replayed(k) else OperationConflict)
  {
    assert RowInOrder(s, k);
    OnlyTheSameRequestIsAnswered(s.callers[i].body, s.rows[k]);
  }

  /** And a first lookup that finds nothing is followed by an attempt; one that fails, by nothing. */
  lemma AnUnspentKeyIsTried(s: State, i: nat, fails: bool, cancelled: bool)
    requires i < |s.callers| && s.callers[i].phase == Looking && Unspent(s.rows, s.callers[i].key)
    ensures Next(s, Step(i, Lookup(fails, cancelled))).callers[i].phase == if fails then Done(GaveUp(true))
            else Trying(1)
  {
  }

  // ---------------------------------------------------------------- inputs

  /** A run of four steps or fewer, one at a time. */
  lemma StepByStep(s: State, steps: seq<Step>)
    ensures Run(s, steps[..0]) == s
    ensures forall n | 0 <= n < |steps| :: Run(s, steps[..n + 1]) == Next(Run(s, steps[..n]), steps[n])
    ensures steps[..|steps|] == steps
  {
    forall n | 0 <= n < |steps| ensures Run(s, steps[..n + 1]) == Next(Run(s, steps[..n]), steps[n]) {
      assert steps[..n + 1][..n] == steps[..n];
    }
  }

  /** Two callers of one key, for the same money of the same wallets. */
  predicate TwoOfOneKey(s: State) {
    && Untouched(s) && |s.callers| == 2 && s.callers[0].key == s.callers[1].key
    && ClaimOf(s.callers[0].body) == ClaimOf(s.callers[1].body)
  }

  /** What follows once the first is there: the second, sent without a lookup or after one that found
      nothing, fails and looks up the other's operation. */
  lemma TheSecondIsAnswered(s: State, receipt: Receipt, step: Step)
    requires |s.callers| == 2 && s.rows == [RowOf(s.callers[0], 0, receipt, false)]
    requires s.callers[0].key == s.callers[1].key && ClaimOf(s.callers[0].body) == ClaimOf(s.callers[1].body)
    requires Agree(s.callers[1].body, s.callers[0].body) && WrittenFor(s.callers[0].body, receipt)
    requires s.callers[1].phase.Looking? || s.callers[1].phase.Failed?
    requires step == Step(1, Lookup(false, false))
    ensures Next(s, step).rows == s.rows && Next(s, step).callers[0] == s.callers[0]
    ensures Next(s, step).callers[1] == s.callers[1].(phase := Done(Replayed(0)))
  {
    OnlyTheSameRequestIsAnswered(s.callers[1].body, s.rows[0]);
  }

  /** Two holds of one wallet captured for one amount under one key: the second capture is answered
      with the first one's receipt, and its own hold is captured by nothing. */
  lemma TwoHoldsOneKey(s: State, steps: seq<Step>, receipt: Receipt)
    requires TwoOfOneKey(s) && s.callers[0].body.Capture? && s.callers[1].body.Capture?
    requires s.callers[0].body.hold != s.callers[1].body.hold && WrittenFor(s.callers[0].body, receipt)
    requires |steps| == 3 && steps[0] == Step(0, Lookup(false, false))
    requires steps[1] == Step(0, Commits(receipt, Heard, false)) && steps[2] == Step(1, Lookup(false, false))
    ensures var t := Run(s, steps);
            && |t.callers| == 2 && t.callers[1].phase == Done(Replayed(0))
            && |t.rows| == 1 && t.rows[0].asked == s.callers[0].body && t.rows[0].asked.hold != s.callers[1].body.hold
  {
    StepByStep(s, steps);
    var first, second := Next(s, steps[0]), Next(Next(s, steps[0]), steps[1]);
    assert first == Moved(s, 0, Trying(1));
    TheSecondIsAnswered(second, receipt, steps[2]);
    assert Run(s, steps[..1]) == first && Run(s, steps[..2]) == second;
  }

  /** Two installments of one amount paid under one key: the second payment is answered with the first
      one's receipt, and its installment is paid by nothing. */
  lemma TwoInstallmentsOneKey(s: State, steps: seq<Step>, receipt: Receipt, other: Receipt)
    requires TwoOfOneKey(s) && s.callers[0].body.Credit? && s.callers[1].body.Credit?
    requires s.callers[0].body.deed.PayingInstallment? && s.callers[1].body.deed.PayingInstallment?
    requires s.callers[0].body.deed != s.callers[1].body.deed && WrittenFor(s.callers[0].body, receipt)
    requires |steps| == 3 && steps[0] == Step(0, Commits(receipt, Heard, false))
    requires steps[1] == Step(1, Commits(other, Heard, false)) && steps[2] == Step(1, Lookup(false, false))
    ensures var t := Run(s, steps);
            && |t.callers| == 2 && t.callers[1].phase == Done(Replayed(0))
            && |t.rows| == 1 && t.rows[0].asked == s.callers[0].body && t.rows[0].asked.deed != s.callers[1].body.deed
  {
    StepByStep(s, steps);
    var first, second := Next(s, steps[0]), Next(Next(s, steps[0]), steps[1]);
    assert first.rows == [RowOf(s.callers[0], 0, receipt, false)];
    assert second == Moved(first, 1, Failed(1, false));
    TheSecondIsAnswered(second, receipt, steps[2]);
    assert Run(s, steps[..1]) == first && Run(s, steps[..2]) == second;
  }

  /** A commit nobody heard of, and the lookup after it failing too: the caller gives up, and its
      operation is there. */
  lemma GivingUpAfterAFailedLookup(s: State, steps: seq<Step>, receipt: Receipt)
    requires Untouched(s) && |s.callers| == 1 && s.callers[0].phase == Looking
    requires |steps| == 3 && steps[0] == Step(0, Lookup(false, false))
    requires steps[1] == Step(0, Commits(receipt, Lost, false)) && steps[2] == Step(0, Lookup(true, false))
    ensures var t := Run(s, steps);
            |t.callers| == 1 && t.callers[0].phase == Done(GaveUp(true)) && !WroteNothing(t.rows, 0)
  {
    StepByStep(s, steps);
    var first, second := Next(s, steps[0]), Next(Next(s, steps[0]), steps[1]);
    assert second.rows[0].writer == 0;
    assert Run(s, steps[..1]) == first && Run(s, steps[..2]) == second;
  }

  /** A commit nobody heard of that lands after the lookup that found nothing: the caller gives up, and
      its operation is there. */
  lemma GivingUpBeforeItLands(s: State, steps: seq<Step>, receipt: Receipt)
    requires Untouched(s) && |s.callers| == 1 && s.callers[0].phase == Looking
    requires |steps| == 4 && steps[0] == Step(0, Lookup(false, false))
    requires steps[1] == Step(0, Commits(receipt, Late, false)) && steps[2] == Step(0, Lookup(false, false))
    requires steps[3] == Step(0, Lands(0))
    ensures var t := Run(s, steps);
            |t.callers| == 1 && t.callers[0].phase == Done(GaveUp(false)) && !WroteNothing(t.rows, 0)
  {
    StepByStep(s, steps);
    var first, second := Next(s, steps[0]), Next(Next(s, steps[0]), steps[1]);
    var third := Next(second, steps[2]);
    var last := Next(third, steps[3]);
    assert third.callers[0].phase == Done(GaveUp(false)) && third.callers[0].inFlight == [receipt];
    assert last.rows[0].writer == 0;
    assert Run(s, steps[..1]) == first && Run(s, steps[..2]) == second && Run(s, steps[..3]) == third;
  }

  // ---------------------------------------------------------------- the loop ends

  /** How many steps a caller can still take. */
  function Left(c: Caller): nat {
    match c.phase
    case Looking => 2 * MAX_COMMIT_ATTEMPTS + 1
    case Trying(n) => if n > MAX_COMMIT_ATTEMPTS then 0 else 2 * (MAX_COMMIT_ATTEMPTS - n) + 2
    case Failed(n, _) => if n > MAX_COMMIT_ATTEMPTS then 0 else 2 * (MAX_COMMIT_ATTEMPTS - n) + 1
    case Done(_) => 0
  }

  /** A step the caller is waiting for. */
  predicate Enabled(s: State, step: Step) {
    && step.caller < |s.callers|
    && match s.callers[step.caller].phase
       case Looking => step.fate.Lookup?
       case Trying(_) => OfAttempt(step.fate)
       case Failed(_, _) => step.fate.Lookup?
       case Done(_) => false
  }

  /** How many steps of a run a caller took. */
  function Taken(s: State, steps: seq<Step>, i: nat): nat {
    if steps == [] then 0
    else
      var n := |steps| - 1;
      Taken(s, steps[..n], i) + if steps[n].caller == i && Enabled(Run(s, steps[..n]), steps[n]) then 1 else 0
  }

  predicate CallerCounts(c: Caller) {
    match c.phase
    case Trying(n) => 1 <= n <= MAX_COMMIT_ATTEMPTS
    case Failed(n, _) => 1 <= n <= MAX_COMMIT_ATTEMPTS
    case _ => true
  }

  lemma StepCounts(s: State, step: Step, i: nat)
    requires i < |s.callers| && CallerCounts(s.callers[i])
    ensures var t := Next(s, step);
            && |t.callers| == |s.callers| && CallerCounts(t.callers[i])
            && (if step.caller == i && Enabled(s, step) then Left(t.callers[i]) < Left(s.callers[i])
                else t.callers[i] == s.callers[i])
  {
  }

  /** Whatever the others do, a caller is done after at most nine steps of its own: one lookup, and an
      attempt and a lookup four times. */
  lemma {:induction false} TheLoopEnds(s: State, steps: seq<Step>, i: nat)
    requires i < |s.callers| && CallerCounts(s.callers[i])
    ensures var t := Run(s, steps);
            && |t.callers| == |s.callers| && CallerCounts(t.callers[i])
            && Taken(s, steps, i) + Left(t.callers[i]) <= Left(s.callers[i]) <= 2 * MAX_COMMIT_ATTEMPTS + 1
            && (Left(t.callers[i]) == 0 <==> t.callers[i].phase.Done?)
  {
    if steps != [] {
      TheLoopEnds(s, steps[..|steps| - 1], i);
      StepCounts(Run(s, steps[..|steps| - 1]), steps[|steps| - 1], i);
    }
  }

  // ---------------------------------------------------------------- the loop itself

  /** What happens before an attempt and before the lookup after it, and what befalls both. */
  datatype Weather =
    Weather(before: seq<Step>, attempt: Fate, between: seq<Step>, lookupFails: bool, cancelled: bool)

  /** The others' steps, and the landing of what a caller sent and did not hear of. */
  predicate NotMine(steps: seq<Step>, i: nat) {
    forall k | 0 <= k < |steps| :: steps[k].caller != i || steps[k].fate.Lands?
  }

  predicate OfAttempt(fate: Fate) {
    fate.Commits? || fate.RollsBack?
  }

  lemma OneMoreOfTwo(s: State, first: seq<Step>, rest: seq<Step>, last: Step)
    requires Run(s, first + rest) == Run(Run(s, first), rest)
    ensures Run(s, first + (rest + [last])) == Run(Run(s, first), rest + [last])
  {
    var u := Run(s, first + rest);
    assert Run(s, first + (rest + [last])) == Next(u, last) by {
      OneMoreStep(s, first + rest, last);
      assert first + (rest + [last]) == first + rest + [last];
    }
    assert Run(Run(s, first), rest + [last]) == Next(u, last) by {
      OneMoreStep(Run(s, first), rest, last);
    }
  }

  lemma {:induction false} RunInTwo(s: State, first: seq<Step>, second: seq<Step>)
    ensures Run(s, first + second) == Run(Run(s, first), second)
  {
    if second == [] {
      assert first + second == first;
    } else {
      var rest, last := second[..|second| - 1], second[|second| - 1];
      RunInTwo(s, first, rest);
      OneMoreOfTwo(s, first, rest, last);
      assert second == rest + [last];
    }
  }

  lemma {:induction false} OthersLeaveMine(s: State, steps: seq<Step>, i: nat)
    requires NotMine(steps, i) && i < |s.callers|
    ensures |Run(s, steps).callers| == |s.callers| && Run(s, steps).callers[i] == s.callers[i]
  {
    if steps != [] {
      OthersLeaveMine(s, steps[..|steps| - 1], i);
    }
  }

  /** The steps of one turn of the loop that does not end at its attempt, and of the first n turns. */
  function TurnSteps(w: Weather, i: nat): seq<Step> {
    w.before + [Step(i, w.attempt)] + w.between + [Step(i, Lookup(w.lookupFails, w.cancelled))]
  }

  function Turns(weather: seq<Weather>, i: nat, n: nat): seq<Step>
    requires n <= |weather|
  {
    if n == 0 then [] else Turns(weather, i, n - 1) + TurnSteps(weather[n - 1], i)
  }

  /** An attempt that fails on a conflict the caller waits out. */
  predicate WaitedOut(w: Weather) {
    OfAttempt(w.attempt) && w.attempt.conflicted && !w.cancelled
  }

  /** An attempt that commits and is heard, on a key nobody spent by then. */
  predicate HeardOn(s: State, w: Weather, key: nat) {
    w.attempt.Commits? && w.attempt.hearing == Heard && Unspent(Run(s, w.before).rows, key)
  }

  /** The attempt after k turns that failed on conflicts the caller waited out is one. */
  predicate ServedAt(s: State, weather: seq<Weather>, i: nat, k: nat)
    requires i < |s.callers| && k < |weather|
  {
    (forall n | 0 <= n < k :: WaitedOut(weather[n]))
      && HeardOn(Run(s, Turns(weather, i, k)), weather[k], s.callers[i].key)
  }

  /** A turn that was not served, and whose failure was sent again. */
  predicate FailedAt(s: State, weather: seq<Weather>, i: nat, n: nat)
    requires i < |s.callers| && n < |weather|
  {
    WaitedOut(weather[n]) && !HeardOn(Run(s, Turns(weather, i, n)), weather[n], s.callers[i].key)
  }

  /** How the loop ends: after turns that failed, one is served, finds the key spent, or gives up. */
  predicate LastTurn(s: State, weather: seq<Weather>, i: nat, tried: nat, answer: Answer)
    requires i < |s.callers| && 1 <= tried <= |weather|
  {
    var w := weather[tried - 1];
    && (forall n | 0 <= n < tried - 1 :: FailedAt(s, weather, i, n))
    && (answer.Fresh? <==> HeardOn(Run(s, Turns(weather, i, tried - 1)), w, s.callers[i].key))
    && (answer.GaveUp? ==> answer.lookupFailed == w.lookupFails && (tried == 4 || !WaitedOut(w)))
    && (!answer.Fresh? && !answer.GaveUp? ==> !Unspent(Run(s, Turns(weather, i, tried)).rows, s.callers[i].key))
  }

  lemma StepKeepsSpent(s: State, step: Step, key: nat)
    requires !Unspent(s.rows, key)
    ensures !Unspent(Next(s, step).rows, key)
  {
    var k :| 0 <= k < |s.rows| && s.rows[k].key == key;
    assert Next(s, step).rows[k] == s.rows[k];
  }

  lemma {:induction false} RunKeepsSpent(s: State, steps: seq<Step>, key: nat)
    requires !Unspent(s.rows, key)
    ensures !Unspent(Run(s, steps).rows, key)
  {
    if steps != [] {
      RunKeepsSpent(s, steps[..|steps| - 1], key);
      StepKeepsSpent(Run(s, steps[..|steps| - 1]), steps[|steps| - 1], key);
    }
  }

  /** Later turns come after earlier ones. */
  lemma {:induction false} TurnsGoOn(weather: seq<Weather>, i: nat, n: nat, k: nat) returns (rest: seq<Step>)
    requires n <= k <= |weather|
    ensures Turns(weather, i, k) == Turns(weather, i, n) + rest
  {
    if n == k {
      rest := [];
    } else {
      var before := TurnsGoOn(weather, i, n, k - 1);
      rest := before + TurnSteps(weather[k - 1], i);
    }
  }

  /** A key spent after a turn is spent before every later attempt. */
  lemma SpentBefore(s: State, weather: seq<Weather>, i: nat, n: nat, k: nat, key: nat)
    requires n <= k < |weather| && !Unspent(Run(s, Turns(weather, i, n)).rows, key)
    ensures !HeardOn(Run(s, Turns(weather, i, k)), weather[k], key)
  {
    var rest := TurnsGoOn(weather, i, n, k);
    RunInTwo(s, Turns(weather, i, n), rest);
    RunKeepsSpent(Run(s, Turns(weather, i, n)), rest, key);
    RunKeepsSpent(Run(s, Turns(weather, i, k)), weather[k].before, key);
  }

  /** However the loop ends, it is answered with a new operation exactly where some attempt was served. */
  lemma TheFirstServedIsAnswered(s: State, weather: seq<Weather>, i: nat, tried: nat, answer: Answer)
    requires i < |s.callers| && 1 <= tried <= |weather| == 4 && LastTurn(s, weather, i, tried, answer)
    ensures answer.Fresh? <==> exists k :: 0 <= k < 4 && ServedAt(s, weather, i, k)
    ensures forall n | 0 <= n < tried - 1 :: WaitedOut(weather[n])
  {
    forall n | 0 <= n < tried - 1 ensures WaitedOut(weather[n]) && !ServedAt(s, weather, i, n) {
      assert FailedAt(s, weather, i, n);
    }
    if answer.Fresh? {
      assert ServedAt(s, weather, i, tried - 1);
    } else {
      forall k | tried <= k < 4 ensures !ServedAt(s, weather, i, k) {
        if answer.GaveUp? {
          assert !WaitedOut(weather[tried - 1]);
        } else {
          SpentBefore(s, weather, i, tried, k, s.callers[i].key);
        }
      }
      assert !ServedAt(s, weather, i, tried - 1);
    }
  }

  /** The steps of a turn, and of one that its attempt ended. */
  function StepsOf(w: Weather, i: nat, answer: Option<Answer>): seq<Step> {
    if answer.Some? && answer.value.Fresh? then w.before + [Step(i, w.attempt)] else TurnSteps(w, i)
  }

  /** What one turn was: served, or failed and sent again, or the last. */
  predicate Turned(before: State, w: Weather, i: nat, attempt: nat, answer: Option<Answer>, after: State) {
    && i < |before.callers| && i < |after.callers| && after.callers[i].key == before.callers[i].key
    && (HeardOn(before, w, before.callers[i].key) <==> answer.Some? && answer.value.Fresh?)
    && (answer.None? ==> WaitedOut(w))
    && (answer.Some? && answer.value.GaveUp? ==>
          answer.value.lookupFailed == w.lookupFails && (attempt >= 4 || !WaitedOut(w)))
    && (answer.Some? && !answer.value.GaveUp? && !answer.value.Fresh? ==> !Unspent(after.rows, after.callers[i].key))
    && after == Run(before, StepsOf(w, i, answer))
  }

  /** The states between turns, the last of which answered. */
  predicate Trail(trail: seq<State>, weather: seq<Weather>, i: nat, tried: nat, answer: Answer) {
    && 1 <= tried <= |weather| && |trail| == tried + 1
    && (forall n {:trigger weather[n]} | 0 <= n < tried - 1 ::
          Turned(trail[n], weather[n], i, n + 1, None, trail[n + 1]))
    && Turned(trail[tried - 1], weather[tried - 1], i, tried, Some(answer), trail[tried])
  }

  lemma OneTurnOn(s: State, weather: seq<Weather>, i: nat, n: nat, u: State, v: State)
    requires n < |weather| && u == Run(s, Turns(weather, i, n)) && v == Run(u, TurnSteps(weather[n], i))
    ensures v == Run(s, Turns(weather, i, n + 1))
  {
    RunInTwo(s, Turns(weather, i, n), TurnSteps(weather[n], i));
  }

  lemma FailedTurn(trail: seq<State>, weather: seq<Weather>, i: nat, tried: nat, answer: Answer, n: nat)
    requires Trail(trail, weather, i, tried, answer) && n < tried - 1
    ensures i < |trail[n].callers| && i < |trail[n + 1].callers|
            && trail[n + 1].callers[i].key == trail[n].callers[i].key
    ensures trail[n + 1] == Run(trail[n], TurnSteps(weather[n], i))
    ensures WaitedOut(weather[n]) && !HeardOn(trail[n], weather[n], trail[n].callers[i].key)
  {
    assert Turned(trail[n], weather[n], i, n + 1, None, trail[n + 1]);
  }

  lemma {:induction false} TrailIsTurns(
      trail: seq<State>, weather: seq<Weather>, i: nat, tried: nat, answer: Answer, n: nat)
    requires Trail(trail, weather, i, tried, answer) && n < tried
    ensures trail[n] == Run(trail[0], Turns(weather, i, n))
  {
    if n > 0 {
      var k := n - 1;
      var u, v := trail[k], trail[k + 1];
      TrailIsTurns(trail, weather, i, tried, answer, k);
      FailedTurn(trail, weather, i, tried, answer, k);
      OneTurnOn(trail[0], weather, i, k, u, v);
    }
  }

  lemma {:induction false} TrailKeepsTheKey(
      trail: seq<State>, weather: seq<Weather>, i: nat, tried: nat, answer: Answer, n: nat)
    requires Trail(trail, weather, i, tried, answer) && n < tried
    ensures i < |trail[0].callers| && i < |trail[n].callers| && trail[n].callers[i].key == trail[0].callers[i].key
  {
    if n > 0 {
      TrailKeepsTheKey(trail, weather, i, tried, answer, n - 1);
      FailedTurn(trail, weather, i, tried, answer, n - 1);
    } else if tried > 1 {
      FailedTurn(trail, weather, i, tried, answer, 0);
    }
  }

  /** So a trail is the loop from its first state. */
  lemma TheLoopIsItsTurns(trail: seq<State>, weather: seq<Weather>, i: nat, tried: nat, answer: Answer)
    requires Trail(trail, weather, i, tried, answer) && |weather| == 4
    ensures i < |trail[0].callers| && LastTurn(trail[0], weather, i, tried, answer)
    ensures trail[tried] == Run(trail[0], Turns(weather, i, tried - 1) + StepsOf(weather[tried - 1], i, Some(answer)))
  {
    TrailIsTurns(trail, weather, i, tried, answer, tried - 1);
    TrailKeepsTheKey(trail, weather, i, tried, answer, tried - 1);
    RunInTwo(trail[0], Turns(weather, i, tried - 1), StepsOf(weather[tried - 1], i, Some(answer)));
    forall n | 0 <= n < tried - 1 ensures FailedAt(trail[0], weather, i, n) {
      TrailIsTurns(trail, weather, i, tried, answer, n);
      TrailKeepsTheKey(trail, weather, i, tried, answer, n);
      FailedTurn(trail, weather, i, tried, answer, n);
    }
  }

  lemma TurnInTwo(s: State, w: Weather, i: nat)
    ensures Run(s, TurnSteps(w, i))
            == Run(Run(s, w.before + [Step(i, w.attempt)]), w.between + [Step(i, Lookup(w.lookupFails, w.cancelled))])
  {
    var first, second := w.before + [Step(i, w.attempt)], w.between + [Step(i, Lookup(w.lookupFails, w.cancelled))];
    RunInTwo(s, first, second);
    assert first + second == TurnSteps(w, i);
  }

  class Callers {
    var state: State

    constructor (initial: State)
      ensures state == initial
    {
      state := initial;
    }

    /** Whatever the others do meanwhile. */
    method Meanwhile(steps: seq<Step>)
      modifies this
      ensures state == Run(old(state), steps)
    {
      for k := 0 to |steps|
        invariant state == Run(old(state), steps[..k])
      {
        state := Next(state, steps[k]);
        assert steps[..k + 1][..k] == steps[..k];
      }
      assert steps[..|steps|] == steps;
    }

    /** attempt: the operation row goes in first, and the unique index refuses a second one. */
    method Attempt(i: nat, fate: Fate) returns (receipt: Option<nat>, conflicted: bool)
      requires i < |state.callers| && state.callers[i].phase.Trying? && OfAttempt(fate)
      modifies this
      ensures state == Next(old(state), Step(i, fate)) && i < |state.callers|
      ensures receipt.Some? ==> state.callers[i].phase == Done(Fresh(receipt.value))
      ensures receipt.None? ==> state.callers[i].phase == Failed(old(state).callers[i].phase.attempt, conflicted)
      ensures conflicted == fate.conflicted
      ensures receipt.Some? <==>
              fate.Commits? && fate.hearing == Heard && Unspent(old(state).rows, old(state).callers[i].key)
    {
      var c := state.callers[i];
      conflicted := fate.conflicted;
      receipt := None;
      var rows, d := state.rows, c.(phase := Failed(c.phase.attempt, conflicted));
      if fate.Commits? && fate.hearing == Late {
        d := d.(inFlight := c.inFlight + [fate.receipt]);
      } else if fate.Commits? && Find(rows, c.key) == |rows| {
        rows := rows + [RowOf(c, i, fate.receipt, false)];
        if fate.hearing == Heard {
          receipt := Some(|state.rows|);
          d := c.(phase := Done(Fresh(|state.rows|)));
        }
      }
      state := State(rows, state.callers[i := d]);
    }

    /** The lookup after a failure, and what follows from what it finds. */
    method LookUp(i: nat, fails: bool, cancelled: bool) returns (answer: Option<Answer>)
      requires i < |state.callers| && state.callers[i].phase.Failed?
      modifies this
      ensures state == Next(old(state), Step(i, Lookup(fails, cancelled))) && i < |state.callers|
      ensures answer.Some? ==> state.callers[i].phase == Done(answer.value)
      ensures var c := old(state).callers[i];
              && (answer.None? ==> c.phase.attempt < 4 && state.callers[i].phase == Trying(c.phase.attempt + 1))
              && (fails || Unspent(old(state).rows, c.key) ==>
                    answer == if c.phase.conflicted && c.phase.attempt < 4 && !cancelled then None
                              else Some(GaveUp(fails)))
              && (!fails && !Unspent(old(state).rows, c.key) ==> answer.Some? && !answer.value.GaveUp?)
      ensures state.rows == old(state).rows && (answer.Some? ==> !answer.value.Fresh?)
    {
      var c := state.callers[i];
      var replayed := Replay(state.rows, c);
      if !fails && replayed.Some? {
        answer := replayed;
      } else if !c.phase.conflicted || c.phase.attempt >= MAX_COMMIT_ATTEMPTS || cancelled {
        answer := Some(GaveUp(fails));
      } else {
        answer := None;
      }
      var phase := if answer.Some? then Done(answer.value) else Trying(c.phase.attempt + 1);
      state := state.(callers := state.callers[i := c.(phase := phase)]);
    }

    /** What happens before an attempt, and the attempt. */
    method TryOnce(i: nat, w: Weather) returns (receipt: Option<nat>)
      requires i < |state.callers| && state.callers[i].phase.Trying? && OfAttempt(w.attempt) && NotMine(w.before, i)
      modifies this
      ensures state == Run(old(state), w.before + [Step(i, w.attempt)]) && |state.callers| == |old(state).callers|
      ensures state.callers[i].key == old(state).callers[i].key
      ensures receipt.Some? <==> HeardOn(old(state), w, old(state).callers[i].key)
      ensures state.callers[i].phase == if receipt.Some? then Done(Fresh(receipt.value))
                                        else Failed(old(state).callers[i].phase.attempt, w.attempt.conflicted)
    {
      Meanwhile(w.before);
      OthersLeaveMine(old(state), w.before, i);
      var conflicted;
      receipt, conflicted := Attempt(i, w.attempt);
      OneMoreStep(old(state), w.before, Step(i, w.attempt));
    }

    /** What happens after an attempt that failed, and the lookup. */
    method LookAgain(i: nat, w: Weather) returns (answer: Option<Answer>)
      requires i < |state.callers| && state.callers[i].phase.Failed? && NotMine(w.between, i) && OfAttempt(w.attempt)
      requires state.callers[i].phase.conflicted == w.attempt.conflicted
      modifies this
      ensures state == Run(old(state), w.between + [Step(i, Lookup(w.lookupFails, w.cancelled))])
      ensures |state.callers| == |old(state).callers| && state.callers[i].key == old(state).callers[i].key
      ensures var n := old(state).callers[i].phase.attempt;
              && state.callers[i].phase == (if answer.Some? then Done(answer.value) else Trying(n + 1))
              && (answer.None? ==> n < 4 && WaitedOut(w))
              && (answer.Some? ==> !answer.value.Fresh?)
              && (answer.Some? && answer.value.GaveUp? ==>
                    answer.value.lookupFailed == w.lookupFails && (n >= 4 || !WaitedOut(w)))
              && (answer.Some? && !answer.value.GaveUp? ==> !Unspent(state.rows, state.callers[i].key))
    {
      Meanwhile(w.between);
      OthersLeaveMine(old(state), w.between, i);
      answer := LookUp(i, w.lookupFails, w.cancelled);
      OneMoreStep(old(state), w.between, Step(i, Lookup(w.lookupFails, w.cancelled)));
    }

    /** One turn of the loop, among whatever the others do: it ends at an attempt that commits and is
        heard, at a lookup that finds the key spent, or where a failure is not sent again. */
    method Turn(i: nat, w: Weather) returns (answer: Option<Answer>)
      requires i < |state.callers| && state.callers[i].phase.Trying? && OfAttempt(w.attempt)
      requires NotMine(w.before, i) && NotMine(w.between, i)
      modifies this
      ensures Turned(old(state), w, i, old(state).callers[i].phase.attempt, answer, state)
      ensures |state.callers| == |old(state).callers|
      ensures answer.Some? ==> state.callers[i].phase == Done(answer.value)
      ensures var n := old(state).callers[i].phase.attempt;
              answer.None? ==> n < 4 && state.callers[i].phase == Trying(n + 1)
    {
      var receipt := TryOnce(i, w);
      if receipt.Some? {
        return Some(Fresh(receipt.value));
      }
      answer := LookAgain(i, w);
      TurnInTwo(old(state), w, i);
    }

    /** The loop: turns until one answers. */
    method TakeTurns(i: nat, weather: seq<Weather>) returns (answer: Answer, tried: nat, ghost trail: seq<State>)
      requires i < |state.callers| && state.callers[i].phase == Trying(1)
      requires |weather| == MAX_COMMIT_ATTEMPTS
      requires forall n | 0 <= n < |weather| ::
                 NotMine(weather[n].before, i) && NotMine(weather[n].between, i) && OfAttempt(weather[n].attempt)
      modifies this
      ensures Trail(trail, weather, i, tried, answer) && trail[0] == old(state) && trail[tried] == state
      ensures i < |state.callers| && state.callers[i].phase == Done(answer)
    {
      trail := [state];
      tried := 1;
      while true
        invariant 1 <= tried <= MAX_COMMIT_ATTEMPTS && i < |state.callers| && state.callers[i].phase == Trying(tried)
        invariant |trail| == tried && trail[0] == old(state) && trail[tried - 1] == state
        invariant forall n {:trigger weather[n]} | 0 <= n < tried - 1 ::
                    Turned(trail[n], weather[n], i, n + 1, None, trail[n + 1])
        decreases MAX_COMMIT_ATTEMPTS - tried
      {
        var answered := Turn(i, weather[tried - 1]);
        trail := trail + [state];
        if answered.Some? {
          return answered.value, tried, trail;
        }
        tried := tried + 1;
      }
    }

    /** commit: attempts until one answers, a row does, or sending it again is pointless. tried is how
        many there were, and taken everything that happened meanwhile. A conflict is sent again until the
        fourth, unless the caller's time is over; nothing else is; and the first attempt to commit and
        be heard on a key nobody spent is what is answered. */
    method Commit(i: nat, weather: seq<Weather>) returns (answer: Answer, tried: nat, ghost taken: seq<Step>)
      requires i < |state.callers| && state.callers[i].phase == Trying(1)
      requires |weather| == MAX_COMMIT_ATTEMPTS
      requires forall n | 0 <= n < |weather| ::
                 NotMine(weather[n].before, i) && NotMine(weather[n].between, i) && OfAttempt(weather[n].attempt)
      modifies this
      ensures 1 <= tried <= 4 <= |weather| && forall n | 0 <= n < tried - 1 :: WaitedOut(weather[n])
      ensures taken == Turns(weather, i, tried - 1) + StepsOf(weather[tried - 1], i, Some(answer))
      ensures state == Run(old(state), taken)
      ensures i < |state.callers| && state.callers[i].phase == Done(answer)
      ensures answer.GaveUp? ==>
                answer.lookupFailed == weather[tried - 1].lookupFails && (tried == 4 || !WaitedOut(weather[tried - 1]))
      ensures answer.Fresh? <==> exists k :: 0 <= k < 4 && ServedAt(old(state), weather, i, k)
    {
      ghost var trail;
      answer, tried, trail := TakeTurns(i, weather);
      TheLoopIsItsTurns(trail, weather, i, tried, answer);
      TheFirstServedIsAnswered(old(state), weather, i, tried, answer);
      taken := Turns(weather, i, tried - 1) + StepsOf(weather[tried - 1], i, Some(answer));
    }
  }

  lemma OneMoreStep(s: State, steps: seq<Step>, step: Step)
    ensures Run(s, steps + [step]) == Next(Run(s, steps), step)
  {
    assert (steps + [step])[..|steps|] == steps;
  }
}
