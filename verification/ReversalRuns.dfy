/** What is read of an operation that is settled; and operations both reversed and confirmed (Reverse and
    Confirm of movement.go): what is left of them, and a run that leaves it. */
module ReversalRuns {
  import opened Outcome
  import opened Tables
  import opened Apply
  import Ledger
  import LedgerRuns
  import opened Settlements
  import opened SettlementRuns

  // ---------------------------------------------------------------- what is read of an operation

  /** Over every run: what a call reads of an operation is the same whenever it reads it, and so are the
      movements it makes of it and the wallet its key is asked for. */
  lemma {:induction false} WhatIsReadStays(steps: seq<Step>, n: nat, o: nat)
    requires n <= |steps| && o < |Run(EMPTY, steps[..n]).ops|
    ensures o < |Run(EMPTY, steps).ops|
    ensures EntriesOf(Run(EMPTY, steps).t.entries, o) == EntriesOf(Run(EMPTY, steps[..n]).t.entries, o)
  {
    if n == |steps| {
      assert steps[..n] == steps;
    } else {
      var head := steps[..|steps| - 1];
      assert head[..n] == steps[..n];
      WhatIsReadStays(head, n, o);
      EveryRunIsInOrder(head);
      StepKeepsEntries(Run(EMPTY, head), steps[|steps| - 1], o);
    }
  }

  lemma StepKeepsEntries(b: Books, step: Step, o: nat)
    requires InOrder(b) && o < |b.ops|
    ensures o < |Perform(b, step).ops| && EntriesOf(Perform(b, step).t.entries, o) == EntriesOf(b.t.entries, o)
  {
    StepKeepsOrder(b, step);
    assert OfOperation(Perform(b, step).t.entries, o) == OfOperation(b.t.entries, o);
  }

  // ---------------------------------------------------------------- reversed and confirmed

  predicate Is(b: Books, k: nat, kind: OperationKind, settles: nat) {
    k < |b.ops| && b.ops[k].kind == kind && b.ops[k].settles == settles
  }

  /** What counts of an operation on a wallet, and what waits. */
  function Counted(b: Books, k: nat, w: nat): int {
    Sum(OfOperation(b.t.entries, k), w, true)
  }

  function Waiting(b: Books, k: nat, w: nat): int {
    Sum(OfOperation(b.t.entries, k), w, false)
  }

  /** Over every run: an operation both reversed and confirmed, which nothing forbids, leaves on each
      wallet what waited there: nothing exactly where that adds up to nothing. Reversing the
      confirmation too leaves nothing anywhere. */
  lemma {:induction false} ReversedAndConfirmed(steps: seq<Step>, o: nat, r: nat, c: nat, w: nat)
    requires var b := Run(EMPTY, steps); Is(b, r, Reversal, o) && Is(b, c, Confirmation, o)
    ensures var b := Run(EMPTY, steps);
            && Counted(b, o, w) + Counted(b, r, w) + Counted(b, c, w) == Waiting(b, o, w)
            && (forall u: nat | Is(b, u, Reversal, c) ::
                  Counted(b, o, w) + Counted(b, r, w) + Counted(b, c, w) + Counted(b, u, w) == 0)
  {
    SettlingUndoes(steps, r, w);
    SettlingUndoes(steps, c, w);
    forall u: nat | Is(Run(EMPTY, steps), u, Reversal, c)
      ensures Counted(Run(EMPTY, steps), c, w) + Counted(Run(EMPTY, steps), u, w) == 0
    {
      SettlingUndoes(steps, u, w);
    }
  }

  /** What one movement writes, and what one on each of two wallets do. */
  lemma OneWritten(t: Tables, m: Movement)
    requires m.wallet < |t.wallets| && Guard(m, t.wallets[m.wallet])
    requires var e := EntryOf(m, Moved(m, t.wallets[m.wallet]), t.operations, 0); !Ledger.Collides(t.entries, [e])
    ensures Ledger.Written(t, [m]) == Some(Tables(
              t.wallets[m.wallet := Moved(m, t.wallets[m.wallet])],
              t.entries + [EntryOf(m, Moved(m, t.wallets[m.wallet]), t.operations, 0)], t.holds, t.operations + 1))
  {
    var e := EntryOf(m, Moved(m, t.wallets[m.wallet]), t.operations, 0);
    assert forall k | 0 <= k < |t.entries| :: !Ledger.SamePlace(t.entries[k], [e][0]);
    LedgerRuns.OneMovementPasses(t, m);
    LedgerRuns.OneMovementWritten(t, m);
  }

  lemma TwoWritten(t: Tables, m: Movement, n: Movement)
    requires m.wallet < n.wallet < |t.wallets| && Guard(m, t.wallets[m.wallet]) && Guard(n, t.wallets[n.wallet])
    requires var e := EntryOf(m, Moved(m, t.wallets[m.wallet]), t.operations, 0);
             var f := EntryOf(n, Moved(n, t.wallets[n.wallet]), t.operations, 1);
             !Ledger.Collides(t.entries, [e, f])
    ensures Ledger.Written(t, [m, n]) == Some(Tables(
              t.wallets[m.wallet := Moved(m, t.wallets[m.wallet])][n.wallet := Moved(n, t.wallets[n.wallet])],
              t.entries + [EntryOf(m, Moved(m, t.wallets[m.wallet]), t.operations, 0),
                           EntryOf(n, Moved(n, t.wallets[n.wallet]), t.operations, 1)], t.holds, t.operations + 1))
  {
    var p, q := Placed(0, m), Placed(1, n);
    assert PlacedFrom([m, n]) == [p] + [q] && ([p] + [q])[..1] == [p] && [p][..0] == [];
    assert InLockOrder([p]) == [p];
    assert InLockOrder([p] + [q]) == [p] + [q];
    assert [] + [p] == [p];
    ApplyOneMore(t.wallets, t.operations, [], p);
    ApplyOneMore(t.wallets, t.operations, [p], q);
    var e, f := EntryOf(m, Moved(m, t.wallets[m.wallet]), t.operations, 0),
      EntryOf(n, Moved(n, t.wallets[n.wallet]), t.operations, 1);
    assert [] + [e] + [f] == [e, f];
  }

  /** Two wallets, and an amount deposited in the first; sent to the second, leaving now and arriving
      in waiting; that reversed; and then confirmed. */
  function Opened(): Books {
    Books(Tables([Wallet(0, 0, 0, 0, 0, false, false), Wallet(0, 0, 0, 0, 0, false, false)], [], [], 0), [])
  }

  function Received(x: int): Books {
    Books(Tables([Wallet(0, x, 0, 0, 1, false, false), Wallet(0, 0, 0, 0, 0, false, false)],
                 [Entry(0, 0, Deposit, 1, 0, x, x, true)], [], 1),
          [Operation(Deposited, 0, None, 0, None)])
  }

  function Sent(x: int): Books {
    Books(Tables([Wallet(0, 0, 0, 0, 2, false, false), Wallet(0, 0, 0, 0, 1, false, false)],
                 Received(x).t.entries + SentEntries(x), [], 2),
          [Operation(Deposited, 0, None, 0, None), Operation(Transferred, 1, None, 0, None)])
  }

  function SentEntries(x: int): seq<Entry> {
    [Entry(1, 0, Withdraw, 2, 0, x, 0, true), Entry(1, 1, Deposit, 1, 1, x, 0, false)]
  }

  function GivenBack(x: int): Books {
    Books(Tables([Wallet(0, x, 0, 0, 3, false, false), Wallet(0, 0, 0, 0, 1, false, false)],
                 Sent(x).t.entries + [Entry(2, 0, Deposit, 3, 0, x, x, true)], [], 3),
          [Operation(Deposited, 0, None, 0, None), Operation(Transferred, 1, None, x, None),
            Operation(Reversal, 1, None, 0, None)])
  }

  function Arrived(x: int): Books {
    Books(Tables([Wallet(0, x, 0, 0, 3, false, false), Wallet(0, x, 0, 0, 2, false, false)],
                 GivenBack(x).t.entries + [Entry(3, 1, Deposit, 2, 0, x, x, true)], [], 4),
          [Operation(Deposited, 0, None, 0, None), Operation(Transferred, 1, None, x, Some(3)),
           Operation(Reversal, 1, None, 0, None), Operation(Confirmation, 1, None, 0, None)])
  }

  /** The run of those. */
  predicate SendsAndUndoes(steps: seq<Step>, x: Ledger.Quantity) {
    && |steps| == 6 && steps[0] == steps[1] == Act(Deposited, Ledger.Open(0))
    && steps[2] == Act(Deposited, Ledger.Post([Ledger.Leg(0, Deposit, x, false, false)]))
    && steps[3] == Act(Transferred, Ledger.Post(
         [Ledger.Leg(0, Withdraw, x, false, false), Ledger.Leg(1, Deposit, x, true, false)]))
    && steps[4] == Reverse(1) && steps[5] == Confirm(1, false)
  }

  function OpenedOne(): Books {
    Books(Tables([Wallet(0, 0, 0, 0, 0, false, false)], [], [], 0), [])
  }

  lemma OpeningTwo()
    ensures Perform(EMPTY, Act(Deposited, Ledger.Open(0))) == OpenedOne()
    ensures Perform(OpenedOne(), Act(Deposited, Ledger.Open(0))) == Opened()
  {
    assert OpenedOne().t.wallets + [Wallet(0, 0, 0, 0, 0, false, false)] == Opened().t.wallets;
  }

  lemma Receiving(x: Ledger.Quantity)
    ensures Perform(Opened(), Act(Deposited, Ledger.Post([Ledger.Leg(0, Deposit, x, false, false)]))) == Received(x)
  {
    var m := Plain(0, Deposit, x, false, false);
    assert Ledger.Movements([Ledger.Leg(0, Deposit, x, false, false)]) == [m];
    OneWritten(Opened().t, m);
  }

  lemma Sending(x: Ledger.Quantity)
    ensures Perform(Received(x), Act(Transferred, Ledger.Post(
              [Ledger.Leg(0, Withdraw, x, false, false), Ledger.Leg(1, Deposit, x, true, false)]))) == Sent(x)
  {
    var m, n := Plain(0, Withdraw, x, false, false), Plain(1, Deposit, x, true, false);
    assert Ledger.Movements([Ledger.Leg(0, Withdraw, x, false, false), Ledger.Leg(1, Deposit, x, true, false)])
           == [m, n];
    TwoWritten(Received(x).t, m, n);
  }

  /** What two entries read as, and what undoes and confirms them. */
  lemma {:induction false} OfTwoEntries(e: Entry, f: Entry, force: bool)
    requires e.position <= f.position && e.settled && !f.settled
    ensures ByPosition([e] + [f]) == [e] + [f]
    ensures Mirror([e] + [f]) == [Plain(e.wallet, Opposite(e.kind), e.amount, false, false)]
    ensures Settling([e] + [f], force) == [Plain(f.wallet, f.kind, f.amount, false, force)]
  {
    assert ([e] + [f])[..1] == [e] && [e][..0] == [] && [] + [e] == [e];
    assert ByPosition([e]) == [e];
    assert Mirror([e]) == [] + [Plain(e.wallet, Opposite(e.kind), e.amount, false, false)];
    assert Settling([e], force) == [] + [];
  }

  /** What is read of the operation, then and later. */
  lemma SentIsRead(x: int, more: seq<Entry>)
    requires forall k | 0 <= k < |more| :: more[k].operation != 1
    ensures EntriesOf(Sent(x).t.entries + more, 1) == SentEntries(x)
    ensures Mirror(SentEntries(x)) == [Plain(0, Deposit, x, false, false)]
    ensures Settling(SentEntries(x), false) == [Plain(1, Deposit, x, false, false)]
  {
    var e, f := SentEntries(x)[0], SentEntries(x)[1];
    assert SentEntries(x) == [e] + [f];
    OfTwoEntries(e, f, false);
    NewEntriesAreIts(Received(x).t.entries, SentEntries(x), 1);
    NoneOfIt(more, 1);
    OfOperationJoined(Sent(x).t.entries, more, 1);
    assert OfOperation(Sent(x).t.entries + more, 1) == SentEntries(x);
  }

  lemma GivenBackIsCommitted(x: Ledger.Quantity)
    ensures Commit(Sent(x), Reversal, Some(1), None, [Plain(0, Deposit, x, false, false)])
            == Some(Books(GivenBack(x).t, Sent(x).ops + [Operation(Reversal, 1, None, 0, None)]))
  {
    var m, was := Plain(0, Deposit, x, false, false), Sent(x).t;
    OneWritten(was, m);
    assert was.wallets[0 := Moved(m, was.wallets[0])] == GivenBack(x).t.wallets;
  }

  lemma GivingBack(x: Ledger.Quantity)
    ensures Perform(Sent(x), Reverse(1)) == GivenBack(x)
  {
    SentIsRead(x, []);
    assert Sent(x).t.entries + [] == Sent(x).t.entries;
    GivenBackIsCommitted(x);
  }

  lemma ArrivedIsCommitted(x: Ledger.Quantity)
    ensures Commit(GivenBack(x), Confirmation, Some(1), None, [Plain(1, Deposit, x, false, false)])
            == Some(Books(Arrived(x).t, GivenBack(x).ops + [Operation(Confirmation, 1, None, 0, None)]))
  {
    var m, was := Plain(1, Deposit, x, false, false), GivenBack(x).t;
    OneWritten(was, m);
    assert was.wallets[1 := Moved(m, was.wallets[1])] == Arrived(x).t.wallets;
  }

  lemma Arriving(x: Ledger.Quantity)
    ensures Perform(GivenBack(x), Confirm(1, false)) == Arrived(x)
  {
    SentIsRead(x, [Entry(2, 0, Deposit, 3, 0, x, x, true)]);
    assert Settling(EntriesOf(GivenBack(x).t.entries, 1), false) == [Plain(1, Deposit, x, false, false)];
    assert GivenBack(x).ops[1] == Operation(Transferred, 1, None, x, None);
    ArrivedIsCommitted(x);
  }

  /** The states a run goes through. */
  predicate Follows(states: seq<Books>, steps: seq<Step>, n: nat)
    requires n < |steps| && |states| == |steps| + 1
  {
    states[n + 1] == Perform(states[n], steps[n])
  }

  lemma {:induction false} RunThrough(states: seq<Books>, steps: seq<Step>)
    requires |states| == |steps| + 1
    requires forall n {:trigger Follows(states, steps, n)} | 0 <= n < |steps| :: Follows(states, steps, n)
    ensures Run(states[0], steps) == states[|steps|]
  {
    if steps != [] {
      var k := |steps| - 1;
      var before, first := states[..k + 1], steps[..k];
      forall n | 0 <= n < k ensures Follows(before, first, n) {
        assert Follows(states, steps, n);
      }
      RunThrough(before, first);
      assert Follows(states, steps, k);
    }
  }

  lemma OneStepFollows(states: seq<Books>, steps: seq<Step>, x: Ledger.Quantity, n: nat)
    requires SendsAndUndoes(steps, x) && n < 6
    requires states == [EMPTY, OpenedOne(), Opened(), Received(x), Sent(x), GivenBack(x), Arrived(x)]
    ensures Follows(states, steps, n)
  {
    match n
    case 0 => OpeningTwo();
    case 1 => OpeningTwo();
    case 2 => Receiving(x);
    case 3 => Sending(x);
    case 4 => GivingBack(x);
    case 5 => Arriving(x);
  }

  lemma {:induction false} TheRun(steps: seq<Step>, x: Ledger.Quantity)
    requires SendsAndUndoes(steps, x)
    ensures Run(EMPTY, steps) == Arrived(x)
  {
    var states := [EMPTY, OpenedOne(), Opened(), Received(x), Sent(x), GivenBack(x), Arrived(x)];
    forall n | 0 <= n < |steps| ensures Follows(states, steps, n) {
      OneStepFollows(states, steps, x, n);
    }
    RunThrough(states, steps);
  }

  /** One amount comes in from outside, is sent, given back whole, and then arrives all the same: both
      wallets end up with it. */
  lemma {:induction false} MoneyNobodySent(steps: seq<Step>, x: Ledger.Quantity, b: Books)
    requires SendsAndUndoes(steps, x) && b == Run(EMPTY, steps)
    ensures |b.t.wallets| == 2 && b.t.wallets[0].balance == b.t.wallets[1].balance == x
    ensures |b.ops| == 4 && b.ops[0].kind == Deposited && Counted(b, 0, 0) == x && b.ops[1].kind == Transferred
    ensures Is(b, 2, Reversal, 1) && Is(b, 3, Confirmation, 1)
  {
    TheRun(steps, x);
    BothHaveIt(x);
  }

  lemma BothHaveIt(x: Ledger.Quantity)
    ensures var b := Arrived(x);
            && |b.ops| == 4 && Counted(b, 0, 0) == x
            && Is(b, 2, Reversal, 1) && Is(b, 3, Confirmation, 1)
  {
    var rest := Arrived(x).t.entries[1..];
    NoneOfIt(rest, 0);
    AllOfIt(Received(x).t.entries, 0, 0);
    OfOperationJoined(Received(x).t.entries, rest, 0);
    assert Arrived(x).t.entries == Received(x).t.entries + rest;
    SumOfMore([], Received(x).t.entries[0], 0, true);
    assert [] + Received(x).t.entries == Received(x).t.entries;
  }
}
