/** What every run of the ledger keeps, from whatever state it starts. */
module LedgerRuns {
  import opened Int64
  import opened Outcome
  import opened Sums
  import opened Tables
  import opened Apply
  import opened Ledger

  // ---------------------------------------------------------------- the difference of a ledger

  /** What the balance column holds beyond what the settled entries explain. */
  function Drift(t: Tables, w: nat): int
    requires w < |t.wallets|
  {
    t.wallets[w].balance - Settled(t.entries, w)
  }

  lemma SettledOfMore(entries: seq<Entry>, e: Entry, w: nat)
    ensures Settled(entries + [e], w) == Settled(entries, w) + if e.wallet == w then e.Signed() else 0
  {
    var signed := if e.wallet == w then e.Signed() else 0;
    assert SignedRows(entries + [e], w) == SignedRows(entries, w) + [signed];
    TotalOfOneMore(SignedRows(entries, w), signed);
  }

  /** A queue whose every movement writes in the ledger, and takes what it takes out by a withdrawal. */
  predicate LedgerQueue(queue: seq<Placed>) {
    forall k | 0 <= k < |queue| ::
      && WritesLedger(queue[k].movement)
      && (queue[k].movement.fromHold ==> queue[k].movement.kind == Withdraw)
  }

  predicate NoAdjustments(queue: seq<Placed>) {
    forall k | 0 <= k < |queue| :: !queue[k].movement.adjust
  }

  /** Movements leave what a ledger does not explain as it was, and the positions of a wallet they do
      not touch. */
  lemma {:induction false} ApplyKeepsDrift(t: Tables, queue: seq<Placed>, w: nat)
    requires ApplyAll(t.wallets, t.operations, queue).Some? && LedgerQueue(queue) && w < |t.wallets|
    ensures var a := ApplyAll(t.wallets, t.operations, queue).value;
            && |a.wallets| == |t.wallets|
            && (NoAdjustments(queue) ==> a.wallets[w].balance - Settled(t.entries + a.entries, w) == Drift(t, w))
            && a.wallets[w].lastSequence >= t.wallets[w].lastSequence
            && (a.wallets[w].lastSequence == t.wallets[w].lastSequence ==>
                  Settled(t.entries + a.entries, w) == Settled(t.entries, w) && a.wallets[w] == t.wallets[w])
  {
    if queue == [] {
      assert t.entries + [] == t.entries;
    } else {
      var head, p := queue[..|queue| - 1], queue[|queue| - 1];
      ApplyKeepsDrift(t, head, w);
      var before, after :=
        ApplyAll(t.wallets, t.operations, head).value, ApplyAll(t.wallets, t.operations, queue).value;
      var e := after.entries[|before.entries|];
      EntrySaysWhatMoved(p.movement, before.wallets[p.movement.wallet], t.operations, p.position);
      assert t.entries + after.entries == t.entries + before.entries + [e];
      SettledOfMore(t.entries + before.entries, e, w);
    }
  }

  lemma LockOrderIsALedgerQueue(movements: seq<Movement>)
    requires LedgerQueue(PlacedFrom(movements))
    ensures var queue := InLockOrder(PlacedFrom(movements));
            LedgerQueue(queue) && (NoAdjustments(PlacedFrom(movements)) ==> NoAdjustments(queue))
  {
    var queue := InLockOrder(PlacedFrom(movements));
    LockOrderIsOrdered(PlacedFrom(movements));
    forall k | 0 <= k < |queue|
      ensures queue[k] in PlacedFrom(movements)
    {
      assert queue[k] in multiset(queue);
    }
  }

  lemma MovementsAreALedgerQueue(t: Tables, step: Step)
    requires Writes(step) && MayWrite(t, step)
    ensures var queue := PlacedFrom(MovementsOf(t, step));
            LedgerQueue(queue) && (!step.Adjust? ==> NoAdjustments(queue))
  {
  }

  /** Every transaction but an adjustment, from any state, even a corrupt one, leaves the difference of
      every wallet as it was; and one that leaves a wallet's position leaves its entries too. */
  lemma StepKeepsDrift(t: Tables, step: Step, w: nat)
    requires w < |t.wallets|
    ensures var u := Perform(t, step);
            && |u.wallets| >= |t.wallets|
            && (!step.Adjust? ==> Drift(u, w) == Drift(t, w))
            && u.wallets[w].lastSequence >= t.wallets[w].lastSequence
            && (u.wallets[w].lastSequence == t.wallets[w].lastSequence ==>
               Settled(u.entries, w) == Settled(t.entries, w))
  {
    if Writes(step) && MayWrite(t, step) && Written(t, MovementsOf(t, step)).Some? {
      MovementsAreALedgerQueue(t, step);
      WrittenKeepsDrift(t, MovementsOf(t, step), w);
    }
  }

  lemma WrittenKeepsDrift(t: Tables, movements: seq<Movement>, w: nat)
    requires w < |t.wallets| && LedgerQueue(PlacedFrom(movements)) && Written(t, movements).Some?
    ensures var u := Written(t, movements).value;
            && |u.wallets| == |t.wallets|
            && (NoAdjustments(PlacedFrom(movements)) ==> Drift(u, w) == Drift(t, w))
            && u.wallets[w].lastSequence >= t.wallets[w].lastSequence
            && (u.wallets[w].lastSequence == t.wallets[w].lastSequence ==>
               Settled(u.entries, w) == Settled(t.entries, w))
  {
    LockOrderIsALedgerQueue(movements);
    ApplyKeepsDrift(t, InLockOrder(PlacedFrom(movements)), w);
  }

  /** So does every run without adjustments. */
  lemma {:induction false} RunKeepsDrift(t: Tables, steps: seq<Step>, w: nat)
    requires w < |t.wallets|
    ensures var u := Run(t, steps);
            && |u.wallets| >= |t.wallets|
            && ((forall k | 0 <= k < |steps| :: !steps[k].Adjust?) ==> Drift(u, w) == Drift(t, w))
            && u.wallets[w].lastSequence >= t.wallets[w].lastSequence
            && (u.wallets[w].lastSequence == t.wallets[w].lastSequence ==>
               Settled(u.entries, w) == Settled(t.entries, w))
  {
    if steps != [] {
      var head := steps[..|steps| - 1];
      RunKeepsDrift(t, head, w);
      StepKeepsDrift(Run(t, head), steps[|steps| - 1], w);
    }
  }

  // ---------------------------------------------------------------- what a measurement reads

  lemma MeasuredOfMore(entries: seq<Entry>, e: Entry, w: nat, last: int)
    requires e.wallet == w ==> e.sequence > last
    ensures Measured(entries + [e], w, last) == Measured(entries, w, last)
  {
    assert MeasuredRows(entries + [e], w, last) == MeasuredRows(entries, w, last) + [0];
    TotalOfOneMore(MeasuredRows(entries, w, last), 0);
  }

  lemma {:induction false} ApplyKeepsMeasured(t: Tables, queue: seq<Placed>, w: nat, last: int)
    requires ApplyAll(t.wallets, t.operations, queue).Some? && LedgerQueue(queue)
    requires w < |t.wallets| && last <= t.wallets[w].lastSequence
    ensures var a := ApplyAll(t.wallets, t.operations, queue).value;
            && |a.wallets| == |t.wallets| && a.wallets[w].lastSequence >= last
            && Measured(t.entries + a.entries, w, last) == Measured(t.entries, w, last)
  {
    if queue == [] {
      assert t.entries + [] == t.entries;
    } else {
      var head, p := queue[..|queue| - 1], queue[|queue| - 1];
      ApplyKeepsMeasured(t, head, w, last);
      var before, after :=
        ApplyAll(t.wallets, t.operations, head).value, ApplyAll(t.wallets, t.operations, queue).value;
      var e := after.entries[|before.entries|];
      assert t.entries + after.entries == t.entries + before.entries + [e];
      MeasuredOfMore(t.entries + before.entries, e, w, last);
    }
  }

  lemma StepKeepsMeasured(t: Tables, step: Step, w: nat, last: int)
    requires w < |t.wallets| && last <= t.wallets[w].lastSequence
    ensures w < |Perform(t, step).wallets| && last <= Perform(t, step).wallets[w].lastSequence
    ensures Measured(Perform(t, step).entries, w, last) == Measured(t.entries, w, last)
  {
    if Writes(step) && MayWrite(t, step) && Written(t, MovementsOf(t, step)).Some? {
      MovementsAreALedgerQueue(t, step);
      WrittenKeepsMeasured(t, MovementsOf(t, step), w, last);
    }
  }

  lemma WrittenKeepsMeasured(t: Tables, movements: seq<Movement>, w: nat, last: int)
    requires w < |t.wallets| && last <= t.wallets[w].lastSequence
    requires LedgerQueue(PlacedFrom(movements)) && Written(t, movements).Some?
    ensures var u := Written(t, movements).value;
            && |u.wallets| == |t.wallets| && last <= u.wallets[w].lastSequence
            && Measured(u.entries, w, last) == Measured(t.entries, w, last)
  {
    LockOrderIsALedgerQueue(movements);
    ApplyKeepsMeasured(t, InLockOrder(PlacedFrom(movements)), w, last);
  }

  /** The entries up to a position a wallet has reached read the same however late they are read. */
  lemma {:induction false} RunKeepsMeasured(t: Tables, steps: seq<Step>, w: nat, last: int)
    requires w < |t.wallets| && last <= t.wallets[w].lastSequence
    ensures w < |Run(t, steps).wallets| && last <= Run(t, steps).wallets[w].lastSequence
    ensures Measured(Run(t, steps).entries, w, last) == Measured(t.entries, w, last)
  {
    if steps != [] {
      RunKeepsMeasured(t, steps[..|steps| - 1], w, last);
      StepKeepsMeasured(Run(t, steps[..|steps| - 1]), steps[|steps| - 1], w, last);
    }
  }

  /** What the settled entries of a wallet outside the positions a measurement reads add up to:
      nothing in a ledger nobody damaged. */
  function Outside(t: Tables, w: nat): int
    requires w < |t.wallets|
  {
    Settled(t.entries, w) - Measured(t.entries, w, t.wallets[w].lastSequence)
  }

  /** A repair of a wallet read in one state, measured while more steps ran and written after others
      still: where it succeeds the balance is not touched, the freeze is lifted, and the difference it
      leaves is zero exactly when what was measured is everything -- no settled entry outside the
      positions read, and a difference that fits the sixty-four bits it is computed in. */
  lemma {:induction false} RepairClosesTheDifference(t: Tables, measuring: seq<Step>, writing: seq<Step>, w: nat,
      v: Tables)
    requires w < |t.wallets|
    requires var m := Run(t, measuring); Answer(Run(m, writing), Repair(m.entries, w, t.wallets[w])) == Some(v)
    ensures var u, d :=
            Run(Run(t, measuring), writing), t.wallets[w].balance - Measured(t.entries, w, t.wallets[w].lastSequence);
            && |v.wallets| == |u.wallets| > w
            && v.wallets[w] == u.wallets[w].(lastSequence := u.wallets[w].lastSequence + 1, frozen := false)
            && v.wallets[w].balance == t.wallets[w].balance
            && (Drift(v, w) == 0 <==> Outside(t, w) == d - Wrap(d))
            && (Outside(t, w) == 0 ==> (Drift(v, w) == 0 <==> Fits(d)))
  {
    var m := Run(t, measuring);
    RunKeepsMeasured(t, measuring, w, t.wallets[w].lastSequence);
    RunKeepsDrift(t, measuring, w);
    RunKeepsDrift(m, writing, w);
    RepairInAState(t, Run(m, writing), w, v);
  }

  lemma RepairInAState(t: Tables, u: Tables, w: nat, v: Tables)
    requires |u.wallets| >= |t.wallets| > w && Answer(u, Repair(t.entries, w, t.wallets[w])) == Some(v)
    requires u.wallets[w].lastSequence == t.wallets[w].lastSequence ==> Settled(u.entries, w) == Settled(t.entries, w)
    ensures var d := t.wallets[w].balance - Measured(t.entries, w, t.wallets[w].lastSequence);
            && |v.wallets| == |u.wallets| > w
            && v.wallets[w] == u.wallets[w].(lastSequence := u.wallets[w].lastSequence + 1, frozen := false)
            && v.wallets[w].balance == t.wallets[w].balance
            && (Drift(v, w) == 0 <==> Outside(t, w) == d - Wrap(d))
            && (Outside(t, w) == 0 ==> (Drift(v, w) == 0 <==> Fits(d)))
  {
    AdjustmentWritten(u, Repair(t.entries, w, t.wallets[w]));
    WhatARepairLeaves(t, u, v, w);
  }

  lemma WhatARepairLeaves(t: Tables, u: Tables, v: Tables, w: nat)
    requires |v.wallets| == |u.wallets| >= |t.wallets| > w
    requires u.wallets[w].balance == t.wallets[w].balance == v.wallets[w].balance
    requires Settled(u.entries, w) == Settled(t.entries, w)
    requires var measured := Measured(t.entries, w, t.wallets[w].lastSequence);
             Settled(v.entries, w) == Settled(u.entries, w) + Wrap(t.wallets[w].balance - measured)
    ensures var d := t.wallets[w].balance - Measured(t.entries, w, t.wallets[w].lastSequence);
            && (Drift(v, w) == 0 <==> Outside(t, w) == d - Wrap(d))
            && (Outside(t, w) == 0 ==> (Drift(v, w) == 0 <==> Fits(d)))
  {
  }

  /** An adjustment that passes found the wallet frozen and as it was measured; it moves the position
      and the sum of the settled entries, lifts the freeze, and nothing else. */
  lemma AdjustmentWritten(u: Tables, step: Step)
    requires step.Adjust? && Answer(u, step).Some?
    ensures var w, v := step.wallet, Perform(u, step);
            && |v.wallets| == |u.wallets| > w && u.wallets[w].frozen
            && u.wallets[w].balance == step.seenBalance && u.wallets[w].lastSequence == step.seenSequence
            && v.wallets[w] == u.wallets[w].(lastSequence := u.wallets[w].lastSequence + 1, frozen := false)
            && Settled(v.entries, w) == Settled(u.entries, w) + Wrap(step.seenBalance - step.settled)
  {
    var difference := Wrap(step.seenBalance - step.settled);
    var m := AdjustMovement(step.wallet, step.seenBalance, step.seenSequence, difference);
    OneMovementWritten(u, m);
    SettledOfMore(u.entries, EntryOf(m, Moved(m, u.wallets[step.wallet]), u.operations, 0), step.wallet);
  }

  /** What a repair asks of the wallet it is written on: in the state it was measured in, it passes exactly
      where the wallet is frozen and not closed, there is a difference whose size fits, and the position
      after the wallet's last is free. */
  lemma RepairIsServed(t: Tables, w: nat)
    requires w < |t.wallets|
    ensures var wallet := t.wallets[w];
            var difference := Wrap(wallet.balance - Measured(t.entries, w, wallet.lastSequence));
            Answer(t, Repair(t.entries, w, wallet)).Some? <==>
              && wallet.frozen && !wallet.closed && difference != 0 && difference != MIN
              && (forall k | 0 <= k < |t.entries| ::
                 t.entries[k].wallet != w || t.entries[k].sequence != wallet.lastSequence + 1)
  {
    var wallet := t.wallets[w];
    var difference := Wrap(wallet.balance - Measured(t.entries, w, wallet.lastSequence));
    OneMovementPasses(t, AdjustMovement(w, wallet.balance, wallet.lastSequence, difference));
  }

  /** An operation of one movement passes exactly where its guard does and its position is free. */
  lemma OneMovementPasses(t: Tables, m: Movement)
    requires m.wallet < |t.wallets|
    ensures Written(t, [m]).Some? <==>
            && Guard(m, t.wallets[m.wallet])
            && (forall k | 0 <= k < |t.entries| ::
                  t.entries[k].wallet != m.wallet
                    || t.entries[k].sequence != Moved(m, t.wallets[m.wallet]).lastSequence)
  {
    OneInLockOrder(m);
    OneApplied(t.wallets, t.operations, Placed(0, m));
    if Guard(m, t.wallets[m.wallet]) {
      var e := EntryOf(m, Moved(m, t.wallets[m.wallet]), t.operations, 0);
      assert [] + [e] == [e];
      OneCollides(t.entries, e);
    }
  }

  lemma OneCollides(entries: seq<Entry>, e: Entry)
    ensures Collides(entries, [e]) <==>
            exists k :: 0 <= k < |entries| && entries[k].wallet == e.wallet && entries[k].sequence == e.sequence
  {
    if k :| 0 <= k < |entries| && entries[k].wallet == e.wallet && entries[k].sequence == e.sequence {
      assert SamePlace(entries[k], [e][0]);
    }
  }

  /** A balance of the largest amount, its one entry a withdrawal of as much: the difference does not fit,
      and a repair that passes leaves one of the whole span of an amount. */
  lemma RepairPastTheRange(t: Tables) returns (v: Tables)
    requires t.wallets == [Wallet(0, MAX, 0, 0, 1, true, false)]
             && t.entries == [Entry(0, 0, Withdraw, 1, 0, MAX, 0 - MAX, true)]
    ensures Answer(t, Repair(t.entries, 0, t.wallets[0])) == Some(v)
    ensures Outside(t, 0) == 0 && |v.wallets| == 1 && Drift(v, 0) == SPAN
  {
    OfTheOnly(SignedRows(t.entries, 0), 0 - MAX);
    OfTheOnly(MeasuredRows(t.entries, 0, 1), 0 - MAX);
    v := RepairOfTheOnly(t);
  }

  /** A balance of ten, its one entry a deposit of five at a position it never reached: a repair that
      passes measures nothing, and leaves a difference of five. */
  lemma RepairAroundAnEntry(t: Tables) returns (v: Tables)
    requires t.wallets == [Wallet(0, 10, 0, 0, 0, true, false)] && t.entries == [Entry(0, 0, Deposit, 7, 0, 5, 5, true)]
    ensures Answer(t, Repair(t.entries, 0, t.wallets[0])) == Some(v)
    ensures Outside(t, 0) == 5 && |v.wallets| == 1 && Drift(v, 0) == -5
  {
    OfTheOnly(SignedRows(t.entries, 0), 5);
    OfTheOnly(MeasuredRows(t.entries, 0, 0), 0);
    v := RepairOfTheOnly(t);
  }

  lemma OfTheOnly(xs: seq<int>, x: int)
    requires |xs| == 1 && xs[0] == x
    ensures Total(xs) == x
  {
    TotalOfOneMore([], x);
    assert xs == [] + [x];
  }

  lemma RepairOfTheOnly(t: Tables) returns (v: Tables)
    requires |t.wallets| == 1 && |t.entries| == 1 && t.entries[0].sequence != t.wallets[0].lastSequence + 1
    requires t.wallets[0].frozen && !t.wallets[0].closed
    requires Wrap(t.wallets[0].balance - Measured(t.entries, 0, t.wallets[0].lastSequence)) !in {0, MIN}
    ensures Answer(t, Repair(t.entries, 0, t.wallets[0])) == Some(v) && |v.wallets| == 1
    ensures v.wallets[0].balance == t.wallets[0].balance
    ensures Settled(v.entries, 0) == Settled(t.entries, 0)
                                     + Wrap(t.wallets[0].balance - Measured(t.entries, 0, t.wallets[0].lastSequence))
  {
    RepairIsServed(t, 0);
    AdjustmentWritten(t, Repair(t.entries, 0, t.wallets[0]));
    v := Answer(t, Repair(t.entries, 0, t.wallets[0])).value;
  }

  /** An operation of one movement. */
  lemma OneMovementWritten(t: Tables, m: Movement)
    requires Written(t, [m]).Some?
    ensures m.wallet < |t.wallets| && Guard(m, t.wallets[m.wallet])
    ensures var after := Moved(m, t.wallets[m.wallet]);
            Written(t, [m]).value
              == Tables(t.wallets[m.wallet := after], t.entries + [EntryOf(m, after, t.operations, 0)], t.holds,
                t.operations + 1)
  {
    OneInLockOrder(m);
    OneApplied(t.wallets, t.operations, Placed(0, m));
  }

  lemma OneInLockOrder(m: Movement)
    ensures InLockOrder(PlacedFrom([m])) == [Placed(0, m)]
  {
    var p := Placed(0, m);
    assert PlacedFrom([m]) == [p] && [p][..0] == [];
    assert InLockOrder([p]) == InsertInOrder([], p) == [] + [p];
  }

  lemma OneApplied(wallets: seq<Wallet>, operation: nat, p: Placed)
    ensures ApplyAll(wallets, operation, [p]) == MoveOne(Applied(wallets, []), operation, p)
  {
    ApplyOneMore(wallets, operation, [], p);
    assert [] + [p] == [p];
  }

  // ---------------------------------------------------------------- a ledger read down

  /** How many entries a wallet has. */
  function Count(entries: seq<Entry>, w: nat): nat {
    if entries == [] then 0
    else Count(entries[..|entries| - 1], w) + if entries[|entries| - 1].wallet == w then 1 else 0
  }

  lemma CountOfMore(entries: seq<Entry>, e: Entry, w: nat)
    ensures Count(entries + [e], w) == Count(entries, w) + if e.wallet == w then 1 else 0
  {
    assert (entries + [e])[..|entries|] == entries;
  }

  /** An entry stands at its wallet's next position and records the running balance. */
  predicate ReadsDown(entries: seq<Entry>, k: nat)
    requires k < |entries|
  {
    var e := entries[k];
    e.sequence == Count(entries[..k + 1], e.wallet) && e.balanceAfter == Settled(entries[..k + 1], e.wallet)
  }

  predicate Explained(entries: seq<Entry>, w: nat, wallet: Wallet) {
    wallet.balance == Settled(entries, w) && wallet.lastSequence == Count(entries, w)
  }

  /** A ledger that adds up: every balance is the sum of its settled entries, every position the next
      one, and every entry the balance as it stood. */
  predicate AddsUp(wallets: seq<Wallet>, entries: seq<Entry>) {
    && (forall w | 0 <= w < |wallets| :: Explained(entries, w, wallets[w]))
    && (forall k | 0 <= k < |entries| :: entries[k].wallet < |wallets|)
    && (forall k {:trigger ReadsDown(entries, k)} | 0 <= k < |entries| :: ReadsDown(entries, k))
  }

  lemma OneMoreAddsUp(a: Applied, entries: seq<Entry>, operation: nat, p: Placed)
    requires AddsUp(a.wallets, entries) && MoveOne(a, operation, p).Some?
    requires LedgerQueue([p]) && !p.movement.adjust
    ensures var b := MoveOne(a, operation, p).value;
            var e := b.entries[|a.entries|];
            b.entries == a.entries + [e] && AddsUp(b.wallets, entries + [e])
  {
    assert [p][0] == p;
    var b := MoveOne(a, operation, p).value;
    var e, all := b.entries[|a.entries|], entries + [b.entries[|a.entries|]];
    EntrySaysWhatMoved(p.movement, a.wallets[p.movement.wallet], operation, p.position);
    forall w | 0 <= w < |b.wallets|
      ensures Explained(all, w, b.wallets[w])
    {
      assert Explained(entries, w, a.wallets[w]);
      SettledOfMore(entries, e, w);
      CountOfMore(entries, e, w);
    }
    forall k | 0 <= k < |all| ensures ReadsDown(all, k) {
      if k < |entries| {
        assert all[..k + 1] == entries[..k + 1] && ReadsDown(entries, k);
      } else {
        assert all[..k + 1] == all;
      }
    }
  }

  lemma {:induction false} ApplyAddsUp(t: Tables, queue: seq<Placed>)
    requires AddsUp(t.wallets, t.entries) && LedgerQueue(queue) && NoAdjustments(queue)
    requires ApplyAll(t.wallets, t.operations, queue).Some?
    ensures var a := ApplyAll(t.wallets, t.operations, queue).value; AddsUp(a.wallets, t.entries + a.entries)
  {
    if queue == [] {
      assert t.entries + [] == t.entries;
    } else {
      var head, p := queue[..|queue| - 1], queue[|queue| - 1];
      ApplyAddsUp(t, head);
      var before := ApplyAll(t.wallets, t.operations, head).value;
      OneMoreAddsUp(before, t.entries + before.entries, t.operations, p);
      var after := ApplyAll(t.wallets, t.operations, queue).value;
      assert t.entries + after.entries == t.entries + before.entries + [after.entries[|before.entries|]];
    }
  }

  lemma NoEntriesNoSum(wallets: seq<Wallet>, entries: seq<Entry>, w: nat)
    requires AddsUp(wallets, entries) && w >= |wallets|
    ensures Settled(entries, w) == 0 && Count(entries, w) == 0
  {
    TotalOfZeros(SignedRows(entries, w));
    NoneToCount(entries, w);
  }

  lemma {:induction false} NoneToCount(entries: seq<Entry>, w: nat)
    requires forall k | 0 <= k < |entries| :: entries[k].wallet != w
    ensures Count(entries, w) == 0
  {
    if entries != [] {
      NoneToCount(entries[..|entries| - 1], w);
    }
  }

  /** Measuring a ledger that adds up finds no difference. */
  lemma NothingToRepair(t: Tables, w: nat)
    requires AddsUp(t.wallets, t.entries) && w < |t.wallets|
    ensures t.wallets[w].balance - Measured(t.entries, w, t.wallets[w].lastSequence) == 0 == Outside(t, w)
  {
    forall k | 0 <= k < |t.entries| && t.entries[k].wallet == w
      ensures 0 < t.entries[k].sequence <= t.wallets[w].lastSequence
    {
      assert ReadsDown(t.entries, k) && Explained(t.entries, w, t.wallets[w]);
      CountGrows(t.entries, k + 1, |t.entries|, w);
      assert t.entries[..k + 1] == t.entries[..k] + [t.entries[k]];
      CountOfMore(t.entries[..k], t.entries[k], w);
      assert t.entries[..|t.entries|] == t.entries;
    }
    assert MeasuredRows(t.entries, w, t.wallets[w].lastSequence) == SignedRows(t.entries, w);
  }

  lemma {:induction false} CountGrows(entries: seq<Entry>, m: nat, n: nat, w: nat)
    requires m <= n <= |entries|
    ensures Count(entries[..m], w) <= Count(entries[..n], w)
    decreases n - m
  {
    if m < n {
      CountGrows(entries, m, n - 1, w);
      assert entries[..n] == entries[..n - 1] + [entries[n - 1]];
      CountOfMore(entries[..n - 1], entries[n - 1], w);
    }
  }

  /** An adjustment that was measured: of a wallet as the run had left it, and of the entries then or later. */
  predicate Measures(initial: Tables, steps: seq<Step>, k: nat)
    requires k < |steps| && steps[k].Adjust?
  {
    exists m, n | 0 <= m <= n <= k ::
      && steps[k].wallet < |Run(initial, steps[..m]).wallets|
      && steps[k] == Repair(Run(initial, steps[..n]).entries, steps[k].wallet,
         Run(initial, steps[..m]).wallets[steps[k].wallet])
  }

  predicate HonestRepairs(initial: Tables, steps: seq<Step>) {
    forall k {:trigger Measures(initial, steps, k)} | 0 <= k < |steps| && steps[k].Adjust? ::
      Measures(initial, steps, k)
  }

  const EMPTY := Tables([], [], [], 0)

  /** What a ledger that adds up is about: the balances and the positions. */
  lemma OneRowAddsUp(t: Tables, u: Tables)
    requires AddsUp(t.wallets, t.entries) && u.entries == t.entries && |u.wallets| == |t.wallets|
    requires forall w | 0 <= w < |t.wallets| ::
               u.wallets[w].balance == t.wallets[w].balance && u.wallets[w].lastSequence == t.wallets[w].lastSequence
    ensures AddsUp(u.wallets, u.entries)
  {
    forall w | 0 <= w < |u.wallets| ensures Explained(u.entries, w, u.wallets[w]) {
      assert Explained(t.entries, w, t.wallets[w]);
    }
  }

  lemma NewWalletAddsUp(wallets: seq<Wallet>, entries: seq<Entry>, unit: nat)
    requires AddsUp(wallets, entries)
    ensures AddsUp(wallets + [Wallet(unit, 0, 0, 0, 0, false, false)], entries)
  {
    NoEntriesNoSum(wallets, entries, |wallets|);
  }

  lemma WrittenAddsUp(t: Tables, movements: seq<Movement>)
    requires AddsUp(t.wallets, t.entries) && Written(t, movements).Some?
    requires LedgerQueue(PlacedFrom(movements)) && NoAdjustments(PlacedFrom(movements))
    ensures AddsUp(Written(t, movements).value.wallets, Written(t, movements).value.entries)
  {
    LockOrderIsALedgerQueue(movements);
    ApplyAddsUp(t, InLockOrder(PlacedFrom(movements)));
  }

  lemma StepAddsUp(t: Tables, step: Step)
    requires AddsUp(t.wallets, t.entries) && !step.Adjust?
    ensures AddsUp(Perform(t, step).wallets, Perform(t, step).entries)
  {
    if Writes(step) {
      if MayWrite(t, step) && Written(t, MovementsOf(t, step)).Some? {
        MovementsAreALedgerQueue(t, step);
        WrittenAddsUp(t, MovementsOf(t, step));
      }
    } else if step.Open? {
      NewWalletAddsUp(t.wallets, t.entries, step.unit);
    } else {
      OneRowAddsUp(t, Perform(t, step));
    }
  }

  /** Every run from nothing, repairs and all: every balance is the sum of its settled entries, every
      entry stands at its wallet's next position and records the running balance. */
  lemma {:induction false} EveryRunAddsUp(steps: seq<Step>)
    requires HonestRepairs(EMPTY, steps)
    ensures AddsUp(Run(EMPTY, steps).wallets, Run(EMPTY, steps).entries)
    decreases |steps|, 1
  {
    if steps != [] {
      var n := |steps| - 1;
      PrefixIsHonest(EMPTY, steps, n);
      EveryRunAddsUp(steps[..n]);
      if steps[n].Adjust? {
        RepairFindsNothing(steps, n, Run(EMPTY, steps[..n]));
      } else {
        StepAddsUp(Run(EMPTY, steps[..n]), steps[n]);
      }
    }
  }

  /** And no repair measured in such a run ever finds anything to do, in whatever state it is written. */
  lemma RepairFindsNothing(steps: seq<Step>, k: nat, t: Tables)
    requires HonestRepairs(EMPTY, steps) && k < |steps| && steps[k].Adjust?
    ensures Answer(t, steps[k]).None?
    decreases |steps|, 0
  {
    assert Measures(EMPTY, steps, k);
    var w := steps[k].wallet;
    var m, n :| 0 <= m <= n <= k && w < |Run(EMPTY, steps[..m]).wallets|
                && steps[k] == Repair(Run(EMPTY, steps[..n]).entries, w, Run(EMPTY, steps[..m]).wallets[w]);
    PrefixIsHonest(EMPTY, steps, m);
    EveryRunAddsUp(steps[..m]);
    NothingToRepair(Run(EMPTY, steps[..m]), w);
    MeasuredLater(EMPTY, steps, m, n, w, Run(EMPTY, steps[..m]).wallets[w].lastSequence);
    NoDifferenceIsRefused(t, steps[k]);
  }

  lemma NoDifferenceIsRefused(t: Tables, step: Step)
    requires step.Adjust? && step.seenBalance == step.settled
    ensures Answer(t, step).None?
  {
  }

  lemma {:induction false} MeasuredLater(t: Tables, steps: seq<Step>, m: nat, n: nat, w: nat, last: int)
    requires m <= n <= |steps| && w < |Run(t, steps[..m]).wallets| && last <= Run(t, steps[..m]).wallets[w].lastSequence
    ensures w < |Run(t, steps[..n]).wallets| && last <= Run(t, steps[..n]).wallets[w].lastSequence
    ensures Measured(Run(t, steps[..n]).entries, w, last) == Measured(Run(t, steps[..m]).entries, w, last)
    decreases n - m
  {
    if m < n {
      MeasuredLater(t, steps, m, n - 1, w, last);
      RunOneMore(t, steps, n - 1);
      StepKeepsMeasured(Run(t, steps[..n - 1]), steps[n - 1], w, last);
    }
  }

  lemma RunOneMore(t: Tables, steps: seq<Step>, n: nat)
    requires n < |steps|
    ensures Run(t, steps[..n + 1]) == Perform(Run(t, steps[..n]), steps[n])
  {
    assert steps[..n + 1][..n] == steps[..n];
  }

  lemma PrefixIsHonest(initial: Tables, steps: seq<Step>, n: nat)
    requires HonestRepairs(initial, steps) && n <= |steps|
    ensures HonestRepairs(initial, steps[..n])
  {
    var head := steps[..n];
    forall k | 0 <= k < n && head[k].Adjust? ensures Measures(initial, head, k) {
      assert Measures(initial, steps, k);
      assert forall m | 0 <= m <= k :: head[..m] == steps[..m];
    }
  }

  /** The positions of a wallet's ledger are exactly 1 to its last, each taken once. */
  lemma {:induction false} PositionsAreTaken(entries: seq<Entry>, w: nat, n: nat) returns (k: nat)
    requires forall j | 0 <= j < |entries| :: ReadsDown(entries, j)
    requires 1 <= n <= Count(entries, w)
    ensures k < |entries| && entries[k].wallet == w && entries[k].sequence == n
    ensures forall j | 0 <= j < |entries| && entries[j].wallet == w && entries[j].sequence == n :: j == k
  {
    var head, last := entries[..|entries| - 1], entries[|entries| - 1];
    forall j | 0 <= j < |head| ensures ReadsDown(head, j) {
      assert ReadsDown(entries, j) && head[..j + 1] == entries[..j + 1];
    }
    assert entries[..|entries|] == entries && ReadsDown(entries, |entries| - 1);
    forall j | 0 <= j < |head| && head[j].wallet == w ensures head[j].sequence <= Count(head, w) {
      assert ReadsDown(head, j);
      CountGrows(head, j + 1, |head|, w);
      assert head[..|head|] == head;
    }
    if last.wallet == w && n == Count(entries, w) {
      k := |entries| - 1;
    } else {
      k := PositionsAreTaken(head, w, n);
    }
  }
}
