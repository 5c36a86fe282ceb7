/** What a wallet is served: which requests pass, and what a wallet out of service refuses (commit.go,
    wallet.go, movement.go). */
module ServiceRuns {
  import opened Int64
  import opened Outcome
  import opened Sums
  import opened Tables
  import opened Apply
  import opened Ledger
  import opened LedgerRuns
  import opened HoldRuns

  // ---------------------------------------------------------------- a wallet out of service

  /** A movement that would have to find its wallet in service. */
  predicate AsksService(m: Movement) {
    !m.adjust && (m.pending || !m.takeBack)
  }

  lemma {:induction false} ApplyPassesBy(wallets: seq<Wallet>, operation: nat, queue: seq<Placed>, w: nat)
    requires ApplyAll(wallets, operation, queue).Some? && w < |wallets| && !wallets[w].Servable()
    requires forall k | 0 <= k < |queue| :: AsksService(queue[k].movement)
    ensures var a := ApplyAll(wallets, operation, queue).value;
            && |a.wallets| == |wallets| && a.wallets[w] == wallets[w]
            && forall k | 0 <= k < |a.entries| :: a.entries[k].wallet != w
  {
    if queue != [] {
      ApplyPassesBy(wallets, operation, queue[..|queue| - 1], w);
    }
  }

  lemma WrittenPassesBy(t: Tables, movements: seq<Movement>, w: nat)
    requires Written(t, movements).Some? && w < |t.wallets| && !t.wallets[w].Servable()
    requires forall k | 0 <= k < |movements| :: AsksService(movements[k])
    ensures var u := Written(t, movements).value;
            |u.wallets| == |t.wallets| && u.wallets[w] == t.wallets[w] && Count(u.entries, w) == Count(t.entries, w)
  {
    var order := InLockOrder(PlacedFrom(movements));
    LockOrderIsOrdered(PlacedFrom(movements));
    forall k | 0 <= k < |order| ensures AsksService(order[k].movement) {
      InTheQueue(movements, order, k);
    }
    ApplyPassesBy(t.wallets, t.operations, order, w);
    CountOfOthers(t.entries, ApplyAll(t.wallets, t.operations, order).value.entries, w);
  }

  lemma {:induction false} CountOfOthers(entries: seq<Entry>, more: seq<Entry>, w: nat)
    requires forall k | 0 <= k < |more| :: more[k].wallet != w
    ensures Count(entries + more, w) == Count(entries, w)
  {
    if more == [] {
      assert entries + more == entries;
    } else {
      var n := |more| - 1;
      CountOfOthers(entries, more[..n], w);
      assert entries + more == (entries + more[..n]) + [more[n]];
      CountOfMore(entries + more[..n], more[n], w);
    }
  }

  /** A frozen or closed wallet stands still: whatever is asked, its balance is what it was, nothing is
      set aside on it and, but for the repair that lifts a freeze, nothing is written in its ledger. */
  lemma OutOfServiceStandsStill(t: Tables, step: Step, w: nat)
    requires w < |t.wallets| && !t.wallets[w].Servable()
    requires forall k | 0 <= k < |t.holds| :: t.holds[k].amount >= 0
    ensures var u := Perform(t, step);
            && |u.wallets| >= |t.wallets| && u.wallets[w].balance == t.wallets[w].balance
               && u.wallets[w].held <= t.wallets[w].held
            && (!step.Adjust? ==>
               u.wallets[w].lastSequence == t.wallets[w].lastSequence && Count(u.entries, w) == Count(t.entries, w))
            && (t.wallets[w].closed && !(step.SetClosed? && step.wallet == w) ==> u.wallets[w].closed)
  {
    if Writes(step) {
      if MayWrite(t, step) && Written(t, MovementsOf(t, step)).Some? {
        if step.Adjust? {
          AdjustmentIsOne(t, step, w);
        } else {
          MovementsAskService(t, step);
          WrittenPassesBy(t, MovementsOf(t, step), w);
        }
      }
    }
  }

  lemma AdjustmentIsOne(t: Tables, step: Step, w: nat)
    requires step.Adjust? && Answer(t, step).Some? && w < |t.wallets|
    ensures var u := Perform(t, step);
            && |u.wallets| == |t.wallets| && u.wallets[w].balance == t.wallets[w].balance
            && u.wallets[w].held == t.wallets[w].held && u.wallets[w].closed == t.wallets[w].closed
  {
    OneMovementWritten(t, MovementsOf(t, step)[0]);
  }

  lemma MovementsAskService(t: Tables, step: Step)
    requires Writes(step) && !step.Adjust? && MayWrite(t, step)
    ensures forall k | 0 <= k < |MovementsOf(t, step)| :: AsksService(MovementsOf(t, step)[k])
  {
  }

  predicate ClosedAreEmpty(wallets: seq<Wallet>) {
    forall w | 0 <= w < |wallets| && wallets[w].closed :: wallets[w].balance == 0
  }

  /** In every run a closed wallet holds nothing, so a wallet that is reopened is the wallet it was. */
  lemma {:induction false} AClosedWalletIsEmpty(steps: seq<Step>)
    ensures ClosedAreEmpty(Run(EMPTY, steps).wallets)
  {
    if steps != [] {
      AClosedWalletIsEmpty(steps[..|steps| - 1]);
      HeldIsTheOpenHolds(steps[..|steps| - 1]);
      StepKeepsClosedEmpty(Run(EMPTY, steps[..|steps| - 1]), steps[|steps| - 1]);
    }
  }

  lemma StepKeepsClosedEmpty(t: Tables, step: Step)
    requires ClosedAreEmpty(t.wallets) && HeldAddsUp(t)
    ensures ClosedAreEmpty(Perform(t, step).wallets)
  {
    var u := Perform(t, step);
    OnlyOpeningAdds(t, step);
    forall w | 0 <= w < |u.wallets| && u.wallets[w].closed ensures u.wallets[w].balance == 0 {
      if w < |t.wallets| {
        if t.wallets[w].closed {
          OutOfServiceStandsStill(t, step, w);
        } else {
          OnlyClosingCloses(t, step, w);
        }
      }
    }
  }

  lemma {:induction false} ApplyKeepsClosed(wallets: seq<Wallet>, operation: nat, queue: seq<Placed>, w: nat)
    requires ApplyAll(wallets, operation, queue).Some? && w < |wallets|
    ensures var a := ApplyAll(wallets, operation, queue).value;
            |a.wallets| == |wallets| && a.wallets[w].closed == wallets[w].closed
  {
    if queue != [] {
      ApplyKeepsClosed(wallets, operation, queue[..|queue| - 1], w);
    }
  }

  lemma OnlyClosingCloses(t: Tables, step: Step, w: nat)
    requires w < |t.wallets| && !t.wallets[w].closed
    ensures var u := Perform(t, step); w < |u.wallets| && (u.wallets[w].closed ==> u.wallets[w].balance == 0)
  {
    if Writes(step) && MayWrite(t, step) && Written(t, MovementsOf(t, step)).Some? {
      ApplyKeepsClosed(t.wallets, t.operations, InLockOrder(PlacedFrom(MovementsOf(t, step))), w);
    }
  }

  // ---------------------------------------------------------------- which requests pass

  lemma {:induction false} NewPositions(wallets: seq<Wallet>, operation: nat, queue: seq<Placed>)
    requires ApplyAll(wallets, operation, queue).Some? && LedgerQueue(queue)
    ensures var a := ApplyAll(wallets, operation, queue).value;
            && |a.wallets| == |wallets|
            && (forall w | 0 <= w < |wallets| :: a.wallets[w].lastSequence >= wallets[w].lastSequence)
            && (forall k | 0 <= k < |a.entries| ::
                  a.entries[k].wallet < |wallets| && a.entries[k].sequence > wallets[a.entries[k].wallet].lastSequence)
  {
    if queue != [] {
      NewPositions(wallets, operation, queue[..|queue| - 1]);
    }
  }

  /** In a ledger that adds up no position is ever taken already: what an operation's guards let through
      is written. */
  lemma GuardsDecide(t: Tables, movements: seq<Movement>)
    requires AddsUp(t.wallets, t.entries) && LedgerQueue(PlacedFrom(movements))
    ensures Written(t, movements).Some? <==> ApplyAll(t.wallets, t.operations, PlacedFrom(movements)).Some?
    ensures Written(t, movements).Some? ==>
              Written(t, movements).value.wallets
                == ApplyAll(t.wallets, t.operations, PlacedFrom(movements)).value.wallets
  {
    var order := InLockOrder(PlacedFrom(movements));
    LockOrderChangesNothing(t.wallets, t.operations, PlacedFrom(movements));
    LockOrderIsALedgerQueue(movements);
    if ApplyAll(t.wallets, t.operations, order).Some? {
      var more := ApplyAll(t.wallets, t.operations, order).value.entries;
      NewPositions(t.wallets, t.operations, order);
      forall j, k | 0 <= j < |t.entries| && 0 <= k < |more| ensures !SamePlace(t.entries[j], more[k]) {
        NextPositionIsFree(t, more[k]);
        assert [more[k]][0] == more[k];
        assert !Collides(t.entries, [more[k]]);
      }
    }
  }

  /** A leg a wallet is served: it is in service, and waits, or has room for the money, or has it to
      spend -- or, forced, has the range of the column for it. */
  predicate Served(wallets: seq<Wallet>, leg: Leg) {
    && leg.wallet < |wallets| && wallets[leg.wallet].Servable()
    && var w := wallets[leg.wallet];
    || leg.pending
    || (leg.kind == Deposit && w.balance + leg.amount <= MAX)
    || (leg.kind == Withdraw && leg.force && w.balance - leg.amount >= MIN)
    || (leg.kind == Withdraw && !leg.force && leg.amount <= w.Available())
  }

  /** What it leaves of the wallet. */
  predicate Left(before: Wallet, leg: Leg, after: Wallet) {
    after == before.(lastSequence := before.lastSequence + 1,
                     balance := if leg.pending then before.balance
                                else if leg.kind == Withdraw then before.balance - leg.amount
                                else before.balance + leg.amount)
  }

  lemma OneLegApplied(wallets: seq<Wallet>, operation: nat, leg: Leg)
    ensures var queue := PlacedFrom(Movements([leg]));
            && (ApplyAll(wallets, operation, queue).Some? <==> Served(wallets, leg))
            && (Served(wallets, leg) ==>
                  var after := ApplyAll(wallets, operation, queue).value.wallets;
                  |after| == |wallets| && Left(wallets[leg.wallet], leg, after[leg.wallet])
                    && after == wallets[leg.wallet := after[leg.wallet]])
  {
    var m := Plain(leg.wallet, leg.kind, leg.amount, leg.pending, leg.force);
    assert PlacedFrom(Movements([leg])) == [Placed(0, m)];
    OneApplied(wallets, operation, Placed(0, m));
  }

  /** In every run, a deposit or a withdrawal passes exactly when its wallet serves it, and moves that
      wallet by it and no other. */
  lemma {:induction false} AMovementIsServed(steps: seq<Step>, leg: Leg)
    requires HonestRepairs(EMPTY, steps)
    ensures var t := Run(EMPTY, steps);
            && (Answer(t, Post([leg])).Some? <==> Served(t.wallets, leg))
            && (Served(t.wallets, leg) ==>
                  var after := Perform(t, Post([leg])).wallets;
                  |after| == |t.wallets| && Left(t.wallets[leg.wallet], leg, after[leg.wallet])
                    && after == t.wallets[leg.wallet := after[leg.wallet]])
  {
    EveryRunAddsUp(steps);
    AMovementIsServedIn(Run(EMPTY, steps), leg);
  }

  lemma AMovementIsServedIn(t: Tables, leg: Leg)
    requires AddsUp(t.wallets, t.entries)
    ensures Answer(t, Post([leg])).Some? <==> Served(t.wallets, leg)
    ensures Served(t.wallets, leg) ==>
              var after := Perform(t, Post([leg])).wallets;
              |after| == |t.wallets| && Left(t.wallets[leg.wallet], leg, after[leg.wallet])
                && after == t.wallets[leg.wallet := after[leg.wallet]]
  {
    PostWrites(t, [leg]);
    GuardsDecide(t, Movements([leg]));
    OneLegApplied(t.wallets, t.operations, leg);
  }

  /** A payment between two wallets passes exactly when each serves its side, whatever the order of
      their identifiers, and moves each by its side. */
  lemma {:induction false} ATransferIsServed(steps: seq<Step>, out: Leg, into: Leg)
    requires HonestRepairs(EMPTY, steps) && out.wallet != into.wallet
    ensures var t := Run(EMPTY, steps);
            && (Answer(t, Post([out, into])).Some? <==> Served(t.wallets, out) && Served(t.wallets, into))
            && (Served(t.wallets, out) && Served(t.wallets, into) ==>
                  var after := Perform(t, Post([out, into])).wallets;
                  && |after| == |t.wallets|
                  && Left(t.wallets[out.wallet], out, after[out.wallet])
                     && Left(t.wallets[into.wallet], into, after[into.wallet])
                  && after == t.wallets[out.wallet := after[out.wallet]][into.wallet := after[into.wallet]])
  {
    EveryRunAddsUp(steps);
    ATransferIsServedIn(Run(EMPTY, steps), out, into);
  }

  lemma ATransferIsServedIn(t: Tables, out: Leg, into: Leg)
    requires AddsUp(t.wallets, t.entries) && out.wallet != into.wallet
    ensures Answer(t, Post([out, into])).Some? <==> Served(t.wallets, out) && Served(t.wallets, into)
    ensures Served(t.wallets, out) && Served(t.wallets, into) ==>
              var after := Perform(t, Post([out, into])).wallets;
              && |after| == |t.wallets|
              && Left(t.wallets[out.wallet], out, after[out.wallet])
                 && Left(t.wallets[into.wallet], into, after[into.wallet])
              && after == t.wallets[out.wallet := after[out.wallet]][into.wallet := after[into.wallet]]
  {
    PostWrites(t, [out, into]);
    GuardsDecide(t, Movements([out, into]));
    TwoLegsApplied(t.wallets, t.operations, out, into);
  }

  lemma TwoLegsApplied(wallets: seq<Wallet>, operation: nat, out: Leg, into: Leg)
    requires out.wallet != into.wallet
    ensures var a := ApplyAll(wallets, operation, PlacedFrom(Movements([out, into])));
            && (a.Some? <==> Served(wallets, out) && Served(wallets, into))
            && (a.Some? ==>
                  var after := a.value.wallets;
                  && |after| == |wallets|
                  && Left(wallets[out.wallet], out, after[out.wallet])
                     && Left(wallets[into.wallet], into, after[into.wallet])
                  && after == wallets[out.wallet := after[out.wallet]][into.wallet := after[into.wallet]])
  {
    var p := Placed(0, Plain(out.wallet, out.kind, out.amount, out.pending, out.force));
    var q := Placed(1, Plain(into.wallet, into.kind, into.amount, into.pending, into.force));
    assert PlacedFrom(Movements([out, into])) == [p] + [q];
    ApplyOneMore(wallets, operation, [p], q);
    OneApplied(wallets, operation, p);
  }

  /** In every state, money is set aside exactly when there is that much to spend. */
  lemma APlacementIsServed(t: Tables, wallet: nat, amount: Quantity)
    ensures Answer(t, Place(wallet, amount)).Some? <==>
            amount > 0 && wallet < |t.wallets| && t.wallets[wallet].Servable()
              && amount <= t.wallets[wallet].Available()
    ensures Answer(t, Place(wallet, amount)).Some? ==>
              var u := Perform(t, Place(wallet, amount));
              && u.wallets == t.wallets[wallet := t.wallets[wallet].(held := t.wallets[wallet].held + amount)]
              && u.holds == t.holds + [Hold(wallet, amount, Held, None, 0)] && u.entries == t.entries
  {
  }

  /** Placements on one wallet, one after another. */
  function Placements(wallet: nat, amounts: seq<Quantity>): seq<Step> {
    seq(|amounts|, k requires 0 <= k < |amounts| => Place(wallet, amounts[k]))
  }

  predicate AllPass(t: Tables, steps: seq<Step>) {
    steps == [] || (AllPass(t, steps[..|steps| - 1]) && Answer(Run(t, steps[..|steps| - 1]), steps[|steps| - 1]).Some?)
  }

  predicate AllPositive(amounts: seq<Quantity>) {
    forall k | 0 <= k < |amounts| :: amounts[k] > 0
  }

  /** In every state: of however many placements, whoever they are of and in whatever order, all pass
      exactly when the wallet is in service and has all of them together to spend, and then all of them
      are set aside; so no two callers set the same money aside. */
  lemma {:induction false} PlacementsAreServed(t: Tables, wallet: nat, amounts: seq<Quantity>)
    requires amounts != []
    ensures AllPass(t, Placements(wallet, amounts)) <==>
            && AllPositive(amounts) && wallet < |t.wallets| && t.wallets[wallet].Servable()
            && Total(amounts) <= t.wallets[wallet].Available()
    ensures AllPass(t, Placements(wallet, amounts)) ==>
              Run(t, Placements(wallet, amounts)).wallets
              == t.wallets[wallet := t.wallets[wallet].(held := t.wallets[wallet].held + Total(amounts))]
  {
    var steps, n := Placements(wallet, amounts), |amounts| - 1;
    assert steps[..n] == Placements(wallet, amounts[..n]);
    if n == 0 {
      assert AllPass(t, steps[..n]) && Run(t, steps[..n]) == t;
      assert Total(amounts) == amounts[0];
    } else {
      PlacementsAreServed(t, wallet, amounts[..n]);
      assert AllPositive(amounts) <==> AllPositive(amounts[..n]) && amounts[n] > 0;
    }
    APlacementIsServed(Run(t, steps[..n]), wallet, amounts[n]);
  }

  /** What a capture asks of its two wallets: that the hold's be in service, and the other serve the
      deposit. */
  predicate CaptureServed(t: Tables, hold: nat, amount: Quantity, to: Option<nat>) {
    && hold < |t.holds| && t.holds[hold].status == Held && 1 <= amount <= t.holds[hold].amount
    && var h := t.holds[hold];
    && h.wallet < |t.wallets| && t.wallets[h.wallet].Servable()
    && (to.Some? ==>
          && Served(t.wallets, Leg(to.value, Deposit, amount, false, false))
          && to.value != h.wallet && t.wallets[to.value].unit == t.wallets[h.wallet].unit)
  }

  /** In every run an open hold can be captured, for any part of it, exactly while its wallet is in
      service -- and, into another wallet counted the same way, while that one has room for it. */
  lemma {:induction false} ACaptureIsServed(steps: seq<Step>, hold: nat, amount: Quantity, to: Option<nat>)
    requires HonestRepairs(EMPTY, steps)
    ensures var t := Run(EMPTY, steps);
            Answer(t, Capture(hold, amount, to)).Some? <==> CaptureServed(t, hold, amount, to)
  {
    HeldIsTheOpenHolds(steps);
    EveryRunAddsUp(steps);
    ACaptureIsServedIn(Run(EMPTY, steps), hold, amount, to);
  }

  lemma ACaptureIsServedIn(t: Tables, hold: nat, amount: Quantity, to: Option<nat>)
    requires HeldAddsUp(t) && AddsUp(t.wallets, t.entries)
    ensures Answer(t, Capture(hold, amount, to)).Some? <==> CaptureServed(t, hold, amount, to)
  {
    var step := Capture(hold, amount, to);
    if MayWrite(t, step) {
      OpenHoldIsCovered(t, hold);
      GuardsDecide(t, MovementsOf(t, step));
      CaptureApplied(t, hold, amount, to);
    }
  }

  lemma CaptureApplied(t: Tables, hold: nat, amount: Quantity, to: Option<nat>)
    requires MayCapture(t, hold, amount, to) && t.holds[hold].status == Held
    requires t.wallets[t.holds[hold].wallet].held >= t.holds[hold].amount
    ensures ApplyAll(t.wallets, t.operations, PlacedFrom(CaptureMovements(t.holds[hold], amount, to))).Some?
            <==> CaptureServed(t, hold, amount, to)
  {
    var h, movements := t.holds[hold], CaptureMovements(t.holds[hold], amount, to);
    var p := Placed(0, movements[0]);
    OneApplied(t.wallets, t.operations, p);
    if to.Some? {
      var q := Placed(1, movements[1]);
      assert PlacedFrom(movements) == [p] + [q];
      AppliedInTwo(t.wallets, t.operations, p, q);
    } else {
      assert PlacedFrom(movements) == [p];
    }
  }

  /** Two movements on two wallets pass exactly when each does. */
  lemma AppliedInTwo(wallets: seq<Wallet>, operation: nat, p: Placed, q: Placed)
    requires p.movement.wallet != q.movement.wallet
    ensures ApplyAll(wallets, operation, [p] + [q]).Some? <==>
            && p.movement.wallet < |wallets| && Guard(p.movement, wallets[p.movement.wallet])
            && q.movement.wallet < |wallets| && Guard(q.movement, wallets[q.movement.wallet])
  {
    OneApplied(wallets, operation, p);
    ApplyOneMore(wallets, operation, [p], q);
  }
}
