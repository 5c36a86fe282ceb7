/** Money set aside: what a wallet's held column is, and how a hold ends (hold.go). */
module HoldRuns {
  import opened Outcome
  import opened Sums
  import opened Tables
  import opened Apply
  import opened Ledger
  import opened LedgerRuns

  function OpenRows(holds: seq<Hold>, w: nat): seq<int> {
    seq(|holds|, k requires 0 <= k < |holds| =>
      if holds[k].wallet == w && holds[k].status == Held then holds[k].amount else 0)
  }

  /** What the open holds of a wallet add up to. */
  function OpenOn(holds: seq<Hold>, w: nat): int {
    Total(OpenRows(holds, w))
  }

  predicate Backed(holds: seq<Hold>, w: nat, wallet: Wallet) {
    wallet.held == OpenOn(holds, w)
  }

  /** Every held column is the sum of its wallet's open holds. */
  predicate HeldAddsUp(t: Tables) {
    && (forall w | 0 <= w < |t.wallets| :: Backed(t.holds, w, t.wallets[w]))
    && (forall k | 0 <= k < |t.holds| :: t.holds[k].wallet < |t.wallets| && t.holds[k].amount > 0)
  }

  // ---------------------------------------------------------------- what movements do to a held column

  function HeldEffect(m: Movement): int {
    if m.adjust || m.pending then 0
    else if m.setAside then m.amount
    else if m.takeBack then -m.amount
    else if m.fromHold then -(m.amount + m.release)
    else 0
  }

  function HeldEffectsOn(queue: seq<Placed>, w: nat): seq<int> {
    seq(|queue|, k requires 0 <= k < |queue| =>
      if queue[k].movement.wallet == w then HeldEffect(queue[k].movement) else 0)
  }

  lemma {:induction false} HeldAfter(wallets: seq<Wallet>, operation: nat, queue: seq<Placed>, w: nat)
    requires ApplyAll(wallets, operation, queue).Some? && w < |wallets|
    ensures var a := ApplyAll(wallets, operation, queue).value;
            |a.wallets| == |wallets| && a.wallets[w].held == wallets[w].held + Total(HeldEffectsOn(queue, w))
  {
    if queue != [] {
      var head, p := queue[..|queue| - 1], queue[|queue| - 1];
      HeldAfter(wallets, operation, head, w);
      var effect := if p.movement.wallet == w then HeldEffect(p.movement) else 0;
      assert HeldEffectsOn(queue, w) == HeldEffectsOn(head, w) + [effect];
      TotalOfOneMore(HeldEffectsOn(head, w), effect);
    }
  }

  lemma WrittenHeld(t: Tables, movements: seq<Movement>, w: nat)
    requires Written(t, movements).Some? && w < |t.wallets|
    ensures var u := Written(t, movements).value;
            |u.wallets| == |t.wallets|
              && u.wallets[w].held == t.wallets[w].held + Total(HeldEffectsOn(PlacedFrom(movements), w))
  {
    LockOrderChangesNothing(t.wallets, t.operations, PlacedFrom(movements));
    HeldAfter(t.wallets, t.operations, PlacedFrom(movements), w);
  }

  /** What a transaction that writes in the ledger takes off a held column: the whole of the hold it
      captures, and nothing otherwise. */
  lemma HeldByAStep(t: Tables, step: Step, w: nat)
    requires Writes(step) && MayWrite(t, step)
    ensures Total(HeldEffectsOn(PlacedFrom(MovementsOf(t, step)), w)) ==
            if step.Capture? && t.holds[step.hold].wallet == w then -t.holds[step.hold].amount else 0
  {
    var effects := HeldEffectsOn(PlacedFrom(MovementsOf(t, step)), w);
    if step.Capture? {
      var first := if t.holds[step.hold].wallet == w then -t.holds[step.hold].amount else 0;
      assert effects == [first] + effects[1..];
      TotalOfConcat([first], effects[1..]);
      TotalOfZeros(effects[1..]);
      TotalOfOneMore([], first);
      assert [] + [first] == [first];
    } else {
      TotalOfZeros(effects);
    }
  }

  // ---------------------------------------------------------------- every run

  lemma OpenRowsChanged(holds: seq<Hold>, k: nat, h: Hold, w: nat)
    requires k < |holds| && holds[k].status == Held && h.status != Held
    ensures OpenOn(holds[k := h], w) == OpenOn(holds, w) - if holds[k].wallet == w then holds[k].amount else 0
  {
    assert OpenRows(holds[k := h], w) == OpenRows(holds, w)[k := 0];
    TotalOfUpdate(OpenRows(holds, w), k, 0);
  }

  lemma OpenRowsAdded(holds: seq<Hold>, h: Hold, w: nat)
    requires h.status == Held
    ensures OpenOn(holds + [h], w) == OpenOn(holds, w) + if h.wallet == w then h.amount else 0
  {
    var more := if h.wallet == w then h.amount else 0;
    assert OpenRows(holds + [h], w) == OpenRows(holds, w) + [more];
    TotalOfOneMore(OpenRows(holds, w), more);
  }

  /** What one transaction does to one wallet's held column is what it does to its open holds. */
  lemma StepMovesHeld(t: Tables, step: Step, w: nat)
    requires w < |t.wallets|
    ensures var u := Perform(t, step);
            |u.wallets| >= |t.wallets|
              && u.wallets[w].held - OpenOn(u.holds, w) == t.wallets[w].held - OpenOn(t.holds, w)
  {
    if Writes(step) {
      if MayWrite(t, step) && Written(t, MovementsOf(t, step)).Some? {
        WrittenHeld(t, MovementsOf(t, step), w);
        HeldByAStep(t, step, w);
        if step.Capture? {
          OpenRowsChanged(t.holds, step.hold, HoldsAfter(t, step)[step.hold], w);
        }
      }
    } else if Answer(t, step).Some? {
      match step
      case Place(wallet, amount) => OpenRowsAdded(t.holds, Hold(wallet, amount, Held, None, 0), w);
      case GiveBack(hold, to) => OpenRowsChanged(t.holds, hold, t.holds[hold].(status := to), w);
      case _ =>
    }
  }

  lemma StepKeepsHeld(t: Tables, step: Step)
    requires HeldAddsUp(t)
    ensures HeldAddsUp(Perform(t, step))
  {
    var u := Perform(t, step);
    forall w | 0 <= w < |u.wallets| ensures Backed(u.holds, w, u.wallets[w]) {
      if w < |t.wallets| {
        StepMovesHeld(t, step, w);
        assert Backed(t.holds, w, t.wallets[w]);
      } else {
        OnlyOpeningAdds(t, step);
        TotalOfZeros(OpenRows(t.holds, w));
      }
    }
    OnlyOpeningAdds(t, step);
    HoldsStayOnTheirWallets(t, step);
  }

  lemma OnlyOpeningAdds(t: Tables, step: Step)
    ensures !step.Open? ==> |Perform(t, step).wallets| == |t.wallets|
    ensures step.Open? ==> Perform(t, step) == t.(wallets := t.wallets + [Wallet(step.unit, 0, 0, 0, 0, false, false)])
  {
    if Writes(step) && MayWrite(t, step) {
      WrittenKeepsTheWallets(t, MovementsOf(t, step));
    }
  }

  lemma WrittenKeepsTheWallets(t: Tables, movements: seq<Movement>)
    ensures var u := Written(t, movements); u.Some? ==> |u.value.wallets| == |t.wallets|
  {
    if Written(t, movements).Some? {
      EntriesOfAnOperation(t.wallets, t.operations, InLockOrder(PlacedFrom(movements)));
    }
  }

  lemma HoldsStayOnTheirWallets(t: Tables, step: Step)
    ensures var u := Perform(t, step);
            && |u.holds| >= |t.holds|
            && (forall k | 0 <= k < |t.holds| :: Continues(t.holds[k], u.holds[k]))
            && (forall k | |t.holds| <= k < |u.holds| ::
                  u.holds[k].wallet < |t.wallets| && u.holds[k].amount > 0 && u.holds[k].status == Held
                  && u.holds[k].operation.None? && u.holds[k].captured == 0)
  {
    if Writes(step) {
      assert Perform(t, step).holds == t.holds || (MayWrite(t, step) && Perform(t, step).holds == HoldsAfter(t, step));
    }
  }

  /** Over every run of placements, captures, releases, expiries and everything else, a wallet's held
      column is the sum of its open holds. */
  lemma {:induction false} HeldIsTheOpenHolds(steps: seq<Step>)
    ensures HeldAddsUp(Run(EMPTY, steps))
  {
    if steps != [] {
      HeldIsTheOpenHolds(steps[..|steps| - 1]);
      StepKeepsHeld(Run(EMPTY, steps[..|steps| - 1]), steps[|steps| - 1]);
    }
  }

  lemma OpenHoldIsCovered(t: Tables, hold: nat)
    requires HeldAddsUp(t) && hold < |t.holds| && t.holds[hold].status == Held
    ensures t.wallets[t.holds[hold].wallet].held >= t.holds[hold].amount
  {
    var w := t.holds[hold].wallet;
    assert Backed(t.holds, w, t.wallets[w]);
    var rows := OpenRows(t.holds, w);
    TotalOfUpdate(rows, hold, 0);
    TotalIsMonotone(seq(|rows|, _ => 0), rows[hold := 0]);
    TotalOfZeros(seq(|rows|, _ => 0));
  }

  /** So giving back an open hold never finds too little held: it is refused exactly when the hold is
      not there or not open. */
  lemma {:induction false} GivingBackIsServed(steps: seq<Step>, hold: nat, to: HoldStatus)
    requires to == Released || to == Expired
    ensures var t := Run(EMPTY, steps);
            Answer(t, GiveBack(hold, to)).Some? <==> hold < |t.holds| && t.holds[hold].status == Held
  {
    HeldIsTheOpenHolds(steps);
    GivingBackIsServedIn(Run(EMPTY, steps), hold, to);
  }

  lemma GivingBackIsServedIn(t: Tables, hold: nat, to: HoldStatus)
    requires HeldAddsUp(t) && (to == Released || to == Expired)
    ensures Answer(t, GiveBack(hold, to)).Some? <==> hold < |t.holds| && t.holds[hold].status == Held
  {
    if hold < |t.holds| && t.holds[hold].status == Held {
      OpenHoldIsCovered(t, hold);
    }
  }

  /** In a ledger that adds up the position after a wallet's last is free. */
  lemma NextPositionIsFree(t: Tables, e: Entry)
    requires AddsUp(t.wallets, t.entries) && e.wallet < |t.wallets| && e.sequence > t.wallets[e.wallet].lastSequence
    ensures !Collides(t.entries, [e])
  {
    forall j | 0 <= j < |t.entries| ensures !SamePlace(t.entries[j], e) {
      assert ReadsDown(t.entries, j);
      if t.entries[j].wallet == e.wallet {
        assert Explained(t.entries, e.wallet, t.wallets[e.wallet]);
        CountGrows(t.entries, j + 1, |t.entries|, e.wallet);
        assert t.entries[..|t.entries|] == t.entries;
      }
    }
  }

  // ---------------------------------------------------------------- how a hold ends

  /** A hold keeps its wallet and its amount, and once it is settled it is never touched again. */
  predicate Continues(before: Hold, after: Hold) {
    && after.wallet == before.wallet && after.amount == before.amount
    && (before.status != Held ==> after == before)
  }

  /** From any state, over every run: a hold settles at most once. */
  lemma {:induction false} AHoldSettlesOnce(t: Tables, steps: seq<Step>, k: nat)
    requires k < |t.holds|
    ensures k < |Run(t, steps).holds| && Continues(t.holds[k], Run(t, steps).holds[k])
  {
    if steps != [] {
      AHoldSettlesOnce(t, steps[..|steps| - 1], k);
      HoldsStayOnTheirWallets(Run(t, steps[..|steps| - 1]), steps[|steps| - 1]);
    }
  }

  /** The entry by which an operation took a hold's money. */
  predicate TakenBy(e: Entry, h: Hold) {
    h.operation == Some(e.operation) && e.wallet == h.wallet && e.kind == Withdraw && e.amount == h.captured
      && e.settled
  }

  /** A captured hold took between one and its whole amount, by an entry of the operation it names;
      any other took nothing. */
  predicate EndedWell(t: Tables, h: Hold) {
    if h.status == Captured then
      && 1 <= h.captured <= h.amount
      && h.operation.Some? && h.operation.value < t.operations
      && exists j :: 0 <= j < |t.entries| && TakenBy(t.entries[j], h)
    else h.captured == 0 && h.operation.None?
  }

  predicate HoldsEndedWell(t: Tables) {
    && (forall k | 0 <= k < |t.holds| :: EndedWell(t, t.holds[k]))
    && (forall j, k | 0 <= j < k < |t.holds| && t.holds[j].status == Captured ::
       t.holds[j].operation != t.holds[k].operation)
  }

  lemma EntriesAreKept(t: Tables, step: Step)
    ensures var u := Perform(t, step);
            u.operations >= t.operations && |u.entries| >= |t.entries| && u.entries[..|t.entries|] == t.entries
  {
  }

  lemma StillEndedWell(t: Tables, u: Tables, h: Hold)
    requires EndedWell(t, h) && u.operations >= t.operations
    requires |u.entries| >= |t.entries| && u.entries[..|t.entries|] == t.entries
    ensures EndedWell(u, h)
  {
    if h.status == Captured {
      var j :| 0 <= j < |t.entries| && TakenBy(t.entries[j], h);
      assert u.entries[j] == t.entries[j];
    }
  }

  /** The capture writes the entry its hold names. */
  lemma CaptureTakes(t: Tables, step: Step)
    requires step.Capture? && Answer(t, step).Some?
    ensures var u := Perform(t, step); u.operations == t.operations + 1 && EndedWell(u, u.holds[step.hold])
  {
    var movements, u := MovementsOf(t, step), Perform(t, step);
    var j := EntryOfAMovement(t, movements, 0);
    assert TakenBy(u.entries[j], u.holds[step.hold]);
  }

  /** What was written holds the entry of every movement. */
  lemma EntryOfAMovement(t: Tables, movements: seq<Movement>, k: nat) returns (j: nat)
    requires k < |movements| && Written(t, movements).Some?
    ensures var u := Written(t, movements).value;
            j < |u.entries| && RecordedAs(u.entries[j], t.operations, Placed(k, movements[k]))
  {
    var order := InLockOrder(PlacedFrom(movements));
    LockOrderIsOrdered(PlacedFrom(movements));
    EntriesOfAnOperation(t.wallets, t.operations, order);
    var i := PlaceInTheQueue(movements, order, k);
    var more := ApplyAll(t.wallets, t.operations, order).value.entries;
    j := |t.entries| + i;
    assert Written(t, movements).value.entries == t.entries + more;
    assert RecordedAs(more[i], t.operations, order[i]);
  }

  lemma StepEndsWell(t: Tables, step: Step)
    requires HoldsEndedWell(t)
    ensures HoldsEndedWell(Perform(t, step))
  {
    var u := Perform(t, step);
    EntriesAreKept(t, step);
    HoldsStayOnTheirWallets(t, step);
    var captures := step.Capture? && Answer(t, step).Some?;
    if captures {
      CaptureTakes(t, step);
    }
    forall k | 0 <= k < |u.holds| ensures EndedWell(u, u.holds[k]) {
      if k < |t.holds| && !(captures && k == step.hold) {
        assert EndedWell(t, t.holds[k]);
        StillEndedWell(t, u, t.holds[k]);
        OthersKeepTheirEnd(t, step, k);
      }
    }
    forall j, k | 0 <= j < k < |u.holds| && u.holds[j].status == Captured
      ensures u.holds[j].operation != u.holds[k].operation
    {
      assert EndedWell(u, u.holds[j]) && EndedWell(u, u.holds[k]);
      if k < |t.holds| {
        assert EndedWell(t, t.holds[j]) && EndedWell(t, t.holds[k]);
        OthersKeepTheirEnd(t, step, j);
        OthersKeepTheirEnd(t, step, k);
      }
    }
  }

  /** A transaction leaves how every hold ended as it was, but for the one it settles. */
  lemma OthersKeepTheirEnd(t: Tables, step: Step, k: nat)
    requires k < |t.holds|
    ensures var u := Perform(t, step);
            && k < |u.holds|
            && (u.holds[k].operation, u.holds[k].captured) ==
               (if step.Capture? && step.hold == k && Answer(t, step).Some? then (Some(t.operations), step.amount)
                else (t.holds[k].operation, t.holds[k].captured))
            && (u.holds[k].status == Captured <==>
                  t.holds[k].status == Captured || (step.Capture? && step.hold == k && Answer(t, step).Some?))
  {
  }

  /** Over every run, every captured hold took between one and its full amount under one operation,
      no two under the same, and every other took nothing. */
  lemma {:induction false} HoldsEndWell(steps: seq<Step>)
    ensures HoldsEndedWell(Run(EMPTY, steps))
  {
    if steps != [] {
      HoldsEndWell(steps[..|steps| - 1]);
      StepEndsWell(Run(EMPTY, steps[..|steps| - 1]), steps[|steps| - 1]);
    }
  }
}
