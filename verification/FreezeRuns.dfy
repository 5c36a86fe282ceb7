/** A wallet out of service: what takes it out, what is refused until it is back, and what brings it back
    (freeze and setClosed, reconcile.go and wallet.go). */
module FreezeRuns {
  import opened Outcome
  import opened Tables
  import opened Apply
  import opened Ledger
  import opened LedgerRuns
  import opened ServiceRuns

  /** A request that would move a wallet, wait on it, or set something aside on it. */
  predicate Touches(t: Tables, step: Step, w: nat) {
    match step
    case Post(legs) => exists k :: 0 <= k < |legs| && legs[k].wallet == w
    case Place(wallet, _) => wallet == w
    case Capture(hold, _, to) => to == Some(w) || (hold < |t.holds| && t.holds[hold].wallet == w)
    case _ => false
  }

  /** The one step that puts a frozen wallet back, and the one that puts a closed one back. */
  predicate Lifts(t: Tables, step: Step, w: nat) {
    step.Adjust? && step.wallet == w && Answer(t, step).Some?
  }

  predicate Reopens(step: Step, w: nat) {
    step == SetClosed(w, false)
  }

  /** A freeze takes a wallet out of service whatever it holds, and touches nothing else of anything. */
  lemma FreezingFreezes(t: Tables, w: nat)
    ensures Answer(t, Freeze(w)).Some? <==> w < |t.wallets|
    ensures w < |t.wallets| ==>
              var u := Perform(t, Freeze(w));
              && |u.wallets| == |t.wallets| && u.wallets[w].frozen
                 && u.wallets[w].(frozen := t.wallets[w].frozen) == t.wallets[w]
              && (forall v | 0 <= v < |t.wallets| && v != w :: u.wallets[v] == t.wallets[v])
              && u.(wallets := t.wallets) == t
  {
  }

  /** Closing passes exactly on an open wallet of which nothing is left, reopening on a closed one, and
      each changes that one column. */
  lemma ClosingIsServed(t: Tables, w: nat, closing: bool)
    ensures Answer(t, SetClosed(w, closing)).Some? <==>
            w < |t.wallets|
              && if closing then !t.wallets[w].closed && t.wallets[w].balance == 0 else t.wallets[w].closed
    ensures Answer(t, SetClosed(w, closing)).Some? ==>
              var u := Perform(t, SetClosed(w, closing));
              && |u.wallets| == |t.wallets| && u.wallets[w].closed == closing
              && u.wallets[w].(closed := !closing) == t.wallets[w]
              && (forall v | 0 <= v < |t.wallets| && v != w :: u.wallets[v] == t.wallets[v])
              && u.(wallets := t.wallets) == t
  {
  }

  lemma MovementsOnIt(t: Tables, step: Step, w: nat)
    requires Writes(step) && MayWrite(t, step) && Touches(t, step, w)
    ensures exists k :: 0 <= k < |MovementsOf(t, step)| && MovementsOf(t, step)[k].wallet == w
  {
    match step
    case Post(legs) => {
      var k :| 0 <= k < |legs| && legs[k].wallet == w;
      assert MovementsOf(t, step)[k].wallet == w;
    }
    case Capture(hold, amount, to) => {
      if t.holds[hold].wallet == w {
        assert MovementsOf(t, step)[0].wallet == w;
      } else {
        assert MovementsOf(t, step)[1].wallet == w;
      }
    }
  }

  /** Nothing that touches a wallet out of service passes. */
  lemma OutOfServiceRefuses(t: Tables, step: Step, w: nat)
    requires w < |t.wallets| && !t.wallets[w].Servable() && Touches(t, step, w)
    ensures Answer(t, step).None?
  {
    if Writes(step) && MayWrite(t, step) && Written(t, MovementsOf(t, step)).Some? {
      var movements := MovementsOf(t, step);
      MovementsOnIt(t, step, w);
      MovementsAskService(t, step);
      var k :| 0 <= k < |movements| && movements[k].wallet == w;
      NoneIsOnIt(t, movements, w, k);
    }
  }

  lemma NoneIsOnIt(t: Tables, movements: seq<Movement>, w: nat, k: nat)
    requires Written(t, movements).Some? && w < |t.wallets| && !t.wallets[w].Servable()
    requires forall j | 0 <= j < |movements| :: AsksService(movements[j])
    requires k < |movements|
    ensures movements[k].wallet != w
  {
    var queue := PlacedFrom(movements);
    LockOrderChangesNothing(t.wallets, t.operations, queue);
    ApplyPassesBy(t.wallets, t.operations, queue, w);
    EntriesOfAnOperation(t.wallets, t.operations, queue);
    assert RecordedAs(ApplyAll(t.wallets, t.operations, queue).value.entries[k], t.operations, queue[k]);
  }

  /** A frozen wallet stays frozen and a closed one closed, whatever is asked, until the step that puts
      it back. */
  lemma StaysOutOfService(t: Tables, step: Step, w: nat)
    requires w < |t.wallets|
    ensures w < |Perform(t, step).wallets|
    ensures t.wallets[w].frozen && !Lifts(t, step, w) ==> Perform(t, step).wallets[w].frozen
    ensures t.wallets[w].closed && !Reopens(step, w) ==> Perform(t, step).wallets[w].closed
  {
    StepKeepsDrift(t, step, w);
    if Writes(step) && !t.wallets[w].Servable() {
      if MayWrite(t, step) && Written(t, MovementsOf(t, step)).Some? {
        if step.Adjust? {
          OneMovementWritten(t, MovementsOf(t, step)[0]);
        } else {
          MovementsAskService(t, step);
          WrittenPassesBy(t, MovementsOf(t, step), w);
        }
      }
    }
  }

  predicate LiftsAt(t: Tables, steps: seq<Step>, k: nat, w: nat)
    requires k < |steps|
  {
    Lifts(Run(t, steps[..k]), steps[k], w)
  }

  /** In any run, from any state: a frozen wallet is frozen until a repair of it passes. */
  lemma {:induction false} FrozenUntilRepaired(t: Tables, steps: seq<Step>, w: nat)
    requires w < |t.wallets| && t.wallets[w].frozen
    requires forall k {:trigger LiftsAt(t, steps, k, w)} | 0 <= k < |steps| :: !LiftsAt(t, steps, k, w)
    ensures w < |Run(t, steps).wallets| && Run(t, steps).wallets[w].frozen
  {
    if steps != [] {
      var n := |steps| - 1;
      var head := steps[..n];
      forall k | 0 <= k < n ensures !LiftsAt(t, head, k, w) {
        assert !LiftsAt(t, steps, k, w) && head[..k] == steps[..k];
      }
      FrozenUntilRepaired(t, head, w);
      assert !LiftsAt(t, steps, n, w);
      StaysOutOfService(Run(t, head), steps[n], w);
    }
  }

  /** And a closed one is closed until it is reopened. */
  lemma {:induction false} ClosedUntilReopened(t: Tables, steps: seq<Step>, w: nat)
    requires w < |t.wallets| && t.wallets[w].closed && forall k | 0 <= k < |steps| :: !Reopens(steps[k], w)
    ensures w < |Run(t, steps).wallets| && Run(t, steps).wallets[w].closed
  {
    if steps != [] {
      ClosedUntilReopened(t, steps[..|steps| - 1], w);
      StaysOutOfService(Run(t, steps[..|steps| - 1]), steps[|steps| - 1], w);
    }
  }

  /** So once a reconciliation has frozen a wallet, in any run, nothing that would move it, wait on it
      or set money aside on it passes until a repair of it has. */
  lemma NothingPassesUntilRepaired(t: Tables, steps: seq<Step>, w: nat, step: Step)
    requires w < |t.wallets|
    requires var frozen := Perform(t, Freeze(w));
             forall k {:trigger LiftsAt(frozen, steps, k, w)} | 0 <= k < |steps| :: !LiftsAt(frozen, steps, k, w)
    requires Touches(Run(Perform(t, Freeze(w)), steps), step, w)
    ensures Answer(Run(Perform(t, Freeze(w)), steps), step).None?
  {
    FreezingFreezes(t, w);
    FrozenUntilRepaired(Perform(t, Freeze(w)), steps, w);
    OutOfServiceRefuses(Run(Perform(t, Freeze(w)), steps), step, w);
  }

  /** And so with one that was closed, until it is reopened. */
  lemma NothingPassesUntilReopened(t: Tables, steps: seq<Step>, w: nat, step: Step)
    requires Answer(t, SetClosed(w, true)).Some? && forall k | 0 <= k < |steps| :: !Reopens(steps[k], w)
    requires Touches(Run(Perform(t, SetClosed(w, true)), steps), step, w)
    ensures Answer(Run(Perform(t, SetClosed(w, true)), steps), step).None?
  {
    ClosingIsServed(t, w, true);
    ClosedUntilReopened(Perform(t, SetClosed(w, true)), steps, w);
    OutOfServiceRefuses(Run(Perform(t, SetClosed(w, true)), steps), step, w);
  }

  /** A hold is given back exactly where it is open and its wallet has that much set aside, with the
      status it is given back under, and what it set aside off the column: nothing else changes. */
  lemma GivingBackWrites(t: Tables, hold: nat, to: HoldStatus)
    ensures Answer(t, GiveBack(hold, to)).Some? <==>
            && hold < |t.holds| && t.holds[hold].status == Held && (to == Released || to == Expired)
            && t.holds[hold].wallet < |t.wallets| && t.wallets[t.holds[hold].wallet].held >= t.holds[hold].amount
    ensures Answer(t, GiveBack(hold, to)).Some? ==>
              var u, h := Perform(t, GiveBack(hold, to)), t.holds[hold];
              && u.holds == t.holds[hold := Hold(h.wallet, h.amount, to, h.operation, h.captured)]
              && u.wallets == t.wallets[h.wallet := t.wallets[h.wallet].(held := t.wallets[h.wallet].held - h.amount)]
              && u.entries == t.entries && u.operations == t.operations
  {
  }
}
