/** What the remaining transactions of the ledger write, row by row, and why a repair is refused
    (wallet.go, hold.go, reconcile.go). */
module LedgerWrites {
  import opened Int64
  import opened Outcome
  import opened Sums
  import opened Tables
  import opened Apply
  import opened Ledger
  import LedgerRuns
  import Settlements

  /** A wallet opens empty, in service, without a credit line, at the start of its ledger. */
  lemma OpeningWrites(t: Tables, unit: nat)
    ensures var u := Perform(t, Open(unit));
            && |u.wallets| == |t.wallets| + 1 && u.wallets[..|t.wallets|] == t.wallets && u.(wallets := t.wallets) == t
            && var w := u.wallets[|t.wallets|];
               && w.unit == unit && w.Servable() && w.balance == 0 == w.held && w.creditLimit == 0 == w.lastSequence
  {
  }

  /** A wallet after a capture: of a hold on it, or into it, or neither. */
  function CapturedFrom(w: Wallet, held: bool, into: bool, whole: int, amount: int): Wallet {
    if held then
      w.(balance := w.balance - amount, held := w.held - whole, lastSequence := w.lastSequence + 1)
    else if into then w.(balance := w.balance + amount, lastSequence := w.lastSequence + 1)
    else w
  }

  lemma OnTwoWallets(wallets: seq<Wallet>, operation: nat, p: Placed, q: Placed)
    requires p.movement.wallet != q.movement.wallet && ApplyAll(wallets, operation, [p] + [q]).Some?
    ensures p.movement.wallet < |wallets| && q.movement.wallet < |wallets|
    ensures ApplyAll(wallets, operation, [p] + [q]).value.wallets
            == wallets[p.movement.wallet := Moved(p.movement, wallets[p.movement.wallet])]
                      [q.movement.wallet := Moved(q.movement, wallets[q.movement.wallet])]
  {
    ApplyOneMore(wallets, operation, [p], q);
    LedgerRuns.OneApplied(wallets, operation, p);
  }

  lemma CaptureMoves(wallets: seq<Wallet>, operation: nat, h: Hold, amount: int, to: Option<nat>)
    requires to != Some(h.wallet)
    requires ApplyAll(wallets, operation, PlacedFrom(CaptureMovements(h, amount, to))).Some?
    ensures var after := ApplyAll(wallets, operation, PlacedFrom(CaptureMovements(h, amount, to))).value.wallets;
            && |after| == |wallets|
            && forall w | 0 <= w < |wallets| ::
                 after[w] == CapturedFrom(wallets[w], w == h.wallet, to == Some(w), h.amount, amount)
  {
    var movements := CaptureMovements(h, amount, to);
    var p := Placed(0, movements[0]);
    if to.Some? {
      var q := Placed(1, movements[1]);
      assert PlacedFrom(movements) == [p] + [q];
      OnTwoWallets(wallets, operation, p, q);
    } else {
      assert PlacedFrom(movements) == [p];
      LedgerRuns.OneApplied(wallets, operation, p);
    }
  }

  /** A capture takes its amount off the balance of the hold's wallet and the whole hold off its held
      column, and puts the amount on the balance of the wallet it is captured into; each moves on one
      position; and the hold settles under the new operation, for that amount. */
  lemma CaptureWrites(t: Tables, hold: nat, amount: Quantity, to: Option<nat>)
    requires Answer(t, Capture(hold, amount, to)).Some?
    ensures var u := Perform(t, Capture(hold, amount, to));
            && hold < |t.holds| && |u.wallets| == |t.wallets| && u.operations == t.operations + 1
            && var h := t.holds[hold];
               && u.holds == t.holds[hold := Hold(h.wallet, h.amount, Captured, Some(t.operations), amount)]
               && forall w | 0 <= w < |t.wallets| ::
                    u.wallets[w] == CapturedFrom(t.wallets[w], w == h.wallet, to == Some(w), h.amount, amount)
  {
    var movements := CaptureMovements(t.holds[hold], amount, to);
    WrittenInOrder(t, movements);
    CaptureMoves(t.wallets, t.operations, t.holds[hold], amount, to);
  }

  /** What an operation leaves of the wallets is what its movements leave in the order of the request. */
  lemma WrittenInOrder(t: Tables, movements: seq<Movement>)
    requires Written(t, movements).Some?
    ensures var a := ApplyAll(t.wallets, t.operations, PlacedFrom(movements));
            a.Some? && Written(t, movements).value.wallets == a.value.wallets
  {
    LockOrderChangesNothing(t.wallets, t.operations, PlacedFrom(movements));
  }

  /** Where a wallet's entries are all at positions it has reached, the two sums a walk adds up are what
      counts on it and what waits, money in less money out. */
  lemma {:induction false} WalkedIsAll(entries: seq<Entry>, w: nat, last: int)
    requires forall k | 0 <= k < |entries| && entries[k].wallet == w :: 0 < entries[k].sequence <= last
    ensures Total(MeasuredRows(entries, w, last)) == Settlements.Sum(entries, w, true)
    ensures Total(ProposedRows(entries, w, last)) == Settlements.Sum(entries, w, false)
  {
    if entries != [] {
      var n := |entries| - 1;
      WalkedIsAll(entries[..n], w, last);
      assert MeasuredRows(entries, w, last)[..n] == MeasuredRows(entries[..n], w, last);
      assert ProposedRows(entries, w, last)[..n] == ProposedRows(entries[..n], w, last);
    }
  }

  /** The wallet is the one that was read, frozen and not closed, and its next position is free. */
  predicate Unmoved(t: Tables, wallet: nat, seen: Wallet)
    requires wallet < |t.wallets|
  {
    var w := t.wallets[wallet];
    && w.frozen && !w.closed && w.balance == seen.balance && w.lastSequence == seen.lastSequence
    && forall k | 0 <= k < |t.entries| ::
         t.entries[k].wallet != wallet || t.entries[k].sequence != w.lastSequence + 1
  }

  lemma RepairPasses(t: Tables, wallet: nat, seen: Wallet)
    requires wallet < |t.wallets|
    ensures var difference := Wrap(seen.balance - Measured(t.entries, wallet, seen.lastSequence));
            Answer(t, Repair(t.entries, wallet, seen)).Some? <==>
            difference != 0 && difference != MIN && Unmoved(t, wallet, seen)
  {
    var difference := Wrap(seen.balance - Measured(t.entries, wallet, seen.lastSequence));
    LedgerRuns.OneMovementPasses(t, AdjustMovement(wallet, seen.balance, seen.lastSequence, difference));
  }

  /** Why a repair is refused: of a wallet that was not frozen as it was read; of a ledger that cannot be
      added up, or a difference that has no size in sixty-four bits; where there is no difference; and
      where the wallet moved since. */
  lemma WhyARepairIsRefused(t: Tables, wallet: nat, seen: Wallet)
    requires wallet < |t.wallets|
    ensures var refused := RebuildRefuses(t, wallet, seen);
            var difference := Wrap(seen.balance - Measured(t.entries, wallet, seen.lastSequence));
            var addsUp := AddsUpInRange(t.entries, wallet, seen.lastSequence);
            && (refused == Some(WalletNotFrozen) <==> !seen.frozen)
            && (refused == Some(AmountOverflow) <==> seen.frozen && (!addsUp || difference == MIN))
            && (refused == Some(LedgerBalanced) <==> seen.frozen && addsUp && difference == 0)
            && (refused.None? <==>
                  seen.frozen && addsUp && difference != MIN && difference != 0 && Unmoved(t, wallet, seen))
  {
    RepairPasses(t, wallet, seen);
  }
}
