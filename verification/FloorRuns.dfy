/** The floor of a wallet, and the total of all of them, over every run (commit.go, wallet.go). */
module FloorRuns {
  import opened Int64
  import opened Outcome
  import opened Sums
  import opened Tables
  import opened Apply
  import opened Ledger
  import opened LedgerRuns
  import opened HoldRuns

  // ---------------------------------------------------------------- one movement, one operation

  /** A movement no caller forced, of amounts that are not negative. */
  predicate Unforced(m: Movement) {
    && m.amount >= 0 && m.release >= 0
    && (m.force ==> m.adjust || m.pending || m.setAside || m.takeBack || m.fromHold || m.kind == Deposit)
  }

  /** Covering what is set aside, or covering it better than before. */
  predicate NoWorse(before: int, after: int) {
    after >= 0 || after >= before
  }

  /** What a run without force keeps of one wallet. */
  predicate Sound(w: Wallet) {
    && w.Available() >= 0 && w.held >= 0
    && 0 <= w.creditLimit <= MAX && -w.creditLimit <= w.balance <= MAX
  }

  /** What a run that forces nothing keeps of one wallet however low its credit line is taken. */
  predicate Ranged(w: Wallet) {
    w.held >= 0 && 0 <= w.creditLimit <= MAX && w.balance <= MAX && w.balance - w.held >= MIN
  }

  predicate AllSound(wallets: seq<Wallet>) {
    forall w | 0 <= w < |wallets| :: Sound(wallets[w])
  }

  lemma MovementKeepsSound(m: Movement, w: Wallet)
    requires Unforced(m) && Guard(m, w)
    ensures NoWorse(w.Available(), Moved(m, w).Available())
    ensures (Sound(w) ==> Sound(Moved(m, w))) && (Ranged(w) ==> Ranged(Moved(m, w)))
  {
  }

  lemma {:induction false} ApplyKeepsSound(wallets: seq<Wallet>, operation: nat, queue: seq<Placed>, w: nat)
    requires ApplyAll(wallets, operation, queue).Some? && w < |wallets|
    requires forall k | 0 <= k < |queue| :: Unforced(queue[k].movement)
    ensures var a := ApplyAll(wallets, operation, queue).value;
            && |a.wallets| == |wallets| && NoWorse(wallets[w].Available(), a.wallets[w].Available())
            && (Sound(wallets[w]) ==> Sound(a.wallets[w])) && (Ranged(wallets[w]) ==> Ranged(a.wallets[w]))
  {
    if queue != [] {
      var head, p := queue[..|queue| - 1], queue[|queue| - 1];
      ApplyKeepsSound(wallets, operation, head, w);
      MovementKeepsSound(p.movement, ApplyAll(wallets, operation, head).value.wallets[p.movement.wallet]);
    }
  }

  // ---------------------------------------------------------------- every transaction, every run

  /** A request that asks for no forced withdrawal. */
  predicate UnforcedLeg(leg: Leg) {
    leg.force ==> leg.pending || leg.kind == Deposit
  }

  predicate ForcesNothing(step: Step) {
    step.Post? ==> forall k | 0 <= k < |step.legs| :: UnforcedLeg(step.legs[k])
  }

  /** A transaction that forces nothing, and lowers no credit line under what is set aside on it. */
  predicate Gentle(t: Tables, step: Step) {
    ForcesNothing(step)
    && match step
    case SetCredit(wallet, limit) =>
      wallet < |t.wallets| ==> limit >= t.wallets[wallet].held - t.wallets[wallet].balance
    case _ => true
  }

  lemma MovementsAreUnforced(t: Tables, step: Step)
    requires ForcesNothing(step) && Writes(step) && MayWrite(t, step)
    ensures forall k | 0 <= k < |MovementsOf(t, step)| :: Unforced(MovementsOf(t, step)[k])
  {
    if step.Post? {
      forall k | 0 <= k < |step.legs| ensures Unforced(MovementsOf(t, step)[k]) {
        assert UnforcedLeg(step.legs[k]);
      }
    }
  }

  lemma WrittenKeepsSound(t: Tables, movements: seq<Movement>, w: nat)
    requires Written(t, movements).Some? && w < |t.wallets|
    requires forall k | 0 <= k < |movements| :: Unforced(movements[k])
    ensures var u := Written(t, movements).value;
            && |u.wallets| == |t.wallets| && NoWorse(t.wallets[w].Available(), u.wallets[w].Available())
            && (Sound(t.wallets[w]) ==> Sound(u.wallets[w])) && (Ranged(t.wallets[w]) ==> Ranged(u.wallets[w]))
  {
    LockOrderChangesNothing(t.wallets, t.operations, PlacedFrom(movements));
    ApplyKeepsSound(t.wallets, t.operations, PlacedFrom(movements), w);
  }

  /** From any state: a transaction that forces nothing leaves every wallet able to cover what is set
      aside on it, or better covered than it was, unless it lowers a credit line under that; and it
      leaves the range what it held. */
  lemma StepKeepsTheFloor(t: Tables, step: Step, w: nat)
    requires ForcesNothing(step) && w < |t.wallets|
    requires forall k | 0 <= k < |t.holds| :: t.holds[k].amount >= 0
    ensures var u := Perform(t, step);
            && |u.wallets| >= |t.wallets|
            && (Gentle(t, step) ==>
                  && NoWorse(t.wallets[w].Available(), u.wallets[w].Available())
                  && (Sound(t.wallets[w]) ==> Sound(u.wallets[w])))
            && (Ranged(t.wallets[w]) ==> Ranged(u.wallets[w]))
  {
    if Writes(step) && MayWrite(t, step) {
      if Written(t, MovementsOf(t, step)).Some? {
        MovementsAreUnforced(t, step);
        WrittenKeepsSound(t, MovementsOf(t, step), w);
      }
    } else if step.Place? {
      MovementOfAPlacement(t, step, w);
    } else if step.GiveBack? {
      MovementOfAReturn(t, step, w);
    }
  }

  lemma MovementOfAPlacement(t: Tables, step: Step, w: nat)
    requires step.Place? && w < |t.wallets|
    ensures var u := Perform(t, step);
            && |u.wallets| == |t.wallets| && NoWorse(t.wallets[w].Available(), u.wallets[w].Available())
            && (Sound(t.wallets[w]) ==> Sound(u.wallets[w])) && (Ranged(t.wallets[w]) ==> Ranged(u.wallets[w]))
  {
    if Answer(t, step).Some? {
      MovementKeepsSound(Plain(step.wallet, Withdraw, step.amount, false, false).(setAside := true),
        t.wallets[step.wallet]);
    }
  }

  lemma MovementOfAReturn(t: Tables, step: Step, w: nat)
    requires step.GiveBack? && w < |t.wallets|
    requires forall k | 0 <= k < |t.holds| :: t.holds[k].amount >= 0
    ensures var u := Perform(t, step);
            && |u.wallets| == |t.wallets| && NoWorse(t.wallets[w].Available(), u.wallets[w].Available())
            && (Sound(t.wallets[w]) ==> Sound(u.wallets[w])) && (Ranged(t.wallets[w]) ==> Ranged(u.wallets[w]))
  {
    if Answer(t, step).Some? {
      var h := t.holds[step.hold];
      MovementKeepsSound(Plain(h.wallet, Withdraw, h.amount, false, false).(takeBack := true), t.wallets[h.wallet]);
    }
  }

  predicate GentleAt(steps: seq<Step>, k: nat)
    requires k < |steps|
  {
    Gentle(Run(EMPTY, steps[..k]), steps[k])
  }

  predicate GentleRun(steps: seq<Step>) {
    forall k {:trigger GentleAt(steps, k)} | 0 <= k < |steps| :: GentleAt(steps, k)
  }

  /** In every run that forces nothing, no wallet spends what it does not have, nor what is set aside
      on it: its balance stays between its credit line and the largest amount there is. */
  lemma {:induction false} NoWalletGoesUnder(steps: seq<Step>)
    requires GentleRun(steps)
    ensures AllSound(Run(EMPTY, steps).wallets)
  {
    if steps != [] {
      var n := |steps| - 1;
      GentlePrefix(steps);
      NoWalletGoesUnder(steps[..n]);
      HeldIsTheOpenHolds(steps[..n]);
      assert GentleAt(steps, n);
      StepKeepsAllSound(Run(EMPTY, steps[..n]), steps[n]);
    }
  }

  lemma GentlePrefix(steps: seq<Step>)
    requires GentleRun(steps) && steps != []
    ensures GentleRun(steps[..|steps| - 1])
  {
    var head := steps[..|steps| - 1];
    forall k | 0 <= k < |head| ensures GentleAt(head, k) {
      assert GentleAt(steps, k) && head[..k] == steps[..k];
    }
  }

  lemma StepKeepsAllSound(t: Tables, step: Step)
    requires Gentle(t, step) && AllSound(t.wallets) && HeldAddsUp(t)
    ensures AllSound(Perform(t, step).wallets)
  {
    var u := Perform(t, step);
    OnlyOpeningAdds(t, step);
    forall w | 0 <= w < |u.wallets| ensures Sound(u.wallets[w]) {
      if w < |t.wallets| {
        StepKeepsTheFloor(t, step, w);
      }
    }
  }

  /** In every run that forces nothing, whatever its credit lines do, every balance stays in the range
      of the column, and so it would if all that is set aside were captured. */
  lemma {:induction false} NoBalanceLeavesTheRange(steps: seq<Step>)
    requires forall k | 0 <= k < |steps| :: ForcesNothing(steps[k])
    ensures forall w | 0 <= w < |Run(EMPTY, steps).wallets| :: Ranged(Run(EMPTY, steps).wallets[w])
  {
    if steps != [] {
      var n := |steps| - 1;
      var t, u := Run(EMPTY, steps[..n]), Run(EMPTY, steps);
      NoBalanceLeavesTheRange(steps[..n]);
      HeldIsTheOpenHolds(steps[..n]);
      OnlyOpeningAdds(t, steps[n]);
      forall w | 0 <= w < |u.wallets| ensures Ranged(u.wallets[w]) {
        if w < |t.wallets| {
          StepKeepsTheFloor(t, steps[n], w);
        }
      }
    }
  }

  // ---------------------------------------------------------------- the credit line

  /** Lowering a credit line asks that the balance stay within it, and does not look at what is set
      aside: the wallet still covers its holds exactly when the new line is no lower than what the
      holds take beyond the balance. */
  lemma LoweringCreditKeepsTheFloor(t: Tables, wallet: nat, limit: Quantity)
    ensures var step, u := SetCredit(wallet, limit), Perform(t, SetCredit(wallet, limit));
            && (Answer(t, step).Some? <==> wallet < |t.wallets| && t.wallets[wallet].balance + limit >= 0)
            && (Answer(t, step).Some? ==>
                  && u == t.(wallets := t.wallets[wallet := t.wallets[wallet].(creditLimit := limit)])
                  && (u.wallets[wallet].Available() >= 0 <==>
                     limit >= t.wallets[wallet].held - t.wallets[wallet].balance))
  {
  }

  /** And where it does not, capturing what was set aside takes the balance below the credit line:
      exactly the captures of more than the balance and the line together. */
  lemma CaptureUnderALoweredCredit(w: Wallet, limit: Quantity, capture: Movement)
    requires w.Servable() && w.Available() >= 0 && w.balance >= 0 - limit
    requires capture.amount >= 0 && capture.release >= 0 && capture.amount + capture.release <= w.held
    requires capture == Taking(capture.wallet, capture.amount, capture.release)
    ensures var lowered := w.(creditLimit := limit);
            && Guard(capture, lowered)
            && (Moved(capture, lowered).balance >= 0 - limit <==> capture.amount <= w.balance + limit)
  {
  }

  /** Ten set aside on a line of ten, the line taken to nothing, the ten captured. */
  lemma CreditLoweredUnderAHold() returns (w: Wallet, capture: Movement)
    ensures Sound(w) && w.held == 10 && Guard(capture, w.(creditLimit := 0))
    ensures w.balance >= 0 && Moved(capture, w.(creditLimit := 0)).balance == -10
  {
    w := Wallet(0, 0, 10, 10, 0, false, false);
    capture := Plain(0, Withdraw, 10, false, false).(fromHold := true);
  }

  /** The held column has no ceiling of its own: two holds the floor allows can pass the range. */
  lemma HoldsPassTheRange() returns (w: Wallet, place: Movement)
    ensures Sound(w) && Fits(w.held) && place.setAside && Guard(place, w) && !Fits(Moved(place, w).held)
  {
    w := Wallet(0, MAX, MAX, MAX, 0, false, false);
    place := Placing(0, MAX);
  }

  /** The column has room for all the wallet may still set aside. */
  predicate Roomy(w: Wallet) {
    w.balance + w.creditLimit <= MAX
  }

  /** Every placement a wallet lets pass stays within the range exactly when its balance and its credit
      line do together, or nothing is set aside yet. */
  lemma HeldInRange(w: Wallet, wallet: nat)
    requires w.Servable() && 0 <= w.held <= MAX
    ensures (forall amount: Quantity | Guard(Placing(wallet, amount), w) ::
            Fits(Moved(Placing(wallet, amount), w).held))
            <==> Roomy(w) || w.held == 0
  {
    if !Roomy(w) && w.held > 0 {
      assert Guard(Placing(wallet, MAX - w.held + 1), w);
    }
  }

  function Placing(wallet: nat, amount: Quantity): Movement {
    Plain(wallet, Withdraw, amount, false, false).(setAside := true)
  }

  /** A step raises a held column only to what the wallet has. */
  lemma StepRaisesHeld(t: Tables, step: Step, w: nat)
    requires w < |t.wallets| && forall k | 0 <= k < |t.holds| :: t.holds[k].amount >= 0
    ensures var before, u := t.wallets[w], Perform(t, step);
            w < |u.wallets|
              && (u.wallets[w].held <= before.held || u.wallets[w].held <= before.balance + before.creditLimit)
  {
    StepMovesHeld(t, step, w);
    if Writes(step) {
      if MayWrite(t, step) && Written(t, MovementsOf(t, step)).Some? {
        WrittenHeld(t, MovementsOf(t, step), w);
        HeldByAStep(t, step, w);
      }
    }
  }

  predicate RoomyAt(steps: seq<Step>, k: nat, w: nat)
    requires k <= |steps|
  {
    var t := Run(EMPTY, steps[..k]);
    w < |t.wallets| ==> Roomy(t.wallets[w])
  }

  predicate AlwaysRoomy(steps: seq<Step>, w: nat) {
    forall k {:trigger RoomyAt(steps, k, w)} | 0 <= k < |steps| :: RoomyAt(steps, k, w)
  }

  lemma RoomyPrefix(steps: seq<Step>, w: nat)
    requires AlwaysRoomy(steps, w) && steps != []
    ensures AlwaysRoomy(steps[..|steps| - 1], w)
  {
    var head := steps[..|steps| - 1];
    forall k | 0 <= k < |head| ensures RoomyAt(head, k, w) {
      assert RoomyAt(steps, k, w) && head[..k] == steps[..k];
    }
  }

  lemma StepKeepsHeldInRange(t: Tables, step: Step, w: nat)
    requires HeldAddsUp(t) && w < |Perform(t, step).wallets|
    requires w < |t.wallets| ==> Roomy(t.wallets[w]) && t.wallets[w].held <= MAX
    ensures Perform(t, step).wallets[w].held <= MAX
  {
    OnlyOpeningAdds(t, step);
    if w < |t.wallets| {
      StepRaisesHeld(t, step, w);
    }
  }

  /** In every run, forced or not, a wallet whose balance and credit line stay within the range together
      sets aside no more than the range. */
  lemma {:induction false} HeldStaysInRange(steps: seq<Step>, w: nat)
    requires AlwaysRoomy(steps, w) && w < |Run(EMPTY, steps).wallets|
    ensures Run(EMPTY, steps).wallets[w].held <= MAX
  {
    if steps != [] {
      var n := |steps| - 1;
      RoomyPrefix(steps, w);
      assert RoomyAt(steps, n, w);
      HeldIsTheOpenHolds(steps[..n]);
      if w < |Run(EMPTY, steps[..n]).wallets| {
        HeldStaysInRange(steps[..n], w);
      }
      StepKeepsHeldInRange(Run(EMPTY, steps[..n]), steps[n], w);
    }
  }

  // ---------------------------------------------------------------- conservation

  /** How a transaction that passes moves the total of all balances. */
  function Net(t: Tables, step: Step): int {
    if Answer(t, step).None? || !Writes(step) then 0 else Total(Effects(PlacedFrom(MovementsOf(t, step))))
  }

  lemma StepMovesTheTotal(t: Tables, step: Step)
    ensures Total(Balances(Perform(t, step).wallets)) == Total(Balances(t.wallets)) + Net(t, step)
  {
    if Answer(t, step).Some? {
      if Writes(step) {
        WrittenMovesTheTotal(t, MovementsOf(t, step));
      } else if step.Open? {
        OpeningMovesNothing(t.wallets, step.unit);
      } else {
        BalancesAreKept(t, step);
      }
    }
  }

  lemma WrittenMovesTheTotal(t: Tables, movements: seq<Movement>)
    requires Written(t, movements).Some?
    ensures Total(Balances(Written(t, movements).value.wallets))
            == Total(Balances(t.wallets)) + Total(Effects(PlacedFrom(movements)))
  {
    LockOrderChangesNothing(t.wallets, t.operations, PlacedFrom(movements));
    NetOnAll(t.wallets, t.operations, PlacedFrom(movements));
  }

  lemma OpeningMovesNothing(wallets: seq<Wallet>, unit: nat)
    ensures Total(Balances(wallets + [Wallet(unit, 0, 0, 0, 0, false, false)])) == Total(Balances(wallets))
  {
    assert Balances(wallets + [Wallet(unit, 0, 0, 0, 0, false, false)]) == Balances(wallets) + [0];
    TotalOfOneMore(Balances(wallets), 0);
  }

  lemma BalancesAreKept(t: Tables, step: Step)
    requires !Writes(step) && !step.Open?
    ensures Balances(Perform(t, step).wallets) == Balances(t.wallets)
  {
  }

  /** A transaction that takes from one wallet what it gives another, or moves nothing. */
  predicate Balanced(step: Step) {
    match step
    case Post(legs) => Total(Effects(PlacedFrom(Movements(legs)))) == 0
    case Capture(_, _, to) => to.Some?
    case _ => true
  }

  /** Capturing between wallets gives what it takes, and out of the system takes what it captures. */
  lemma CaptureMoves(t: Tables, hold: nat, amount: Quantity, to: Option<nat>)
    requires MayCapture(t, hold, amount, to)
    ensures Total(Effects(PlacedFrom(CaptureMovements(t.holds[hold], amount, to)))) == if to.Some? then 0
            else 0 - amount
  {
    var effects := Effects(PlacedFrom(CaptureMovements(t.holds[hold], amount, to)));
    TotalOfOneMore([], 0 - amount);
    TotalOfOneMore([] + [0 - amount], amount);
    assert effects == [] + [0 - amount] + if to.Some? then [amount] else [];
  }

  lemma BalancedMovesNothing(t: Tables, step: Step)
    requires Balanced(step)
    ensures Net(t, step) == 0
  {
    if Writes(step) && MayWrite(t, step) {
      match step
      case Post(_) =>
      case Capture(hold, amount, to) => CaptureMoves(t, hold, amount, to);
      case Adjust(_, _, _, _) => TotalOfZeros(Effects(PlacedFrom(MovementsOf(t, step))));
    }
  }

  /** Over every run of transfers and captures between wallets, and of holds, repairs, freezes and
      limits, from any state: the total of all balances is what it was. */
  lemma {:induction false} TheTotalIsConserved(t: Tables, steps: seq<Step>)
    requires forall k | 0 <= k < |steps| :: Balanced(steps[k])
    ensures Total(Balances(Run(t, steps).wallets)) == Total(Balances(t.wallets))
  {
    if steps != [] {
      var n := |steps| - 1;
      TheTotalIsConserved(t, steps[..n]);
      StepMovesTheTotal(Run(t, steps[..n]), steps[n]);
      BalancedMovesNothing(Run(t, steps[..n]), steps[n]);
    }
  }
}
