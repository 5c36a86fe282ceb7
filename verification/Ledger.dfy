/** The transactions of the ledger and of the holds, and what every run of them keeps
    (commit.go, hold.go, wallet.go, reconcile.go). Each transaction is one guarded step; what a call
    read before it is an argument of the step, as stale as it likes. */
module Ledger {
  import opened Int64
  import opened Outcome
  import opened Sums
  import opened Amounts
  import opened Tables
  import opened Apply

  /** What a request may move: an amount as it was parsed. */
  type Quantity = x: int | 0 <= x <= MAX

  datatype Leg = Leg(wallet: nat, kind: EntryKind, amount: Quantity, pending: bool, force: bool)

  datatype Step =
    | Open(unit: nat)
    | Post(legs: seq<Leg>)
    | Place(wallet: nat, amount: Quantity)
    | Capture(hold: nat, amount: Quantity, to: Option<nat>)
    | GiveBack(hold: nat, outcome: HoldStatus)
    | Freeze(wallet: nat)
    | Adjust(wallet: nat, seenBalance: int, seenSequence: int, settled: int)
    | SetCredit(wallet: nat, limit: Quantity)
    | SetClosed(wallet: nat, closing: bool)

  // ---------------------------------------------------------------- what each transaction does

  function Movements(legs: seq<Leg>): seq<Movement> {
    seq(|legs|, k requires 0 <= k < |legs| =>
      Plain(legs[k].wallet, legs[k].kind, legs[k].amount, legs[k].pending, legs[k].force))
  }

  /** The unique index on a wallet and a position in its ledger refuses a row. */
  predicate Collides(entries: seq<Entry>, more: seq<Entry>) {
    exists j, k {:trigger SamePlace(entries[j], more[k])} | 0 <= j < |entries| && 0 <= k < |more| ::
      SamePlace(entries[j], more[k])
  }

  predicate SamePlace(e: Entry, f: Entry) {
    e.wallet == f.wallet && e.sequence == f.sequence
  }

  /** An operation and its movements, all or nothing. */
  function Written(t: Tables, movements: seq<Movement>): Option<Tables> {
    var a := ApplyAll(t.wallets, t.operations, InLockOrder(PlacedFrom(movements)));
    if a.None? || Collides(t.entries, a.value.entries) then None
    else Some(Tables(a.value.wallets, t.entries + a.value.entries, t.holds, t.operations + 1))
  }

  /** One update of a wallet's row that writes nothing in the ledger. */
  function Updated(t: Tables, m: Movement): Option<Tables> {
    if m.wallet >= |t.wallets| || !Guard(m, t.wallets[m.wallet]) then None
    else Some(t.(wallets := t.wallets[m.wallet := Moved(m, t.wallets[m.wallet])]))
  }

  function CaptureMovements(h: Hold, amount: int, to: Option<nat>): seq<Movement> {
    [Plain(h.wallet, Withdraw, amount, false, false).(fromHold := true, release := h.amount - amount)]
    + if to.Some? then [Plain(to.value, Deposit, amount, false, false)] else []
  }

  /** What a capture asks before its transaction: of rows that do not change. */
  predicate MayCapture(t: Tables, hold: nat, amount: int, to: Option<nat>) {
    && hold < |t.holds| && t.holds[hold].wallet < |t.wallets| && 1 <= amount <= t.holds[hold].amount
    && (to.Some? ==> to.value < |t.wallets| && to.value != t.holds[hold].wallet
                     && t.wallets[to.value].unit == t.wallets[t.holds[hold].wallet].unit)
  }

  /** The movement that closes a difference, in the direction and of the size of it. */
  function AdjustMovement(wallet: nat, seenBalance: int, seenSequence: int, difference: int): Movement {
    Plain(wallet, if difference < 0 then Withdraw else Deposit, if difference < 0 then -difference else difference,
      false, false)
      .(adjust := true, seenBalance := seenBalance, seenSequence := seenSequence)
  }

  /** The transactions that write in the ledger; the others update one wallet's row, or add one. */
  predicate Writes(step: Step) {
    step.Post? || step.Capture? || step.Adjust?
  }

  /** What such a transaction asks besides the guards of its movements. */
  predicate MayWrite(t: Tables, step: Step)
    requires Writes(step)
  {
    match step
    case Post(_) => true
    case Capture(hold, amount, to) => MayCapture(t, hold, amount, to) && t.holds[hold].status == Held
    case Adjust(_, seenBalance, _, settled) => Wrap(seenBalance - settled) != 0 && Wrap(seenBalance - settled) != MIN
  }

  function MovementsOf(t: Tables, step: Step): seq<Movement>
    requires Writes(step) && MayWrite(t, step)
  {
    match step
    case Post(legs) => Movements(legs)
    case Capture(hold, amount, to) => CaptureMovements(t.holds[hold], amount, to)
    case Adjust(wallet, seenBalance, seenSequence, settled) =>
      [AdjustMovement(wallet, seenBalance, seenSequence, Wrap(seenBalance - settled))]
  }

  /** A captured hold is marked under the operation that takes its money. */
  function HoldsAfter(t: Tables, step: Step): seq<Hold>
    requires Writes(step) && MayWrite(t, step)
  {
    match step
    case Capture(hold, amount, _) =>
      t.holds[hold := t.holds[hold].(status := Captured, operation := Some(t.operations), captured := amount)]
    case _ => t.holds
  }

  /** What a transaction leaves, and nothing where it is refused and rolled back. */
  function Answer(t: Tables, step: Step): Option<Tables> {
    if Writes(step) then
      if !MayWrite(t, step) then None
      else
        var w := Written(t, MovementsOf(t, step));
        if w.None? then None else Some(w.value.(holds := HoldsAfter(t, step)))
    else
      match step
      case Open(unit) => Some(t.(wallets := t.wallets + [Wallet(unit, 0, 0, 0, 0, false, false)]))
      case Place(wallet, amount) =>
        var u := Updated(t, Plain(wallet, Withdraw, amount, false, false).(setAside := true));
        if amount == 0 || u.None? then None
        else Some(u.value.(holds := t.holds + [Hold(wallet, amount, Held, None, 0)]))
      case GiveBack(hold, to) =>
        if hold >= |t.holds| || t.holds[hold].status != Held || (to != Released && to != Expired) then None
        else
          var h := t.holds[hold];
          var u := Updated(t, Plain(h.wallet, Withdraw, h.amount, false, false).(takeBack := true));
          if u.None? then None else Some(u.value.(holds := t.holds[hold := h.(status := to)]))
      case Freeze(wallet) =>
        if wallet >= |t.wallets| then None
          else Some(t.(wallets := t.wallets[wallet := t.wallets[wallet].(frozen := true)]))
      case SetCredit(wallet, limit) =>
        if wallet >= |t.wallets| || t.wallets[wallet].balance < 0 - limit then None
        else Some(t.(wallets := t.wallets[wallet := t.wallets[wallet].(creditLimit := limit)]))
      case SetClosed(wallet, closing) =>
        if wallet >= |t.wallets| || t.wallets[wallet].closed == closing || (closing && t.wallets[wallet].balance != 0)
          then None
        else Some(t.(wallets := t.wallets[wallet := t.wallets[wallet].(closed := closing)]))
  }

  lemma AdjustmentWrites(t: Tables, wallet: nat, seen: Wallet, settled: int)
    requires Wrap(seen.balance - settled) !in {0, MIN}
    ensures Answer(t, Adjust(wallet, seen.balance, seen.lastSequence, settled)) ==
            Written(t, [AdjustMovement(wallet, seen.balance, seen.lastSequence, Wrap(seen.balance - settled))])
  {
  }

  lemma NothingToAdjust(t: Tables, wallet: nat, seen: Wallet, settled: int)
    requires Wrap(seen.balance - settled) in {0, MIN}
    ensures Answer(t, Adjust(wallet, seen.balance, seen.lastSequence, settled)).None?
  {
  }

  lemma PostWrites(t: Tables, legs: seq<Leg>)
    ensures Answer(t, Post(legs)) == Written(t, Movements(legs))
  {
  }

  /** A refused transaction leaves everything as it was. */
  function Perform(t: Tables, step: Step): Tables {
    var a := Answer(t, step);
    if a.None? then t else a.value
  }

  /** Every interleaving of concurrent calls is the transactions in some order. */
  function Run(t: Tables, steps: seq<Step>): Tables {
    if steps == [] then t else Perform(Run(t, steps[..|steps| - 1]), steps[|steps| - 1])
  }

  // ---------------------------------------------------------------- the rows themselves

  class LedgerRows {
    var wallets: seq<Wallet>
    var entries: seq<Entry>
    var holds: seq<Hold>
    var operations: nat

    function View(): Tables
      reads this
    {
      Tables(wallets, entries, holds, operations)
    }

    constructor ()
      ensures View() == Tables([], [], [], 0)
    {
      wallets, entries, holds, operations := [], [], [], 0;
    }

    /** move: one guarded update, and the entry it produced. */
    method Move(operation: nat, p: Placed) returns (entry: Option<Entry>)
      modifies this`wallets
      ensures entry.None? <==> MoveOne(Applied(old(wallets), []), operation, p).None?
      ensures entry.None? ==> wallets == old(wallets)
      ensures entry.Some? ==> Applied(wallets, [entry.value]) == MoveOne(Applied(old(wallets), []), operation, p).value
    {
      var m := p.movement;
      if m.wallet >= |wallets| || !Guard(m, wallets[m.wallet]) {
        return None;
      }
      wallets := wallets[m.wallet := Moved(m, wallets[m.wallet])];
      entry := Some(EntryOf(m, wallets[m.wallet], operation, p.position));
    }

    /** apply: the wallets in the order of their identifiers, the entries in the order of the request,
        the rows appended together; a movement that is refused leaves the caller to roll back. */
    method Apply(operation: nat, movements: seq<Movement>) returns (receipt: Option<seq<Entry>>)
      modifies this`wallets, this`entries
      ensures var a := ApplyAll(old(wallets), operation, InLockOrder(PlacedFrom(movements)));
              && (receipt.Some? <==> a.Some? && !Collides(old(entries), a.value.entries))
              && (receipt.Some? ==> wallets == a.value.wallets && entries == old(entries) + a.value.entries)
      ensures receipt.Some? ==> |receipt.value| == |movements|
      ensures receipt.Some? ==> forall k | 0 <= k < |movements| ::
                RecordedAs(receipt.value[k], operation, Placed(k, movements[k])) && receipt.value[k] in entries
    {
      var order := InLockOrder(PlacedFrom(movements));
      LockOrderIsOrdered(PlacedFrom(movements));
      PositionsDiffer(movements, order);
      ghost var was := wallets;
      var rows, out := MoveAll(operation, order, |movements|);
      if rows.None? || CollidesWith(entries, rows.value) {
        return None;
      }
      entries := entries + rows.value;
      receipt := Some(out);
      InRequestOrder(was, operation, movements, Applied(wallets, rows.value), out);
    }

    /** The movements one after another, each entry put at the place of its movement in the request. */
    method MoveAll(operation: nat, order: seq<Placed>, size: nat)
        returns (rows: Option<seq<Entry>>, receipt: seq<Entry>)
      requires forall i | 0 <= i < |order| :: order[i].position < size
      requires forall i, j | 0 <= i < j < |order| :: order[i].position != order[j].position
      modifies this`wallets
      ensures rows.Some? <==> ApplyAll(old(wallets), operation, order).Some?
      ensures rows.Some? ==> ApplyAll(old(wallets), operation, order) == Some(Applied(wallets, rows.value))
      ensures rows.Some? ==> |receipt| == size && |rows.value| == |order| && InPlace(receipt, order, rows.value)
    {
      var out := new Entry[size](_ => Entry(0, 0, Deposit, 0, 0, 0, 0, false));
      var written: seq<Entry> := [];
      for i := 0 to |order|
        invariant ApplyAll(old(wallets), operation, order[..i]) == Some(Applied(wallets, written)) && |written| == i
        invariant InPlace(out[..], order, written)
      {
        ApplyNext(old(wallets), operation, order, i, Applied(wallets, written));
        var entry := Move(operation, order[i]);
        if entry.None? {
          return None, [];
        }
        PutInPlace(out[..], order, written, entry.value);
        out[order[i].position] := entry.value;
        written := written + [entry.value];
      }
      assert order[..|order|] == order;
      rows, receipt := Some(written), out[..];
    }

    /** attempt: the operation and its movements in one transaction. */
    method Write(movements: seq<Movement>) returns (done: bool)
      modifies this
      ensures done <==> Written(old(View()), movements).Some?
      ensures View() == if done then Written(old(View()), movements).value else old(View())
    {
      var walletsBefore, entriesBefore := wallets, entries;
      var receipt := Apply(operations, movements);
      if receipt.None? {
        wallets, entries := walletsBefore, entriesBefore;
        return false;
      }
      operations := operations + 1;
      done := true;
    }

    method Post(legs: seq<Leg>) returns (done: bool)
      modifies this
      ensures View() == Perform(old(View()), Step.Post(legs)) && (done <==> Answer(old(View()), Step.Post(legs)).Some?)
    {
      PostWrites(View(), legs);
      done := Write(Movements(legs));
    }

    /** Hold: the held column rises under a withdrawal's floor, and the hold is recorded with it. */
    method PlaceHold(wallet: nat, amount: Quantity) returns (hold: Option<nat>)
      modifies this
      ensures View() == Perform(old(View()), Place(wallet, amount))
      ensures hold.Some? <==> Answer(old(View()), Place(wallet, amount)).Some?
      ensures hold.Some? ==> hold.value == old(|holds|)
    {
      if amount == 0 {
        return None;
      }
      var m := Plain(wallet, Withdraw, amount, false, false).(setAside := true);
      if wallet >= |wallets| || !Guard(m, wallets[wallet]) {
        return None;
      }
      wallets := wallets[wallet := Moved(m, wallets[wallet])];
      holds := holds + [Hold(wallet, amount, Held, None, 0)];
      hold := Some(|holds| - 1);
    }

    /** Capture: the hold is marked under the operation that takes its money, in one transaction. */
    method CaptureHold(hold: nat, amount: Quantity, to: Option<nat>) returns (done: bool)
      modifies this
      ensures View() == Perform(old(View()), Capture(hold, amount, to))
      ensures done <==> Answer(old(View()), Capture(hold, amount, to)).Some?
    {
      if !MayCapture(View(), hold, amount, to) {
        return false;
      }
      if holds[hold].status != Held {
        return false;
      }
      var was, operation := holds, operations;
      holds := holds[hold := holds[hold].(status := Captured, operation := Some(operation), captured := amount)];
      done := Write(CaptureMovements(was[hold], amount, to));
      if !done {
        holds := was;
      }
    }

    /** giveBack: a hold settles without its money being taken. */
    method GiveBackHold(hold: nat, to: HoldStatus) returns (done: bool)
      modifies this
      ensures View() == Perform(old(View()), GiveBack(hold, to))
      ensures done <==> Answer(old(View()), GiveBack(hold, to)).Some?
      ensures done ==> holds == old(holds)[hold := old(holds)[hold].(status := to)] && entries == old(entries)
    {
      if hold >= |holds| || holds[hold].status != Held || (to != Released && to != Expired) {
        return false;
      }
      var h := holds[hold];
      var m := Plain(h.wallet, Withdraw, h.amount, false, false).(takeBack := true);
      if h.wallet >= |wallets| || !Guard(m, wallets[h.wallet]) {
        return false;
      }
      holds := holds[hold := h.(status := to)];
      wallets := wallets[h.wallet := Moved(m, wallets[h.wallet])];
      done := true;
    }

    /** One hold given back, by this call or by another before it. */
    method ExpireOne(hold: nat) returns (given: bool)
      modifies this
      ensures View() == Perform(old(View()), GiveBack(hold, Expired)) && (given <==> GivenBack(View(), hold))
      ensures !given ==> View() == old(View()) && Answer(View(), GiveBack(hold, Expired)).None?
    {
      var done := GiveBackHold(hold, Expired);
      given := done || (hold < |holds| && (holds[hold].status == Released || holds[hold].status == Expired));
    }

    /** ReleaseExpired: gives back one hold after another of those a query found, as stale as it likes,
        and stops at one that cannot be. One somebody else gave back meanwhile is counted. */
    method ReleaseExpired(expired: seq<nat>) returns (n: nat)
      modifies this
      ensures n <= |expired| && ExpiredSoFar(old(View()), expired[..n], View())
      ensures n < |expired| ==> !GivenBack(View(), expired[n]) && Answer(View(), GiveBack(expired[n], Expired)).None?
    {
      n := 0;
      while n < |expired|
        invariant n <= |expired| && ExpiredSoFar(old(View()), expired[..n], View())
      {
        ghost var before := View();
        var given := ExpireOne(expired[n]);
        if !given {
          return;
        }
        ExpiredOneMore(old(View()), expired[..n], expired[n], before);
        assert expired[..n + 1] == expired[..n] + [expired[n]];
        n := n + 1;
      }
    }

    /** walk: the settled movements of a wallet up to the position it held when it was read; those that
        wait are added up beside them, and neither sum may leave the range. */
    method Walk(wallet: nat, seen: Wallet) returns (r: Result<int>)
      requires forall k | 0 <= k < |entries| :: 0 <= entries[k].amount <= MAX
      ensures r.Ok? ==> r.value == Measured(entries, wallet, seen.lastSequence) && Fits(r.value)
      ensures r.Err? ==> r.error == AmountOverflow
      ensures r.Ok? <==> AddsUpInRange(entries, wallet, seen.lastSequence)
    {
      var settled, proposed, es, last := 0, 0, entries, seen.lastSequence;
      ghost var counted, waiting := MeasuredRows(es, wallet, last), ProposedRows(es, wallet, last);
      for k := 0 to |es|
        invariant settled == Total(counted[..k]) && Fits(settled)
        invariant proposed == Total(waiting[..k]) && Fits(proposed)
        invariant forall j | 0 <= j <= k :: !LeavesTheRange(es, wallet, last, j)
      {
        TotalOfPrefix(counted, k);
        TotalOfPrefix(waiting, k);
        var e := es[k];
        if e.wallet == wallet && 0 < e.sequence <= last {
          var sum := if e.settled then Add(settled, e.Signed())
            else Add(proposed, if e.kind == Withdraw then -e.amount else e.amount);
          if sum.Err? {
            assert LeavesTheRange(es, wallet, last, k + 1);
            return Err(AmountOverflow);
          }
          if e.settled {
            settled := sum.value;
          } else {
            proposed := sum.value;
          }
        }
      }
      assert counted[..|es|] == counted;
      r := Ok(settled);
    }

    /** Reconcile: a wallet whose ledger does not add up to its balance is no longer served; refused
        exactly where there is no such wallet or its ledger cannot be added up. */
    method Reconcile(wallet: nat) returns (r: Result<int>)
      requires forall k | 0 <= k < |entries| :: 0 <= entries[k].amount <= MAX
      modifies this`wallets
      ensures r.Ok? <==> wallet < |old(wallets)| && AddsUpInRange(entries, wallet, old(wallets)[wallet].lastSequence)
      ensures r.Ok? ==>
              r.value == Wrap(old(wallets)[wallet].balance
                - Measured(entries, wallet, old(wallets)[wallet].lastSequence))
      ensures r.Err? ==> r.error == if wallet >= |old(wallets)| then NotFound else AmountOverflow
      ensures View() == if r.Ok? && r.value != 0 then Perform(old(View()), Step.Freeze(wallet)) else old(View())
      ensures wallets == if r.Ok? && r.value != 0 then old(wallets)[wallet := old(wallets)[wallet].(frozen := true)]
                         else old(wallets)
    {
      if wallet >= |wallets| {
        return Err(NotFound);
      }
      var seen := wallets[wallet];
      var walked := Walk(wallet, seen);
      if walked.Err? {
        return Err(walked.error);
      }
      var difference := Wrap(seen.balance - walked.value);
      if difference != 0 {
        wallets := wallets[wallet := wallets[wallet].(frozen := true)];
      }
      r := Ok(difference);
    }

    /** Rebuild: seen is the wallet as the call read it, measured and closed by the entry it lacks. */
    method Rebuild(wallet: nat, seen: Wallet) returns (refused: Option<Error>)
      requires forall k | 0 <= k < |entries| :: 0 <= entries[k].amount <= MAX
      modifies this
      ensures refused == RebuildRefuses(old(View()), wallet, seen)
      ensures View() == if refused.None? then Perform(old(View()), Repair(old(entries), wallet, seen)) else old(View())
    {
      if !seen.frozen {
        return Some(WalletNotFrozen);
      }
      var walked := Walk(wallet, seen);
      if walked.Err? {
        return Some(walked.error);
      }
      var difference := Wrap(seen.balance - walked.value);
      if difference == 0 {
        return Some(LedgerBalanced);
      }
      refused := CloseDifference(wallet, seen, walked.value, difference);
    }

    /** The entry that closes a difference, in its direction and of its size; a difference that has no
        size in range is refused. */
    method CloseDifference(wallet: nat, seen: Wallet, settled: int, difference: int) returns (refused: Option<Error>)
      requires difference == Wrap(seen.balance - settled) && difference != 0
      modifies this
      ensures var step := Adjust(wallet, seen.balance, seen.lastSequence, settled);
              && View() == Perform(old(View()), step)
              && refused == if difference == MIN then Some(AmountOverflow)
                            else if Answer(old(View()), step).None? then Some(Refused) else None
    {
      var kind, amount := Deposit, difference;
      if difference < 0 {
        kind := Withdraw;
        var negated := Sub(0, difference);
        if negated.Err? {
          NothingToAdjust(View(), wallet, seen, settled);
          return Some(negated.error);
        }
        amount := negated.value;
      }
      AdjustmentWrites(View(), wallet, seen, settled);
      var movement := Plain(wallet, kind, amount, false, false)
        .(adjust := true, seenBalance := seen.balance, seenSequence := seen.lastSequence);
      assert movement == AdjustMovement(wallet, seen.balance, seen.lastSequence, difference);
      var done := Write([movement]);
      refused := if done then None else Some(Refused);
    }

    /** SetCredit: refused where the balance is already further below zero than the new limit. */
    method SetCreditLimit(wallet: nat, limit: Quantity) returns (done: bool)
      modifies this`wallets
      ensures View() == Perform(old(View()), SetCredit(wallet, limit))
              && (done <==> Answer(old(View()), SetCredit(wallet, limit)).Some?)
    {
      if wallet >= |wallets| || wallets[wallet].balance < 0 - limit {
        return false;
      }
      wallets := wallets[wallet := wallets[wallet].(creditLimit := limit)];
      done := true;
    }

    /** Close and Reopen: the state being left is part of the predicate, and closing asks for nothing left. */
    method SetClosedFlag(wallet: nat, closing: bool) returns (done: bool)
      modifies this`wallets
      ensures View() == Perform(old(View()), SetClosed(wallet, closing))
      ensures done <==> Answer(old(View()), SetClosed(wallet, closing)).Some?
      ensures wallets == if done then old(wallets)[wallet := old(wallets)[wallet].(closed := closing)]
                         else old(wallets)
    {
      if wallet >= |wallets| || wallets[wallet].closed == closing || (closing && wallets[wallet].balance != 0) {
        return false;
      }
      wallets := wallets[wallet := wallets[wallet].(closed := closing)];
      done := true;
    }
  }

  // ---------------------------------------------------------------- what a ledger adds up to

  function SignedRows(entries: seq<Entry>, w: nat): seq<int> {
    seq(|entries|, k requires 0 <= k < |entries| => if entries[k].wallet == w then entries[k].Signed() else 0)
  }

  /** What the settled entries of a wallet add up to. */
  function Settled(entries: seq<Entry>, w: nat): int {
    Total(SignedRows(entries, w))
  }

  function MeasuredRows(entries: seq<Entry>, w: nat, last: int): seq<int> {
    seq(|entries|, k requires 0 <= k < |entries| =>
      if entries[k].wallet == w && 0 < entries[k].sequence <= last then entries[k].Signed() else 0)
  }

  /** What of them waits. */
  function ProposedRows(entries: seq<Entry>, w: nat, last: int): seq<int> {
    seq(|entries|, k requires 0 <= k < |entries| =>
      if entries[k].wallet == w && 0 < entries[k].sequence <= last && !entries[k].settled then
        (if entries[k].kind == Withdraw then -entries[k].amount else entries[k].amount)
      else 0)
  }

  /** Added up to the k-th, one of the two sums does not fit. */
  predicate LeavesTheRange(entries: seq<Entry>, w: nat, last: int, k: nat)
    requires k <= |entries|
  {
    !Fits(Total(MeasuredRows(entries, w, last)[..k])) || !Fits(Total(ProposedRows(entries, w, last)[..k]))
  }

  predicate AddsUpInRange(entries: seq<Entry>, w: nat, last: int) {
    forall k | 0 <= k <= |entries| :: !LeavesTheRange(entries, w, last, k)
  }

  /** Why a repair of a wallet as it was read is refused, and None where it is made. */
  function RebuildRefuses(t: Tables, wallet: nat, seen: Wallet): Option<Error> {
    var difference := Wrap(seen.balance - Measured(t.entries, wallet, seen.lastSequence));
    if !seen.frozen then Some(WalletNotFrozen)
    else if !AddsUpInRange(t.entries, wallet, seen.lastSequence) || difference == MIN then Some(AmountOverflow)
    else if difference == 0 then Some(LedgerBalanced)
    else if Answer(t, Repair(t.entries, wallet, seen)).None? then Some(Refused)
    else None
  }

  function GiveBacks(holds: seq<nat>): seq<Step> {
    seq(|holds|, k requires 0 <= k < |holds| => GiveBack(holds[k], Expired))
  }

  predicate GivenBack(t: Tables, hold: nat) {
    hold < |t.holds| && (t.holds[hold].status == Released || t.holds[hold].status == Expired)
  }

  /** What giving back these holds, one after another, leaves: each of them given back. */
  predicate ExpiredSoFar(t: Tables, holds: seq<nat>, u: Tables) {
    && u == Run(t, GiveBacks(holds)) && (forall k | 0 <= k < |holds| :: GivenBack(u, holds[k]))
    && |u.holds| == |t.holds|
    && forall h | 0 <= h < |t.holds| ::
         u.holds[h] == if h in holds && t.holds[h].status == Held then t.holds[h].(status := Expired) else t.holds[h]
  }

  /** Giving back writes the hold it names, where it is open, and no other. */
  lemma OnlyTheHoldNamed(u: Tables, hold: nat)
    ensures var v := Perform(u, GiveBack(hold, Expired));
            && |v.holds| == |u.holds|
            && forall h | 0 <= h < |u.holds| ::
                 v.holds[h] == if h == hold && u.holds[h].status == Held && Answer(u, GiveBack(hold, Expired)).Some?
                               then u.holds[h].(status := Expired) else u.holds[h]
  {
  }

  lemma ExpiredOneMore(t: Tables, holds: seq<nat>, hold: nat, u: Tables)
    requires ExpiredSoFar(t, holds, u) && GivenBack(Perform(u, GiveBack(hold, Expired)), hold)
    ensures ExpiredSoFar(t, holds + [hold], Perform(u, GiveBack(hold, Expired)))
  {
    var steps := GiveBacks(holds + [hold]);
    assert steps[..|holds|] == GiveBacks(holds) && steps[|holds|] == GiveBack(hold, Expired);
    GivenBackForGood(u, hold, holds);
    OnlyTheHoldNamed(u, hold);
  }

  lemma GivenBackForGood(t: Tables, hold: nat, holds: seq<nat>)
    requires forall k | 0 <= k < |holds| :: GivenBack(t, holds[k])
    ensures forall k | 0 <= k < |holds| :: GivenBack(Perform(t, GiveBack(hold, Expired)), holds[k])
  {
  }

  /** The adjustment a call makes of a wallet as it read it and of the entries it then summed. */
  function Repair(entries: seq<Entry>, wallet: nat, seen: Wallet): Step {
    Adjust(wallet, seen.balance, seen.lastSequence, Measured(entries, wallet, seen.lastSequence))
  }

  /** What the ones up to a position add up to. */
  function Measured(entries: seq<Entry>, w: nat, last: int): int {
    Total(MeasuredRows(entries, w, last))
  }

  predicate CollidesWith(entries: seq<Entry>, more: seq<Entry>)
    ensures CollidesWith(entries, more) <==> Collides(entries, more)
  {
    exists j | 0 <= j < |entries| :: exists k | 0 <= k < |more| :: SamePlace(entries[j], more[k])
  }

  /** Moving one more of a queue, whatever entries the ones before it produced. */
  lemma ApplyNext(wallets: seq<Wallet>, operation: nat, queue: seq<Placed>, i: nat, a: Applied)
    requires i < |queue| && ApplyAll(wallets, operation, queue[..i]) == Some(a)
    ensures var one := MoveOne(Applied(a.wallets, []), operation, queue[i]);
            && (one.None? ==> ApplyAll(wallets, operation, queue).None?)
            && (one.Some? ==>
               ApplyAll(wallets, operation, queue[..i + 1])
                 == Some(Applied(one.value.wallets, a.entries + one.value.entries)))
  {
    assert queue[..i + 1] == queue[..i] + [queue[i]];
    ApplyOneMore(wallets, operation, queue[..i], queue[i]);
    var one := MoveOne(Applied(a.wallets, []), operation, queue[i]);
    if one.Some? {
      assert one.value.entries == [one.value.entries[0]];
    } else {
      RefusedForGood(wallets, operation, queue, i + 1);
    }
  }

  /** Every entry written so far stands at the position of its movement. */
  predicate InPlace(out: seq<Entry>, order: seq<Placed>, rows: seq<Entry>) {
    |rows| <= |order| && forall j | 0 <= j < |rows| :: order[j].position < |out| && out[order[j].position] == rows[j]
  }

  lemma PutInPlace(out: seq<Entry>, order: seq<Placed>, rows: seq<Entry>, e: Entry)
    requires InPlace(out, order, rows) && |rows| < |order| && order[|rows|].position < |out|
    requires forall i, j | 0 <= i < j < |order| :: order[i].position != order[j].position
    ensures InPlace(out[order[|rows|].position := e], order, rows + [e])
  {
  }

  /** Entries put back at the positions of their movements are the receipt of the request. */
  lemma InRequestOrder(wallets: seq<Wallet>, operation: nat, movements: seq<Movement>, a: Applied, out: seq<Entry>)
    requires var order := InLockOrder(PlacedFrom(movements));
             && ApplyAll(wallets, operation, order) == Some(a) && |out| == |movements| && |a.entries| == |order|
             && InPlace(out, order, a.entries)
    ensures forall k | 0 <= k < |movements| ::
            RecordedAs(out[k], operation, Placed(k, movements[k])) && out[k] in a.entries
  {
    var order := InLockOrder(PlacedFrom(movements));
    LockOrderIsOrdered(PlacedFrom(movements));
    EntriesOfAnOperation(wallets, operation, order);
    forall k | 0 <= k < |movements|
      ensures RecordedAs(out[k], operation, Placed(k, movements[k])) && out[k] in a.entries
    {
      var j := PlaceInTheQueue(movements, order, k);
      assert out[order[j].position] == a.entries[j];
    }
  }

  lemma {:induction false} RefusedForGood(wallets: seq<Wallet>, operation: nat, queue: seq<Placed>, n: nat)
    requires n <= |queue| && ApplyAll(wallets, operation, queue[..n]).None?
    ensures ApplyAll(wallets, operation, queue).None?
    decreases |queue| - n
  {
    if n == |queue| {
      assert queue[..n] == queue;
    } else {
      assert queue[..n + 1] == queue[..n] + [queue[n]];
      ApplyOneMore(wallets, operation, queue[..n], queue[n]);
      RefusedForGood(wallets, operation, queue, n + 1);
    }
  }

  lemma InTheQueue(movements: seq<Movement>, order: seq<Placed>, i: nat)
    requires multiset(order) == multiset(PlacedFrom(movements)) && i < |order|
    ensures order[i].position < |movements| && order[i] == Placed(order[i].position, movements[order[i].position])
  {
    assert order[i] in multiset(order);
    assert order[i] in PlacedFrom(movements);
  }

  lemma PositionsDiffer(movements: seq<Movement>, order: seq<Placed>)
    requires multiset(order) == multiset(PlacedFrom(movements))
    ensures forall i | 0 <= i < |order| :: order[i].position < |movements|
    ensures forall i, j | 0 <= i < j < |order| :: order[i].position != order[j].position
  {
    forall i | 0 <= i < |order| ensures order[i].position < |movements| {
      InTheQueue(movements, order, i);
    }
    forall i, j | 0 <= i < j < |order| ensures order[i].position != order[j].position {
      InTheQueue(movements, order, i);
      InTheQueue(movements, order, j);
      OnceInTheRequest(movements, order[i].position);
      if order[i] == order[j] {
        TwiceCountsTwice(order, i, j);
      }
    }
  }

  lemma TwiceCountsTwice(order: seq<Placed>, i: nat, j: nat)
    requires i < j < |order| && order[i] == order[j]
    ensures multiset(order)[order[i]] >= 2
  {
    assert order == order[..j] + [order[j]] + order[j + 1..];
    assert order[i] in order[..j];
  }

  lemma {:induction false} OnceInTheRequest(movements: seq<Movement>, k: nat)
    requires k < |movements|
    ensures multiset(PlacedFrom(movements))[Placed(k, movements[k])] == 1
  {
    var queue, p := PlacedFrom(movements), Placed(k, movements[k]);
    assert queue == queue[..k] + [p] + queue[k + 1..];
    assert p !in queue[..k] && p !in queue[k + 1..];
  }

  lemma PlaceInTheQueue(movements: seq<Movement>, order: seq<Placed>, k: nat) returns (j: nat)
    requires multiset(order) == multiset(PlacedFrom(movements)) && k < |movements|
    ensures j < |order| && order[j] == Placed(k, movements[k])
  {
    var p := Placed(k, movements[k]);
    assert PlacedFrom(movements)[k] == p;
    assert p in multiset(PlacedFrom(movements));
    assert p in order;
    j :| j < |order| && order[j] == p;
  }
}
