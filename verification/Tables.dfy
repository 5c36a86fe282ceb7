/** The rows the package keeps and the one statement that moves a wallet (model.go, commit.go).
    An append-only table is a sequence and an identifier is a position in it. */
module Tables {
  import opened Int64
  import opened Outcome

  datatype EntryKind = Deposit | Withdraw

  /** The currency and scale of a wallet are one unit: wallets of one unit are counted the same way. */
  datatype Wallet = Wallet(
    unit: nat, balance: int, creditLimit: int, held: int, lastSequence: int, frozen: bool, closed: bool)
  {
    predicate Servable() {
      !frozen && !closed
    }

    /** What a withdrawal may spend now. */
    function Available(): int {
      balance + creditLimit - held
    }
  }

  datatype Entry = Entry(
    operation: nat, wallet: nat, kind: EntryKind, sequence: int, position: nat, amount: int, balanceAfter: int,
      settled: bool)
  {
    function Signed(): int {
      if !settled then 0 else if kind == Withdraw then -amount else amount
    }
  }

  datatype HoldStatus = Held | Captured | Released | Expired

  datatype Hold = Hold(wallet: nat, amount: int, status: HoldStatus, operation: Option<nat>, captured: int)

  /** operations is how many there are: an operation is named by its place. */
  datatype Tables = Tables(wallets: seq<Wallet>, entries: seq<Entry>, holds: seq<Hold>, operations: nat)

  datatype Movement = Movement(
    wallet: nat, kind: EntryKind, amount: int, pending: bool, force: bool, adjust: bool, fromHold: bool, release: int,
    setAside: bool, takeBack: bool, seenBalance: int, seenSequence: int)

  /** An ordinary movement: money in or out, now or waiting. */
  function Plain(wallet: nat, kind: EntryKind, amount: int, pending: bool, force: bool): Movement {
    Movement(wallet, kind, amount, pending, force, false, false, 0, false, false, 0, 0)
  }

  // ---------------------------------------------------------------- the statement

  /** What the balance has to be at least. A forced movement lowers the floor to the range of the
      column, and no further. */
  function WithdrawalFloor(amount: int, force: bool, w: Wallet): int {
    if force then MIN + amount else amount - w.creditLimit
  }

  /** The predicate a movement's update carries, read off the row at the moment of the write. */
  predicate Guard(m: Movement, w: Wallet) {
    if m.adjust then w.frozen && !w.closed && w.balance == m.seenBalance && w.lastSequence == m.seenSequence
    else if m.pending then w.Servable()
    else if m.setAside then w.Servable() && w.balance - w.held >= WithdrawalFloor(m.amount, false, w)
    else if m.takeBack then w.held >= m.amount
    else if m.fromHold then w.Servable() && w.held >= m.amount + m.release
    else if m.kind == Withdraw then
      w.Servable() && (if m.force then w.balance else w.balance - w.held) >= WithdrawalFloor(m.amount, m.force, w)
    else w.Servable() && w.balance <= MAX - m.amount
  }

  /** What the update leaves of the row. */
  function Moved(m: Movement, w: Wallet): Wallet {
    if m.adjust then w.(lastSequence := w.lastSequence + 1, frozen := false)
    else if m.pending then w.(lastSequence := w.lastSequence + 1)
    else if m.setAside then w.(held := w.held + m.amount)
    else if m.takeBack then w.(held := w.held - m.amount)
    else if m.fromHold then
      w.(balance := w.balance - m.amount, held := w.held - (m.amount + m.release), lastSequence := w.lastSequence + 1)
    else if m.kind == Withdraw then w.(balance := w.balance - m.amount, lastSequence := w.lastSequence + 1)
    else w.(balance := w.balance + m.amount, lastSequence := w.lastSequence + 1)
  }

  /** The entry a ledger movement leaves beside the row, off what the update reported. */
  function EntryOf(m: Movement, after: Wallet, operation: nat, position: nat): Entry {
    Entry(operation, m.wallet, m.kind, after.lastSequence, position, m.amount, after.balance, !m.pending)
  }

  /** A movement that writes in the ledger. */
  predicate WritesLedger(m: Movement) {
    m.adjust || m.pending || (!m.setAside && !m.takeBack)
  }

  /** How a movement moves a balance. */
  function Effect(m: Movement): int {
    if m.adjust || m.pending || m.setAside || m.takeBack then 0
    else if m.fromHold || m.kind == Withdraw then -m.amount
    else m.amount
  }

  /** Every ledger movement but an adjustment moves the balance by exactly what its entry says; an
      adjustment's entry says an amount the balance did not move by. */
  lemma EntrySaysWhatMoved(m: Movement, w: Wallet, operation: nat, position: nat)
    requires WritesLedger(m) && Guard(m, w) && (m.fromHold ==> m.kind == Withdraw)
    ensures var after, e := Moved(m, w), EntryOf(m, Moved(m, w), operation, position);
            && after.balance == w.balance + Effect(m) == e.balanceAfter
            && after.lastSequence == w.lastSequence + 1 == e.sequence
            && (!m.adjust ==> e.Signed() == Effect(m))
            && (m.adjust ==> e.balanceAfter == w.balance && !after.frozen)
  {
  }

  /** A statement that is not forced leaves the wallet able to cover what is set aside on it, or
      better covered than it was. */
  lemma FloorAfterAStatement(m: Movement, w: Wallet)
    requires Guard(m, w) && m.amount >= 0 && m.release >= 0
    requires m.force ==> m.adjust || m.pending || m.setAside || m.takeBack || m.fromHold || m.kind == Deposit
    ensures Moved(m, w).Available() >= 0 || Moved(m, w).Available() >= w.Available()
  {
  }

  /** A forced withdrawal stays within the range of the column; and it passes exactly when the range
      allows it, whatever the wallet holds or set aside. */
  lemma ForcedWithdrawalStaysInRange(m: Movement, w: Wallet)
    requires m == Plain(m.wallet, Withdraw, m.amount, false, true) && w.Servable()
    ensures Guard(m, w) <==> Moved(m, w).balance >= MIN
  {
  }

  /** The held column is not checked against the range where a capture lowers the balance: after a
      forced withdrawal the capture of an open hold passes its guard and leaves the range. */
  lemma CaptureAfterForceLeavesTheRange() returns (w: Wallet, forced: Movement, capture: Movement)
    ensures Fits(w.balance) && 0 <= w.held <= w.balance + w.creditLimit
    ensures Guard(forced, w) && Fits(Moved(forced, w).balance)
    ensures capture.fromHold && Guard(capture, Moved(forced, w)) && !Fits(Moved(capture, Moved(forced, w)).balance)
  {
    w := Wallet(0, 0, 10, 10, 0, false, false);
    forced := Plain(0, Withdraw, MAX, false, true);
    capture := Plain(0, Withdraw, 10, false, false).(fromHold := true);
  }

  /** A capture: of part of what is set aside, giving back what is left of its hold. */
  function Taking(wallet: nat, amount: nat, release: nat): Movement {
    Plain(wallet, Withdraw, amount, false, false).(fromHold := true, release := release)
  }

  /** Every capture a wallet lets pass leaves the balance in the range exactly when the range holds the
      balance without all that is set aside. */
  lemma CaptureInRange(w: Wallet, wallet: nat)
    requires w.Servable() && Fits(w.balance) && w.held >= 0
    ensures (forall amount, release | Guard(Taking(wallet, amount, release), w) ::
               Fits(Moved(Taking(wallet, amount, release), w).balance))
            <==> w.balance - w.held >= MIN
  {
    var all := Taking(wallet, w.held, 0);
    assert Guard(all, w) && Moved(all, w).balance == w.balance - w.held;
  }

  /** Only a forced withdrawal can take that away: no other statement does, of whatever amount, and a
      forced one leaves it exactly when it takes no more than the range holds beyond it. */
  lemma OnlyForceLeavesNoRange(m: Movement, w: Wallet)
    requires Guard(m, w) && m.amount >= 0 && m.release >= 0 && w.balance - w.held >= MIN && w.creditLimit <= MAX
    ensures var forced := m.force && m.kind == Withdraw && WritesLedger(m) && !m.pending && !m.adjust && !m.fromHold;
            var after := Moved(m, w);
            if forced then after.balance - after.held >= MIN <==> m.amount <= w.balance - w.held - MIN
            else after.balance - after.held >= MIN
  {
  }
}
