/** Operations that settle others: reversed whole or in part, confirmed, voided (movement.go, undo.go,
    service.go). What each of them reads of the operation it names is rows that never change, so it is
    read here in the transaction that writes. */
module Settlements {
  import opened Tables
  import opened Apply
  import Ledger
  import LedgerRuns

  // ---------------------------------------------------------------- what entries and movements add up to

  function Directed(kind: EntryKind, amount: int): int {
    if kind == Withdraw then -amount else amount
  }

  /** What the entries on a wallet add up to: those that count, or those that wait. */
  function Sum(es: seq<Entry>, w: nat, counts: bool): int {
    if es == [] then 0
    else
      var e := es[|es| - 1];
      Sum(es[..|es| - 1], w, counts) + if e.wallet == w && e.settled == counts then Directed(e.kind, e.amount) else 0
  }

  /** What movements ask for on a wallet, to count or to wait. */
  function Moves(queue: seq<Placed>, w: nat, counts: bool): int {
    if queue == [] then 0
    else Moves(queue[..|queue| - 1], w, counts) + MoveOn(queue[|queue| - 1].movement, w, counts)
  }

  function MoveOn(m: Movement, w: nat, counts: bool): int {
    if m.wallet == w && m.pending == !counts then Directed(m.kind, m.amount) else 0
  }

  lemma SumOfMore(es: seq<Entry>, e: Entry, w: nat, counts: bool)
    ensures Sum(es + [e], w, counts) == Sum(es, w, counts) + if e.wallet == w && e.settled == counts
            then Directed(e.kind, e.amount) else 0
  {
    assert (es + [e])[..|es|] == es;
  }

  lemma MovesOfMore(queue: seq<Placed>, p: Placed, w: nat, counts: bool)
    ensures Moves(queue + [p], w, counts) == Moves(queue, w, counts) + MoveOn(p.movement, w, counts)
  {
    assert (queue + [p])[..|queue|] == queue;
  }

  /** The settled entries add up as the ledger adds them. */
  lemma {:induction false} SumIsSettled(es: seq<Entry>, w: nat)
    ensures Sum(es, w, true) == Ledger.Settled(es, w)
  {
    if es != [] {
      var n := |es| - 1;
      SumIsSettled(es[..n], w);
      LedgerRuns.SettledOfMore(es[..n], es[n], w);
      assert es[..n] + [es[n]] == es;
    }
  }

  lemma {:induction false} SumOfRecorded(es: seq<Entry>, operation: nat, queue: seq<Placed>, w: nat, counts: bool)
    requires |es| == |queue| && forall k | 0 <= k < |queue| :: RecordedAs(es[k], operation, queue[k])
    ensures Sum(es, w, counts) == Moves(queue, w, counts)
  {
    if es != [] {
      var n := |es| - 1;
      assert forall k | 0 <= k < n :: es[..n][k] == es[k] && queue[..n][k] == queue[k];
      SumOfRecorded(es[..n], operation, queue[..n], w, counts);
      assert RecordedAs(es[n], operation, queue[n]);
    }
  }

  lemma {:induction false} MovesOfInserted(queue: seq<Placed>, p: Placed, w: nat, counts: bool)
    ensures Moves(InsertInOrder(queue, p), w, counts) == Moves(queue, w, counts) + MoveOn(p.movement, w, counts)
  {
    if queue == [] || queue[|queue| - 1].movement.wallet <= p.movement.wallet {
      MovesOfMore(queue, p, w, counts);
    } else {
      var head, last := queue[..|queue| - 1], queue[|queue| - 1];
      MovesOfInserted(head, p, w, counts);
      MovesOfMore(InsertInOrder(head, p), last, w, counts);
    }
  }

  lemma {:induction false} MovesInLockOrder(queue: seq<Placed>, w: nat, counts: bool)
    ensures Moves(InLockOrder(queue), w, counts) == Moves(queue, w, counts)
  {
    if queue != [] {
      var head, last := queue[..|queue| - 1], queue[|queue| - 1];
      MovesInLockOrder(head, w, counts);
      MovesOfInserted(InLockOrder(head), last, w, counts);
    }
  }

  // ---------------------------------------------------------------- the entries of an operation

  function OfOperation(entries: seq<Entry>, operation: nat): seq<Entry> {
    if entries == [] then []
    else OfOperation(entries[..|entries| - 1], operation)
         + if entries[|entries| - 1].operation == operation then [entries[|entries| - 1]] else []
  }

  function InsertByPosition(es: seq<Entry>, e: Entry): seq<Entry> {
    if es == [] || es[|es| - 1].position <= e.position then es + [e]
    else InsertByPosition(es[..|es| - 1], e) + [es[|es| - 1]]
  }

  function ByPosition(es: seq<Entry>): seq<Entry> {
    if es == [] then [] else InsertByPosition(ByPosition(es[..|es| - 1]), es[|es| - 1])
  }

  /** The entries of an operation as a call reads them, in the order of its request. */
  function EntriesOf(entries: seq<Entry>, operation: nat): seq<Entry> {
    ByPosition(OfOperation(entries, operation))
  }

  lemma {:induction false} SumOfInserted(es: seq<Entry>, e: Entry, w: nat, counts: bool)
    ensures Sum(InsertByPosition(es, e), w, counts) == Sum(es + [e], w, counts)
  {
    if es != [] && es[|es| - 1].position > e.position {
      var head, last := es[..|es| - 1], es[|es| - 1];
      SumOfInserted(head, e, w, counts);
      SumOfMore(es, e, w, counts);
      SumOfMore(head, e, w, counts);
      SumOfMore(InsertByPosition(head, e), last, w, counts);
    }
  }

  lemma {:induction false} InsertedKeepsAll(es: seq<Entry>, e: Entry)
    ensures multiset(InsertByPosition(es, e)) == multiset(es) + multiset{e}
  {
    if es != [] {
      assert es == es[..|es| - 1] + [es[|es| - 1]];
      InsertedKeepsAll(es[..|es| - 1], e);
    }
  }

  lemma {:induction false} SumByPosition(es: seq<Entry>, w: nat, counts: bool)
    ensures Sum(ByPosition(es), w, counts) == Sum(es, w, counts)
    ensures multiset(ByPosition(es)) == multiset(es)
  {
    if es != [] {
      var head, last := es[..|es| - 1], es[|es| - 1];
      assert es == head + [last];
      SumByPosition(head, w, counts);
      SumOfInserted(ByPosition(head), last, w, counts);
      InsertedKeepsAll(ByPosition(head), last);
      SumOfMore(ByPosition(head), last, w, counts);
      SumOfMore(head, last, w, counts);
    }
  }

  lemma {:induction false} OfOperationJoined(entries: seq<Entry>, more: seq<Entry>, operation: nat)
    ensures OfOperation(entries + more, operation) == OfOperation(entries, operation) + OfOperation(more, operation)
  {
    if more == [] {
      assert entries + more == entries;
    } else {
      var n := |more| - 1;
      OfOperationJoined(entries, more[..n], operation);
      assert (entries + more)[..|entries| + n] == entries + more[..n];
    }
  }

  lemma {:induction false} AllOfIt(es: seq<Entry>, operation: nat, other: nat)
    requires forall k | 0 <= k < |es| :: es[k].operation == operation
    ensures OfOperation(es, other) == if other == operation then es else []
  {
    if es != [] {
      AllOfIt(es[..|es| - 1], operation, other);
      assert es == es[..|es| - 1] + [es[|es| - 1]];
    }
  }

  lemma {:induction false} NoneOfIt(es: seq<Entry>, operation: nat)
    requires forall k | 0 <= k < |es| :: es[k].operation != operation
    ensures OfOperation(es, operation) == []
  {
    if es != [] {
      NoneOfIt(es[..|es| - 1], operation);
    }
  }

  lemma {:induction false} OfOperationAreIts(entries: seq<Entry>, operation: nat)
    ensures forall e | e in OfOperation(entries, operation) :: e in entries && e.operation == operation
  {
    if entries != [] {
      OfOperationAreIts(entries[..|entries| - 1], operation);
    }
  }

  lemma {:induction false} NothingOnIt(es: seq<Entry>, w: nat, counts: bool)
    requires forall k | 0 <= k < |es| :: es[k].wallet != w
    ensures Sum(es, w, counts) == 0
  {
    if es != [] {
      NothingOnIt(es[..|es| - 1], w, counts);
    }
  }

  /** Every entry names an operation and a wallet there are. */
  predicate EntriesKnown(t: Tables) {
    forall k | 0 <= k < |t.entries| :: t.entries[k].operation < t.operations && t.entries[k].wallet < |t.wallets|
  }

  /** What an operation writes: one entry for each movement, all its own. */
  lemma WrittenRows(t: Tables, movements: seq<Movement>, order: seq<Placed>) returns (more: seq<Entry>)
    requires Ledger.Written(t, movements).Some? && order == InLockOrder(PlacedFrom(movements))
    ensures var u := Ledger.Written(t, movements).value;
            u.entries == t.entries + more && |u.wallets| == |t.wallets| && u.operations == t.operations + 1
              && u.holds == t.holds
    ensures |more| == |order| && forall k | 0 <= k < |order| ::
            RecordedAs(more[k], t.operations, order[k]) && more[k].wallet < |t.wallets|
  {
    EntriesOfAnOperation(t.wallets, t.operations, order);
    more := ApplyAll(t.wallets, t.operations, order).value.entries;
  }

  lemma WrittenKnown(t: Tables, movements: seq<Movement>)
    requires EntriesKnown(t) && Ledger.Written(t, movements).Some?
    ensures var u := Ledger.Written(t, movements).value;
            EntriesKnown(u) && |u.wallets| == |t.wallets| && u.operations == t.operations + 1 && u.holds == t.holds
  {
    var order := InLockOrder(PlacedFrom(movements));
    var more := WrittenRows(t, movements, order);
    assert forall k | 0 <= k < |more| :: RecordedAs(more[k], t.operations, order[k]);
  }

  /** They add up to the movements. */
  lemma WrittenAddsUpTo(t: Tables, movements: seq<Movement>, w: nat, counts: bool)
    requires EntriesKnown(t) && Ledger.Written(t, movements).Some?
    ensures var u := Ledger.Written(t, movements).value;
            Sum(OfOperation(u.entries, t.operations), w, counts) == Moves(PlacedFrom(movements), w, counts)
  {
    var order := InLockOrder(PlacedFrom(movements));
    var more := WrittenRows(t, movements, order);
    assert forall k | 0 <= k < |more| :: RecordedAs(more[k], t.operations, order[k]);
    SumOfRecorded(more, t.operations, order, w, counts);
    MovesInLockOrder(PlacedFrom(movements), w, counts);
    NewEntriesAreIts(t.entries, more, t.operations);
  }

  lemma NewEntriesAreIts(entries: seq<Entry>, more: seq<Entry>, operation: nat)
    requires forall k | 0 <= k < |entries| :: entries[k].operation < operation
    requires forall k | 0 <= k < |more| :: more[k].operation == operation
    ensures OfOperation(entries + more, operation) == more
    ensures forall o: nat | o < operation :: OfOperation(entries + more, o) == OfOperation(entries, o)
  {
    NoneOfIt(entries, operation);
    AllOfIt(more, operation, operation);
    OfOperationJoined(entries, more, operation);
    forall o: nat | o < operation ensures OfOperation(entries + more, o) == OfOperation(entries, o) {
      AllOfIt(more, operation, o);
      OfOperationJoined(entries, more, o);
    }
  }

  /** And the entries of every other operation stay as they were. */
  lemma WrittenKeepsTheOthers(t: Tables, movements: seq<Movement>)
    requires EntriesKnown(t) && Ledger.Written(t, movements).Some?
    ensures forall o: nat | o < t.operations ::
              OfOperation(Ledger.Written(t, movements).value.entries, o) == OfOperation(t.entries, o)
  {
    var order := InLockOrder(PlacedFrom(movements));
    var more := WrittenRows(t, movements, order);
    assert forall k | 0 <= k < |more| :: RecordedAs(more[k], t.operations, order[k]);
    NewEntriesAreIts(t.entries, more, t.operations);
  }

  /** The entries of an operation whose movements are all of one amount are of that amount. */
  lemma WrittenAmounts(t: Tables, movements: seq<Movement>, amount: int)
    requires EntriesKnown(t) && Ledger.Written(t, movements).Some? && movements != []
    requires forall k | 0 <= k < |movements| :: movements[k].amount == amount
    ensures var es := EntriesOf(Ledger.Written(t, movements).value.entries, t.operations);
            es != [] && forall k | 0 <= k < |es| :: es[k].amount == amount
  {
    var order := InLockOrder(PlacedFrom(movements));
    LockOrderIsOrdered(PlacedFrom(movements));
    var more := WrittenRows(t, movements, order);
    forall k | 0 <= k < |more| ensures more[k].operation == t.operations && more[k].amount == amount {
      assert RecordedAs(more[k], t.operations, order[k]);
      Ledger.InTheQueue(movements, order, k);
    }
    NewEntriesAreIts(t.entries, more, t.operations);
    SameAmountsByPosition(more, amount);
  }

  lemma SameAmountsByPosition(es: seq<Entry>, amount: int)
    requires es != [] && forall k | 0 <= k < |es| :: es[k].amount == amount
    ensures ByPosition(es) != [] && forall k | 0 <= k < |ByPosition(es)| :: ByPosition(es)[k].amount == amount
  {
    SumByPosition(es, 0, true);
    var sorted := ByPosition(es);
    assert |sorted| == |multiset(sorted)| == |es|;
    forall k | 0 <= k < |sorted| ensures sorted[k].amount == amount {
      assert sorted[k] in multiset(sorted);
    }
  }

  // ---------------------------------------------------------------- what settles an operation

  function Opposite(kind: EntryKind): EntryKind {
    if kind == Withdraw then Deposit else Withdraw
  }

  /** mirror: what undoes the entries that counted. */
  function Mirror(es: seq<Entry>): seq<Movement> {
    if es == [] then []
    else
      var e := es[|es| - 1];
      Mirror(es[..|es| - 1]) + if e.settled then [Plain(e.wallet, Opposite(e.kind), e.amount, false, false)] else []
  }

  /** What gives an amount of each back; force is about the wallets the money leaves. */
  function Part(es: seq<Entry>, amount: int, force: bool): seq<Movement> {
    if es == [] then []
    else
      var e := es[|es| - 1];
      Part(es[..|es| - 1], amount, force)
      + if e.settled then [Plain(e.wallet, Opposite(e.kind), amount, false, force && e.kind == Deposit)] else []
  }

  /** settle: what makes the entries that wait count. */
  function Settling(es: seq<Entry>, force: bool): seq<Movement> {
    if es == [] then []
    else
      var e := es[|es| - 1];
      Settling(es[..|es| - 1], force) + if e.settled then [] else [Plain(e.wallet, e.kind, e.amount, false, force)]
  }

  /** What withdraws the entries that wait, waiting as they do. */
  function Withdrawing(es: seq<Entry>): seq<Movement> {
    if es == [] then []
    else
      var e := es[|es| - 1];
      Withdrawing(es[..|es| - 1]) + if e.settled then [] else [Plain(e.wallet, Opposite(e.kind), e.amount, true, false)]
  }

  lemma PlacedOneMore(ms: seq<Movement>, m: Movement, w: nat, counts: bool)
    ensures Moves(PlacedFrom(ms + [m]), w, counts) == Moves(PlacedFrom(ms), w, counts) + MoveOn(m, w, counts)
  {
    assert PlacedFrom(ms + [m]) == PlacedFrom(ms) + [Placed(|ms|, m)];
    MovesOfMore(PlacedFrom(ms), Placed(|ms|, m), w, counts);
  }

  lemma {:induction false} MirrorUndoes(es: seq<Entry>, w: nat)
    ensures Moves(PlacedFrom(Mirror(es)), w, true) == -Sum(es, w, true)
  {
    if es != [] {
      var head, e := es[..|es| - 1], es[|es| - 1];
      MirrorUndoes(head, w);
      if e.settled {
        PlacedOneMore(Mirror(head), Plain(e.wallet, Opposite(e.kind), e.amount, false, false), w, true);
      } else {
        assert Mirror(es) == Mirror(head);
      }
    }
  }

  lemma {:induction false} SettlingCounts(es: seq<Entry>, force: bool, w: nat)
    ensures Moves(PlacedFrom(Settling(es, force)), w, true) == Sum(es, w, false)
  {
    if es != [] {
      var head, e := es[..|es| - 1], es[|es| - 1];
      SettlingCounts(head, force, w);
      if e.settled {
        assert Settling(es, force) == Settling(head, force);
      } else {
        PlacedOneMore(Settling(head, force), Plain(e.wallet, e.kind, e.amount, false, force), w, true);
      }
    }
  }

  lemma {:induction false} WithdrawingCancels(es: seq<Entry>, w: nat)
    ensures Moves(PlacedFrom(Withdrawing(es)), w, false) == -Sum(es, w, false)
    ensures Moves(PlacedFrom(Withdrawing(es)), w, true) == 0
  {
    if es != [] {
      var head, e := es[..|es| - 1], es[|es| - 1];
      WithdrawingCancels(head, w);
      if e.settled {
        assert Withdrawing(es) == Withdrawing(head);
      } else {
        var m := Plain(e.wallet, Opposite(e.kind), e.amount, true, false);
        PlacedOneMore(Withdrawing(head), m, w, false);
        PlacedOneMore(Withdrawing(head), m, w, true);
      }
    }
  }

  /** x is to y as an amount given back is to the whole. */
  predicate IsShare(x: int, y: int, amount: int, whole: int) {
    whole * x == -amount * y
  }

  /** One unit out given back in, or the other way round. */
  lemma Shares(whole: int, amount: int, x: int, y: int, out: bool)
    requires IsShare(x, y, amount, whole)
    ensures IsShare(if out then x + amount else x - amount, if out then y - whole else y + whole, amount, whole)
  {
    assert whole * (x + amount) == whole * x + whole * amount && whole * (x - amount) == whole * x - whole * amount;
    assert -amount * (y - whole) == -amount * y + amount * whole
           && -amount * (y + whole) == -amount * y - amount * whole;
  }

  lemma {:induction false} PartAmounts(es: seq<Entry>, amount: int, force: bool)
    ensures |Part(es, amount, force)| == |Mirror(es)|
    ensures forall k | 0 <= k < |Part(es, amount, force)| :: Part(es, amount, force)[k].amount == amount
  {
    if es != [] {
      PartAmounts(es[..|es| - 1], amount, force);
    }
  }

  /** A part gives back its share of what the operation moved, on every wallet. */
  lemma {:induction false} PartGivesItsShare(es: seq<Entry>, amount: int, force: bool, whole: int, w: nat)
    requires forall k | 0 <= k < |es| && es[k].settled :: es[k].amount == whole
    ensures IsShare(Moves(PlacedFrom(Part(es, amount, force)), w, true), Sum(es, w, true), amount, whole)
  {
    if es != [] {
      var head, e := es[..|es| - 1], es[|es| - 1];
      PartGivesItsShare(head, amount, force, whole, w);
      if e.settled {
        var m := Plain(e.wallet, Opposite(e.kind), amount, false, force && e.kind == Deposit);
        PlacedOneMore(Part(head, amount, force), m, w, true);
        if e.wallet == w {
          Shares(whole, amount, Moves(PlacedFrom(Part(head, amount, force)), w, true), Sum(head, w, true),
            e.kind == Withdraw);
        }
      } else {
        assert Part(es, amount, force) == Part(head, amount, force);
      }
    }
  }
}
