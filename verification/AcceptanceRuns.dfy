/** When an operation that settles another is accepted, over every run: said by the rows there are, and
    by what its movements ask of the wallets (movement.go, undo.go, service.go). */
module AcceptanceRuns {
  import opened Outcome
  import opened Tables
  import Ledger
  import opened Settlements
  import opened SettlementRuns

  // ---------------------------------------------------------------- what the entries make

  /** An entry of an operation that counts, or that waits. */
  predicate Has(entries: seq<Entry>, o: nat, settled: bool) {
    exists e :: e in entries && e.operation == o && e.settled == settled
  }

  lemma {:induction false} OfOperationAreAll(entries: seq<Entry>, o: nat)
    ensures forall e | e in entries && e.operation == o :: e in OfOperation(entries, o)
  {
    if entries != [] {
      var head, last := entries[..|entries| - 1], entries[|entries| - 1];
      OfOperationAreAll(head, o);
      assert entries == head + [last];
    }
  }

  /** What a call reads of an operation is its entries, all of them and nothing else. */
  lemma {:induction false} EntriesOfAreAll(entries: seq<Entry>, o: nat, e: Entry)
    ensures e in EntriesOf(entries, o) <==> e in entries && e.operation == o
  {
    OfOperationAreAll(entries, o);
    OfOperationAreIts(entries, o);
    SumByPosition(OfOperation(entries, o), 0, true);
    assert e in EntriesOf(entries, o) <==> e in multiset(EntriesOf(entries, o));
  }

  /** They are read in the order of the request. */
  predicate ByTheRequest(es: seq<Entry>) {
    forall j, k | 0 <= j < k < |es| :: es[j].position <= es[k].position
  }

  lemma {:induction false} InsertedInOrder(es: seq<Entry>, e: Entry)
    requires ByTheRequest(es)
    ensures ByTheRequest(InsertByPosition(es, e))
    ensures forall x | x in InsertByPosition(es, e) :: x in es || x == e
  {
    if es != [] && es[|es| - 1].position > e.position {
      var head, last := es[..|es| - 1], es[|es| - 1];
      InsertedInOrder(head, e);
      var rest := InsertByPosition(head, e);
      forall k | 0 <= k < |rest| ensures rest[k].position <= last.position {
        assert rest[k] in rest;
      }
    }
  }

  lemma {:induction false} ReadInOrder(es: seq<Entry>)
    ensures ByTheRequest(ByPosition(es))
  {
    if es != [] {
      ReadInOrder(es[..|es| - 1]);
      InsertedInOrder(ByPosition(es[..|es| - 1]), es[|es| - 1]);
    }
  }

  /** The entries of an operation, as a call that settles it reads them: all of them, nothing else, in the
      order of the request. */
  lemma WhatIsRead(entries: seq<Entry>, o: nat)
    ensures multiset(EntriesOf(entries, o)) == multiset(OfOperation(entries, o)) && ByTheRequest(EntriesOf(entries, o))
    ensures forall e :: e in EntriesOf(entries, o) <==> e in entries && e.operation == o
  {
    SumByPosition(OfOperation(entries, o), 0, true);
    ReadInOrder(OfOperation(entries, o));
    forall e ensures e in EntriesOf(entries, o) <==> e in entries && e.operation == o {
      EntriesOfAreAll(entries, o, e);
    }
  }

  lemma {:induction false} NothingToMove(es: seq<Entry>, force: bool)
    ensures Mirror(es) == [] <==> forall e | e in es :: !e.settled
    ensures Settling(es, force) == [] <==> forall e | e in es :: e.settled
  {
    if es != [] {
      var head, last := es[..|es| - 1], es[|es| - 1];
      NothingToMove(head, force);
      assert es == head + [last];
    }
  }

  /** What counts is what there is to reverse, what waits what there is to confirm or to withdraw. */
  lemma {:induction false} WhatThereIs(entries: seq<Entry>, o: nat, force: bool)
    ensures var es := EntriesOf(entries, o);
            && (Mirror(es) != [] <==> Has(entries, o, true))
            && (Settling(es, force) != [] <==> Has(entries, o, false))
            && (es != [] && AllWait(es) <==> Has(entries, o, false) && !Has(entries, o, true))
  {
    var es := EntriesOf(entries, o);
    NothingToMove(es, force);
    forall e ensures e in es <==> e in entries && e.operation == o {
      EntriesOfAreAll(entries, o, e);
    }
    if es != [] {
      assert es[0] in es;
    }
    assert AllWait(es) <==> forall e | e in es :: !e.settled;
  }

  /** No settling forces a wallet unless it was asked to: a reversal and a void never do, a part only
      where money leaves, a confirmation wherever it is asked to; and only a void waits. */
  lemma {:induction false} ForcedAsAsked(es: seq<Entry>, amount: int, force: bool, k: nat)
    ensures k < |Mirror(es)| ==> var m := Mirror(es)[k]; m == Plain(m.wallet, m.kind, m.amount, false, false)
    ensures k < |Part(es, amount, force)| ==>
              var m := Part(es, amount, force)[k];
              m == Plain(m.wallet, m.kind, amount, false, force && m.kind == Withdraw)
    ensures k < |Settling(es, force)| ==>
              var m := Settling(es, force)[k]; m == Plain(m.wallet, m.kind, m.amount, false, force)
    ensures k < |Withdrawing(es)| ==> var m := Withdrawing(es)[k]; m == Plain(m.wallet, m.kind, m.amount, true, false)
    decreases |es|
  {
    if es != [] {
      ForcedAsAsked(es[..|es| - 1], amount, force, k);
    }
  }

  /** Two entries of one amount in one money. */
  predicate AlikeIn(t: Tables, e: Entry, f: Entry) {
    && e.amount == f.amount && e.wallet < |t.wallets| && f.wallet < |t.wallets|
    && t.wallets[e.wallet].unit == t.wallets[f.wallet].unit
  }

  lemma {:induction false} MirrorsOf(es: seq<Entry>)
    ensures forall e | e in es && e.settled :: Plain(e.wallet, Opposite(e.kind), e.amount, false, false) in Mirror(es)
    ensures forall m | m in Mirror(es) ::
              exists e :: e in es && e.settled && m == Plain(e.wallet, Opposite(e.kind), e.amount, false, false)
  {
    if es != [] {
      var head, last := es[..|es| - 1], es[|es| - 1];
      MirrorsOf(head);
      assert es == head + [last];
    }
  }

  /** What can be given back in part: an operation of which something counts, all of it of one amount in
      one money. */
  lemma OneAmountInOneMoney(t: Tables, o: nat)
    ensures WholeOf(t, o).Some? <==>
            && Has(t.entries, o, true)
            && forall e, f | Counts(t, o, e) && Counts(t, o, f) :: AlikeIn(t, e, f)
    ensures WholeOf(t, o).Some? ==> forall e | Counts(t, o, e) :: e.amount == WholeOf(t, o).value
  {
    var movements := Mirror(EntriesOf(t.entries, o));
    WhatThereIs(t.entries, o, false);
    if movements != [] {
      CountedIsMirrored(t, o, movements);
    }
  }

  lemma CountedIsMirrored(t: Tables, o: nat, movements: seq<Movement>)
    requires movements == Mirror(EntriesOf(t.entries, o)) && movements != []
    ensures (forall k | 0 <= k < |movements| :: MovesAlike(t, movements[k], movements[0])) <==>
            forall e, f | Counts(t, o, e) && Counts(t, o, f) :: AlikeIn(t, e, f)
    ensures (forall k | 0 <= k < |movements| :: MovesAlike(t, movements[k], movements[0])) ==>
            forall e | Counts(t, o, e) :: e.amount == movements[0].amount
  {
    if forall k | 0 <= k < |movements| :: MovesAlike(t, movements[k], movements[0]) {
      forall e | Counts(t, o, e) ensures AlikeTo(t, e, movements[0]) {
        var k := PlaceOf(t, o, movements, e);
        assert MovesAlike(t, movements[k], movements[0]);
      }
    }
    if forall e, f | Counts(t, o, e) && Counts(t, o, f) :: AlikeIn(t, e, f) {
      var f := EntryAt(t, o, movements, 0);
      forall k | 0 <= k < |movements| ensures MovesAlike(t, movements[k], movements[0]) {
        var e := EntryAt(t, o, movements, k);
        assert AlikeIn(t, e, f);
      }
    }
  }

  /** An entry that counts has its movement, and every movement is of one. */
  lemma PlaceOf(t: Tables, o: nat, movements: seq<Movement>, e: Entry) returns (k: nat)
    requires movements == Mirror(EntriesOf(t.entries, o)) && Counts(t, o, e)
    ensures k < |movements| && movements[k].wallet == e.wallet && movements[k].amount == e.amount
  {
    MirrorsOf(EntriesOf(t.entries, o));
    EntriesOfAreAll(t.entries, o, e);
    var m := Plain(e.wallet, Opposite(e.kind), e.amount, false, false);
    k :| 0 <= k < |movements| && movements[k] == m;
  }

  lemma EntryAt(t: Tables, o: nat, movements: seq<Movement>, k: nat) returns (e: Entry)
    requires movements == Mirror(EntriesOf(t.entries, o)) && k < |movements|
    ensures Counts(t, o, e) && movements[k].wallet == e.wallet && movements[k].amount == e.amount
  {
    var es := EntriesOf(t.entries, o);
    MirrorsOf(es);
    assert movements[k] in movements;
    e :| e in es && e.settled && movements[k] == Plain(e.wallet, Opposite(e.kind), e.amount, false, false);
    EntriesOfAreAll(t.entries, o, e);
  }

  /** An entry of an operation that counts. */
  predicate Counts(t: Tables, o: nat, e: Entry) {
    e in t.entries && e.operation == o && e.settled
  }

  predicate AlikeTo(t: Tables, e: Entry, m: Movement) {
    && e.amount == m.amount && e.wallet < |t.wallets| && m.wallet < |t.wallets|
    && t.wallets[e.wallet].unit == t.wallets[m.wallet].unit
  }

  predicate MovesAlike(t: Tables, m: Movement, n: Movement) {
    && m.amount == n.amount && m.wallet < |t.wallets| && n.wallet < |t.wallets|
    && t.wallets[m.wallet].unit == t.wallets[n.wallet].unit
  }

  // ---------------------------------------------------------------- what was given back in part

  /** A partial reversal of an operation. */
  predicate GaveBack(ops: seq<Operation>, o: nat) {
    exists k :: 0 <= k < |ops| && ops[k].kind == PartialReversal && ops[k].refers == Some(o)
  }

  predicate PartsPositive(b: Books) {
    forall k {:trigger Gave(b.t, k)} | 0 <= k < |b.ops| && b.ops[k].kind == PartialReversal :: Gave(b.t, k) > 0
  }

  /** Over every run no partial reversal gave nothing back. */
  lemma {:induction false} EveryPartIsPositive(steps: seq<Step>)
    ensures PartsPositive(Run(EMPTY, steps))
  {
    if steps != [] {
      EveryPartIsPositive(steps[..|steps| - 1]);
      EveryRunIsInOrder(steps[..|steps| - 1]);
      StepKeepsPositive(Run(EMPTY, steps[..|steps| - 1]), steps[|steps| - 1]);
    }
  }

  lemma StepKeepsPositive(b: Books, step: Step)
    requires InOrder(b) && PartsPositive(b)
    ensures PartsPositive(Perform(b, step))
  {
    var c := Perform(b, step);
    StepKeepsOrder(b, step);
    forall k | 0 <= k < |c.ops| && c.ops[k].kind == PartialReversal ensures Gave(c.t, k) > 0 {
      if k < |b.ops| {
        assert SameName(b.ops[k], c.ops[k]) && OfOperation(c.t.entries, k) == OfOperation(b.t.entries, k);
        assert Gave(b.t, k) > 0;
      } else {
        NewPartIsPositive(b, step);
      }
    }
  }

  lemma NewPartIsPositive(b: Books, step: Step)
    requires InOrder(b) && |Perform(b, step).ops| > |b.ops|
    requires Perform(b, step).ops[|b.ops|].kind == PartialReversal
    ensures |Perform(b, step).ops| == |b.ops| + 1 && Gave(Perform(b, step).t, |b.ops|) > 0
  {
    NewIsWritten(b, step);
    StepIsInPlace(b, step);
    StepAsksTheColumn(b, step);
    PartGives(b, step, Perform(b, step));
  }

  lemma {:induction false} PartsAddUp(t: Tables, ops: seq<Operation>, o: nat)
    requires forall k | 0 <= k < |ops| :: NamedWell(ops, k) && (ops[k].refers.Some? ==> Gave(t, k) > 0)
    ensures PartsOf(t, ops, o) >= 0
    ensures PartsOf(t, ops, o) == 0 <==> !GaveBack(ops, o)
  {
    PartsOfThem(t, ops, o, |ops|);
    assert ops[..|ops|] == ops;
  }

  lemma {:induction false} PartsOfThem(t: Tables, ops: seq<Operation>, o: nat, n: nat)
    requires forall k | 0 <= k < |ops| :: NamedWell(ops, k) && (ops[k].refers.Some? ==> Gave(t, k) > 0)
    requires n <= |ops|
    ensures PartsOf(t, ops[..n], o) >= 0
    ensures PartsOf(t, ops[..n], o) == 0 <==> !GaveBack(ops[..n], o)
  {
    if n > 0 {
      PartsOfThem(t, ops, o, n - 1);
      assert ops[..n][..n - 1] == ops[..n - 1] && NamedWell(ops, n - 1);
      GaveBackWithOneMore(ops[..n], o);
    }
  }

  lemma GaveBackWithOneMore(ops: seq<Operation>, o: nat)
    requires ops != []
    ensures var n := |ops| - 1;
            GaveBack(ops, o) <==> GaveBack(ops[..n], o) || (ops[n].kind == PartialReversal && ops[n].refers == Some(o))
  {
    var n := |ops| - 1;
    if GaveBack(ops[..n], o) {
      var k :| 0 <= k < n && ops[..n][k].kind == PartialReversal && ops[..n][k].refers == Some(o);
      assert ops[k].kind == PartialReversal;
    }
    if GaveBack(ops, o) {
      var k :| 0 <= k < |ops| && ops[k].kind == PartialReversal && ops[k].refers == Some(o);
      assert k < n ==> ops[..n][k].kind == PartialReversal;
    }
  }

  // ---------------------------------------------------------------- what is accepted

  /** No operation of a kind settles another. */
  predicate Never(ops: seq<Operation>, kind: OperationKind, o: nat) {
    forall k | 0 <= k < |ops| && ops[k].settles == o :: ops[k].kind != kind
  }

  /** An operation that is never named but by those that settle it: nothing collides with its number. */
  lemma NoneNamesTheNext(b: Books)
    requires InOrder(b)
    ensures !Taken(b.ops, PartialReversal, |b.ops|)
  {
    forall k | 0 <= k < |b.ops| ensures b.ops[k].settles != |b.ops| {
      assert NamedWell(b.ops, k);
    }
  }

  /** The mark says whether a confirmation or a void is there. */
  lemma TheMarkSays(b: Books, o: nat)
    requires InOrder(b) && o < |b.ops|
    ensures b.ops[o].resolvedBy.None? <==> Never(b.ops, Confirmation, o) && Never(b.ops, Voided, o)
  {
    assert ResolvedWell(b.ops, o);
    forall k | 0 <= k < |b.ops| && Resolves(b.ops[k].kind) && b.ops[k].settles == o ensures b.ops[o].resolvedBy.Some? {
      assert ResolvedWell(b.ops, k);
    }
  }

  /** The column a whole reversal finds, by the rows that wrote it. */
  lemma ReversedOrInPart(b: Books, o: nat)
    requires InOrder(b) && PartsPositive(b) && o < |b.ops|
    ensures Taken(b.ops, Reversal, o) <==> !Never(b.ops, Reversal, o)
    ensures WholeOf(b.t, o).None? ==> !GaveBack(b.ops, o)
    ensures WholeOf(b.t, o).Some? && Never(b.ops, Reversal, o) ==>
              (b.ops[o].reversedAmount == 0 <==> !GaveBack(b.ops, o))
  {
    assert PartsAt(b, o);
    forall k | 0 <= k < |b.ops| ensures NamedWell(b.ops, k) && (b.ops[k].refers.Some? ==> Gave(b.t, k) > 0) {
      assert NamedWell(b.ops, k);
    }
    PartsAddUp(b.t, b.ops, o);
  }

  /** Something of it counts, it is of a kind that is reversed, no reversal of it is there and no part of
      it was given back, and the opposite of what counted passes on the wallets. */
  predicate MayBeReversed(b: Books, o: nat) {
    && o < |b.ops| && b.ops[o].kind in {Deposited, Withdrawn, Transferred, Exchanged, Adjusted, Confirmation}
    && Has(b.t.entries, o, true) && Never(b.ops, Reversal, o) && !GaveBack(b.ops, o)
    && Ledger.Written(b.t, Mirror(EntriesOf(b.t.entries, o))).Some?
  }

  /** It is a part at all, of an operation of a kind that is given back in part, that moved one amount in
      one money, was not reversed, and gave back no more than the rest of it before. */
  predicate MayGiveBack(b: Books, o: nat, amount: int, force: bool) {
    && o < |b.ops| && amount > 0 && b.ops[o].kind in {Deposited, Withdrawn, Transferred, Confirmation}
    && Never(b.ops, Reversal, o)
    && WholeOf(b.t, o).Some? && PartsOf(b.t, b.ops, o) + amount <= WholeOf(b.t, o).value
    && Ledger.Written(b.t, Part(EntriesOf(b.t.entries, o), amount, force)).Some?
  }

  /** Something of it waits, no confirmation or void of it is there, and what waits passes. */
  predicate MayBeConfirmed(b: Books, o: nat, force: bool) {
    && o < |b.ops| && b.ops[o].kind != Voided && Has(b.t.entries, o, false)
    && Never(b.ops, Confirmation, o) && Never(b.ops, Voided, o)
    && Ledger.Written(b.t, Settling(EntriesOf(b.t.entries, o), force)).Some?
  }

  /** It has entries and all of them wait, no confirmation or void of it is there, and withdrawing them
      passes. */
  predicate MayBeVoided(b: Books, o: nat) {
    && o < |b.ops| && b.ops[o].kind != Voided && Has(b.t.entries, o, false) && !Has(b.t.entries, o, true)
    && Never(b.ops, Confirmation, o) && Never(b.ops, Voided, o)
    && Ledger.Written(b.t, Withdrawing(EntriesOf(b.t.entries, o))).Some?
  }

  lemma ReversalAsks(b: Books, o: nat)
    requires InOrder(b) && PartsPositive(b)
    ensures Answer(b, Reverse(o)).Some? <==> MayBeReversed(b, o)
  {
    if o < |b.ops| {
      ReversedOrInPart(b, o);
      WhatThereIs(b.t.entries, o, false);
    }
  }

  lemma PartAsks(b: Books, o: nat, amount: Ledger.Quantity, force: bool)
    requires InOrder(b)
    ensures Answer(b, ReversePart(o, amount, force)).Some? <==> MayGiveBack(b, o, amount, force)
  {
    if o < |b.ops| {
      assert PartsAt(b, o);
      NoneNamesTheNext(b);
      assert Taken(b.ops, Reversal, o) <==> !Never(b.ops, Reversal, o);
    }
  }

  lemma ConfirmationAsks(b: Books, o: nat, force: bool)
    requires InOrder(b)
    ensures Answer(b, Confirm(o, force)).Some? <==> MayBeConfirmed(b, o, force)
  {
    if o < |b.ops| {
      TheMarkSays(b, o);
      WhatThereIs(b.t.entries, o, force);
      assert Taken(b.ops, Confirmation, o) <==> !Never(b.ops, Confirmation, o);
    }
  }

  lemma VoidAsks(b: Books, o: nat)
    requires InOrder(b)
    ensures Answer(b, Void(o)).Some? <==> MayBeVoided(b, o)
  {
    if o < |b.ops| {
      TheMarkSays(b, o);
      WhatThereIs(b.t.entries, o, false);
      assert Taken(b.ops, Voided, o) <==> !Never(b.ops, Voided, o);
    }
  }

  /** Over every run: exactly which operations are reversed, given back in part down to the last part,
      confirmed and voided. */
  lemma {:induction false} WhatIsAccepted(steps: seq<Step>, o: nat, amount: Ledger.Quantity, force: bool)
    ensures var b := Run(EMPTY, steps);
            && (Answer(b, Reverse(o)).Some? <==> MayBeReversed(b, o))
            && (Answer(b, ReversePart(o, amount, force)).Some? <==> MayGiveBack(b, o, amount, force))
            && (Answer(b, Confirm(o, force)).Some? <==> MayBeConfirmed(b, o, force))
            && (Answer(b, Void(o)).Some? <==> MayBeVoided(b, o))
  {
    var b := Run(EMPTY, steps);
    EveryRunIsInOrder(steps);
    EveryPartIsPositive(steps);
    ReversalAsks(b, o);
    PartAsks(b, o, amount, force);
    ConfirmationAsks(b, o, force);
    VoidAsks(b, o);
  }
}
