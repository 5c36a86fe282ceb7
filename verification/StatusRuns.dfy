/** The status a listing answers of an entry is what happened to its operation, over every run of
    operations and of what settles them (listing.go over movement.go and undo.go). */
module StatusRuns {
  import opened Tables
  import opened Settlements
  import opened SettlementRuns
  import opened AcceptanceRuns
  import Statuses

  /** How operations are named in their rows. */
  type Naming = nat -> string

  ghost predicate Names(name: Naming) {
    (forall n: nat :: name(n) != "") && forall m: nat, n: nat :: name(m) == name(n) ==> m == n
  }

  function KindOf(kind: OperationKind): Statuses.Kind {
    match kind
    case Confirmation => Statuses.Confirmation
    case Voided => Statuses.Void
    case Reversal => Statuses.Reversal
    case _ => Statuses.Other
  }

  /** The operations of a run, as a listing reads them. */
  function Listed(ops: seq<Operation>, name: Naming): seq<Statuses.Operation> {
    seq(|ops|, k requires 0 <= k < |ops| =>
      Statuses.Operation(name(k), KindOf(ops[k].kind), name(ops[k].settles), ops[k].reversedAmount))
  }

  function RowOf(e: Entry, name: Naming): Statuses.Row {
    Statuses.Row(name(e.operation), if e.settled then 1 else 0, e.amount)
  }

  /** What happened to an entry: one that waits was confirmed, or voided, or pends still; one that counts
      was reversed, whole or by parts that add up to its amount, or in part, or settled for good. */
  function StatusOf(b: Books, e: Entry): Statuses.Status
    requires e.operation < |b.ops|
  {
    var o := e.operation;
    if !e.settled then
      if !Never(b.ops, Confirmation, o) then Statuses.Confirmed
      else if b.ops[o].kind == Voided || !Never(b.ops, Voided, o) then Statuses.Status.Voided
      else Statuses.Pending
    else
      var parts := PartsOf(b.t, b.ops, o);
      if !Never(b.ops, Reversal, o) || (parts > 0 && parts == e.amount) then Statuses.Reversed
      else if parts > 0 then Statuses.PartiallyReversed
      else Statuses.Status.Settled
  }

  lemma SettledByThem(b: Books, name: Naming, o: nat, kind: OperationKind)
    requires InOrder(b) && Names(name) && SettlesAnother(kind)
    ensures Statuses.SettledBy(Listed(b.ops, name), name(o), KindOf(kind)) <==> !Never(b.ops, kind, o)
  {
    var ops := Listed(b.ops, name);
    forall k | 0 <= k < |ops|
      ensures Statuses.Settles(ops[k], name(o), KindOf(kind)) <==> b.ops[k].settles == o && b.ops[k].kind == kind
    {
      assert NamedWell(b.ops, k);
    }
    if !Never(b.ops, kind, o) {
      var k :| 0 <= k < |b.ops| && b.ops[k].settles == o && b.ops[k].kind == kind;
      assert Statuses.Settles(ops[k], name(o), KindOf(kind));
    }
  }

  /** An entry that counts, of an operation given back in part, is of the amount that bounds the parts. */
  lemma PartsOfAnEntry(b: Books, e: Entry)
    requires InOrder(b) && e in b.t.entries && e.operation < |b.ops| && e.settled
    ensures 0 <= PartsOf(b.t, b.ops, e.operation)
    ensures PartsOf(b.t, b.ops, e.operation) > 0 ==> PartsOf(b.t, b.ops, e.operation) <= e.amount
    ensures Never(b.ops, Reversal, e.operation) ==>
              b.ops[e.operation].reversedAmount == PartsOf(b.t, b.ops, e.operation)
  {
    var o := e.operation;
    assert PartsAt(b, o);
    assert Reversed(b.ops, o) <==> !Never(b.ops, Reversal, o);
    EntriesOfAreAll(b.t.entries, o, e);
    if WholeOf(b.t, o).Some? {
      WholeIsPositive(b, o);
      SettledAmounts(EntriesOf(b.t.entries, o), WholeOf(b.t, o).value);
    }
  }

  lemma AnswersWhatHappened(b: Books, name: Naming, e: Entry, status: Statuses.Status)
    requires InOrder(b) && Names(name) && e in b.t.entries && e.operation < |b.ops|
    ensures var ops := Listed(b.ops, name);
            Statuses.Condition(status, RowOf(e, name), ops[e.operation], ops) <==> status == StatusOf(b, e)
  {
    SettledByThem(b, name, e.operation, Confirmation);
    SettledByThem(b, name, e.operation, Voided);
    SettledByThem(b, name, e.operation, Reversal);
    if e.settled {
      PartsOfAnEntry(b, e);
    }
  }

  /** Over every run: the status a listing answers of an entry is what happened to it; a filter keeps it
      exactly for that status; and its operation is always there. */
  lemma {:induction false} AListingSaysWhatHappened(steps: seq<Step>, name: Naming, e: Entry, status: Statuses.Status)
    requires Names(name) && e in Run(EMPTY, steps).t.entries
    ensures e.operation < |Run(EMPTY, steps).ops|
    ensures var b := Run(EMPTY, steps);
            var row, ops := RowOf(e, name), Listed(b.ops, name);
            && Statuses.Table(ops) && Statuses.Known(row, ops)
            && (Statuses.Derived(row, ops, status) <==> status == StatusOf(b, e))
            && (Statuses.Clause(status, row, ops) <==> status == StatusOf(b, e))
  {
    var b := Run(EMPTY, steps);
    EveryRunIsInOrder(steps);
    AsAnswered(b, name, e, status);
  }

  lemma AsAnswered(b: Books, name: Naming, e: Entry, status: Statuses.Status)
    requires InOrder(b) && Names(name) && e in b.t.entries
    ensures e.operation < |b.ops|
    ensures var row, ops := RowOf(e, name), Listed(b.ops, name);
            && Statuses.Table(ops) && Statuses.Known(row, ops)
            && (Statuses.Derived(row, ops, status) <==> status == StatusOf(b, e))
            && (Statuses.Clause(status, row, ops) <==> status == StatusOf(b, e))
  {
    var row, ops := RowOf(e, name), Listed(b.ops, name);
    assert ops[e.operation].id == row.operation;
    Statuses.NamedIs(ops, e.operation);
    assert ops[e.operation].(id := row.operation) == ops[e.operation];
    AnswersWhatHappened(b, name, e, status);
    Statuses.FilterKeepsWhatAnswers(row, ops, status);
  }
}
