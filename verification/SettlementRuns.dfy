/** Every operation is settled at most once, over every run of operations and of what settles them
    (attempt of commit.go, Reverse and Confirm of movement.go, undo.go). */
module SettlementRuns {
  import opened Outcome
  import opened Tables
  import opened Apply
  import Ledger
  import opened Settlements

  datatype OperationKind =
    | Deposited | Withdrawn | Transferred | Exchanged | Adjusted | Purchased | Refunded
    | Reversal | PartialReversal | Confirmation | Voided

  predicate Ordinary(kind: OperationKind) {
    kind != Reversal && kind != PartialReversal && kind != Confirmation && kind != Voided
  }

  /** Settling another operation, under the unique index. */
  predicate SettlesAnother(kind: OperationKind) {
    kind == Reversal || kind == Confirmation || kind == Voided
  }

  predicate Resolves(kind: OperationKind) {
    kind == Confirmation || kind == Voided
  }

  /** An operation's row: reversedAmount and resolvedBy are the only columns that ever change. */
  datatype Operation = Operation(kind: OperationKind, settles: nat, refers: Option<nat>, reversedAmount: int,
      resolvedBy: Option<nat>)

  datatype Books = Books(t: Tables, ops: seq<Operation>)

  datatype Step =
    | Act(kind: OperationKind, step: Ledger.Step)
    | Reverse(operation: nat)
    | ReversePart(operation: nat, amount: Ledger.Quantity, force: bool)
    | Confirm(operation: nat, force: bool)
    | Void(operation: nat)

  // ---------------------------------------------------------------- what each call does

  predicate Taken(ops: seq<Operation>, kind: OperationKind, settles: nat) {
    exists k :: 0 <= k < |ops| && ops[k].kind == kind && ops[k].settles == settles
  }

  /** An operation and its movements in one transaction, where the unique index lets it in; one that
      names nothing settles itself. */
  function Commit(b: Books, kind: OperationKind, settles: Option<nat>, refers: Option<nat>,
      movements: seq<Movement>): Option<Books>
  {
    var named := if settles.Some? then settles.value else |b.ops|;
    if Taken(b.ops, kind, named) then None
    else
      var w := Ledger.Written(b.t, movements);
      if w.None? then None else Some(Books(w.value, b.ops + [Operation(kind, named, refers, 0, None)]))
  }

  /** reversibleInPart: the one amount every settled entry moved, between wallets counted the same way. */
  function Whole(wallets: seq<Wallet>, movements: seq<Movement>): Option<int> {
    if movements != [] && (forall k | 0 <= k < |movements| ::
         && movements[k].amount == movements[0].amount
         && movements[k].wallet < |wallets| && movements[0].wallet < |wallets|
         && wallets[movements[k].wallet].unit == wallets[movements[0].wallet].unit)
    then Some(movements[0].amount) else None
  }

  function WholeOf(t: Tables, operation: nat): Option<int> {
    Whole(t.wallets, Mirror(EntriesOf(t.entries, operation)))
  }

  predicate AllWait(es: seq<Entry>) {
    forall k | 0 <= k < |es| :: !es[k].settled
  }

  function Answer(b: Books, step: Step): Option<Books> {
    match step
    case Act(kind, act) =>
      if Ledger.Writes(act) && (!Ordinary(kind) || Taken(b.ops, kind, |b.ops|)) then None
      else
        var a := Ledger.Answer(b.t, act);
        if a.None? then None
        else Some(Books(a.value,
          if Ledger.Writes(act) then b.ops + [Operation(kind, |b.ops|, None, 0, None)] else b.ops))
    case Reverse(o) =>
      if o >= |b.ops| || b.ops[o].kind in {Reversal, PartialReversal, Voided, Purchased, Refunded} then None
      else
        var movements := Mirror(EntriesOf(b.t.entries, o));
        var c := Commit(b, Reversal, Some(o), None, movements);
        if movements == [] || c.None? then None
        else
          var whole := WholeOf(b.t, o);
          if whole.None? then c
          else if b.ops[o].reversedAmount != 0 then None
          else Some(c.value.(ops := c.value.ops[o := b.ops[o].(reversedAmount := whole.value)]))
    case ReversePart(o, amount, force) =>
      if o >= |b.ops| || amount == 0
         || b.ops[o].kind in {Reversal, PartialReversal, Voided, Purchased, Refunded, Exchanged, Adjusted} then None
      else
        var whole := WholeOf(b.t, o);
        var c := Commit(b, PartialReversal, None, Some(o), Part(EntriesOf(b.t.entries, o), amount, force));
        if whole.None? || c.None? || b.ops[o].reversedAmount > whole.value - amount then None
        else Some(c.value.(ops := c.value.ops[o := b.ops[o].(reversedAmount := b.ops[o].reversedAmount + amount)]))
    case Confirm(o, force) =>
      if o >= |b.ops| || b.ops[o].kind == Voided then None
      else
        var movements := Settling(EntriesOf(b.t.entries, o), force);
        var c := Commit(b, Confirmation, Some(o), None, movements);
        if movements == [] || c.None? || b.ops[o].resolvedBy.Some? then None
        else Some(c.value.(ops := c.value.ops[o := b.ops[o].(resolvedBy := Some(|b.ops|))]))
    case Void(o) =>
      if o >= |b.ops| || b.ops[o].kind == Voided then None
      else
        var es := EntriesOf(b.t.entries, o);
        var c := Commit(b, Voided, Some(o), None, Withdrawing(es));
        if es == [] || !AllWait(es) || c.None? || b.ops[o].resolvedBy.Some? then None
        else Some(c.value.(ops := c.value.ops[o := b.ops[o].(resolvedBy := Some(|b.ops|))]))
  }

  function Perform(b: Books, step: Step): Books {
    var a := Answer(b, step);
    if a.None? then b else a.value
  }

  function Run(b: Books, steps: seq<Step>): Books {
    if steps == [] then b else Perform(Run(b, steps[..|steps| - 1]), steps[|steps| - 1])
  }

  const EMPTY := Books(Tables([], [], [], 0), [])

  // ---------------------------------------------------------------- what a step leaves alone

  /** What is never changed of an operation's row. */
  predicate SameName(a: Operation, b: Operation) {
    a.kind == b.kind && a.settles == b.settles && a.refers == b.refers
  }

  predicate Based(b: Books) {
    && |b.ops| == b.t.operations && EntriesKnown(b.t)
    && (forall k | 0 <= k < |b.t.entries| :: b.t.entries[k].amount >= 0)
  }

  /** A later state: operations keep their names and their entries, a resolved one stays resolved. */
  predicate Extends(b: Books, c: Books) {
    && |b.ops| <= |c.ops|
    && (forall k {:trigger c.ops[k]} | 0 <= k < |b.ops| :: SameName(b.ops[k], c.ops[k]))
    && (forall k {:trigger c.ops[k]} | 0 <= k < |b.ops| && b.ops[k].resolvedBy.Some? ::
       c.ops[k].resolvedBy == b.ops[k].resolvedBy)
    && (forall o: nat {:trigger OfOperation(c.t.entries, o)} | o < |b.ops| ::
       OfOperation(c.t.entries, o) == OfOperation(b.t.entries, o))
    && (forall o: nat {:trigger WholeOf(c.t, o)} | o < |b.ops| :: WholeOf(c.t, o) == WholeOf(b.t, o))
  }

  predicate SameUnits(t: Tables, u: Tables) {
    |t.wallets| <= |u.wallets| && forall w | 0 <= w < |t.wallets| :: u.wallets[w].unit == t.wallets[w].unit
  }

  lemma {:induction false} ApplyKeepsUnits(wallets: seq<Wallet>, operation: nat, queue: seq<Placed>)
    requires ApplyAll(wallets, operation, queue).Some?
    ensures var a := ApplyAll(wallets, operation, queue).value;
            |a.wallets| == |wallets| && forall w | 0 <= w < |wallets| :: a.wallets[w].unit == wallets[w].unit
  {
    if queue != [] {
      ApplyKeepsUnits(wallets, operation, queue[..|queue| - 1]);
    }
  }

  lemma WrittenKeepsUnits(t: Tables, movements: seq<Movement>)
    requires Ledger.Written(t, movements).Some?
    ensures SameUnits(t, Ledger.Written(t, movements).value)
  {
    ApplyKeepsUnits(t.wallets, t.operations, InLockOrder(PlacedFrom(movements)));
  }

  /** The settled entries of an operation are on wallets there are. */
  lemma {:induction false} MirrorIsKnown(es: seq<Entry>, n: nat)
    requires forall k | 0 <= k < |es| :: es[k].wallet < n
    ensures forall k | 0 <= k < |Mirror(es)| :: Mirror(es)[k].wallet < n
  {
    if es != [] {
      MirrorIsKnown(es[..|es| - 1], n);
    }
  }

  lemma EntriesOfAreIts(entries: seq<Entry>, o: nat)
    ensures forall k | 0 <= k < |EntriesOf(entries, o)| :: EntriesOf(entries, o)[k] in entries
  {
    var es := EntriesOf(entries, o);
    OfOperationAreIts(entries, o);
    SumByPosition(OfOperation(entries, o), 0, true);
    forall k | 0 <= k < |es| ensures es[k] in entries {
      assert es[k] in multiset(OfOperation(entries, o));
    }
  }

  lemma WholeIsKept(t: Tables, u: Tables, o: nat)
    requires EntriesKnown(t) && SameUnits(t, u) && OfOperation(u.entries, o) == OfOperation(t.entries, o)
    ensures WholeOf(u, o) == WholeOf(t, o)
  {
    var es := EntriesOf(t.entries, o);
    EntriesOfAreIts(t.entries, o);
    MirrorIsKnown(es, |t.wallets|);
  }

  /** Committing an operation extends the books by one. */
  lemma CommitExtends(b: Books, u: Tables, movements: seq<Movement>, ops: seq<Operation>)
    requires Based(b) && Ledger.Written(b.t, movements) == Some(u)
    requires |ops| == |b.ops| + 1 && forall k | 0 <= k < |b.ops| :: SameName(b.ops[k], ops[k])
    requires forall k | 0 <= k < |b.ops| && b.ops[k].resolvedBy.Some? :: ops[k].resolvedBy == b.ops[k].resolvedBy
    requires forall k | 0 <= k < |movements| :: movements[k].amount >= 0
    ensures Based(Books(u, ops)) && Extends(b, Books(u, ops))
  {
    WrittenKnown(b.t, movements);
    WrittenKeepsTheOthers(b.t, movements);
    WrittenKeepsUnits(b.t, movements);
    WrittenIsPositive(b.t, movements);
    forall o: nat | o < |b.ops| ensures WholeOf(u, o) == WholeOf(b.t, o) {
      WholeIsKept(b.t, u, o);
    }
  }

  lemma WrittenIsPositive(t: Tables, movements: seq<Movement>)
    requires Ledger.Written(t, movements).Some? && forall k | 0 <= k < |movements| :: movements[k].amount >= 0
    requires forall k | 0 <= k < |t.entries| :: t.entries[k].amount >= 0
    ensures var u := Ledger.Written(t, movements).value; forall k | 0 <= k < |u.entries| :: u.entries[k].amount >= 0
  {
    var order := InLockOrder(PlacedFrom(movements));
    LockOrderIsOrdered(PlacedFrom(movements));
    var more := WrittenRows(t, movements, order);
    forall k | 0 <= k < |more| ensures more[k].amount >= 0 {
      assert RecordedAs(more[k], t.operations, order[k]);
      Ledger.InTheQueue(movements, order, k);
    }
  }

  lemma {:induction false} SettlingMovementsArePositive(es: seq<Entry>, amount: int, force: bool)
    requires amount >= 0 && forall k | 0 <= k < |es| :: es[k].amount >= 0
    ensures forall k | 0 <= k < |Mirror(es)| :: Mirror(es)[k].amount >= 0
    ensures forall k | 0 <= k < |Part(es, amount, force)| :: Part(es, amount, force)[k].amount >= 0
    ensures forall k | 0 <= k < |Settling(es, force)| :: Settling(es, force)[k].amount >= 0
    ensures forall k | 0 <= k < |Withdrawing(es)| :: Withdrawing(es)[k].amount >= 0
  {
    if es != [] {
      SettlingMovementsArePositive(es[..|es| - 1], amount, force);
    }
  }

  /** The movements of a step that writes. */
  function MovementsOf(b: Books, step: Step): seq<Movement> {
    match step
    case Act(_, act) => if Ledger.Writes(act) && Ledger.MayWrite(b.t, act) then Ledger.MovementsOf(b.t, act) else []
    case Reverse(o) => Mirror(EntriesOf(b.t.entries, o))
    case ReversePart(o, amount, force) => Part(EntriesOf(b.t.entries, o), amount, force)
    case Confirm(o, force) => Settling(EntriesOf(b.t.entries, o), force)
    case Void(o) => Withdrawing(EntriesOf(b.t.entries, o))
  }

  /** A step that passes and writes an operation. */
  predicate Writes(b: Books, step: Step) {
    Answer(b, step).Some? && (step.Act? ==> Ledger.Writes(step.step))
  }

  /** What an operation that was written is called. */
  function Named(b: Books, step: Step): Operation {
    match step
    case Act(kind, _) => Operation(kind, |b.ops|, None, 0, None)
    case Reverse(o) => Operation(Reversal, o, None, 0, None)
    case ReversePart(o, _, _) => Operation(PartialReversal, |b.ops|, Some(o), 0, None)
    case Confirm(o, _) => Operation(Confirmation, o, None, 0, None)
    case Void(o) => Operation(Voided, o, None, 0, None)
  }

  /** What a step marks on the operation it names. */
  function Marked(b: Books, step: Step, k: nat): Operation
    requires k < |b.ops|
  {
    var op := b.ops[k];
    match step
    case Reverse(o) => if o == k && WholeOf(b.t, o).Some? then op.(reversedAmount := WholeOf(b.t, o).value) else op
    case ReversePart(o, amount, _) => if o == k then op.(reversedAmount := op.reversedAmount + amount) else op
    case Confirm(o, _) => if o == k then op.(resolvedBy := Some(|b.ops|)) else op
    case Void(o) => if o == k then op.(resolvedBy := Some(|b.ops|)) else op
    case _ => op
  }

  /** What a step that writes leaves: its movements written, its operation named, one other marked. */
  predicate WrittenAs(b: Books, step: Step, c: Books) {
    var movements := MovementsOf(b, step);
    && Ledger.Written(b.t, movements).Some?
    && c.t == Ledger.Written(b.t, movements).value.(holds := c.t.holds)
    && |c.ops| == |b.ops| + 1 && c.ops[|b.ops|] == Named(b, step)
    && !Taken(b.ops, Named(b, step).kind, Named(b, step).settles)
    && (forall k {:trigger c.ops[k]} {:trigger Marked(b, step, k)} | 0 <= k < |b.ops| :: c.ops[k] == Marked(b, step, k))
  }

  lemma WhatIsWritten(b: Books, step: Step)
    requires Based(b) && Writes(b, step)
    ensures WrittenAs(b, step, Answer(b, step).value)
  {
    match step
    case Act(_, _) =>
    case Reverse(o) => ReversalIsWritten(b, step);
    case ReversePart(o, amount, force) => PartIsWritten(b, step);
    case Confirm(o, force) => ConfirmationIsWritten(b, step);
    case Void(o) => VoidIsWritten(b, step);
  }

  lemma ReversalIsWritten(b: Books, step: Step)
    requires step.Reverse? && Writes(b, step)
    ensures WrittenAs(b, step, Answer(b, step).value)
  {
    var o, c := step.operation, Answer(b, step).value;
    var whole := WholeOf(b.t, o);
    forall k | 0 <= k < |b.ops| ensures c.ops[k] == Marked(b, step, k) {
      assert whole.None? || k != o ==> c.ops[k] == b.ops[k];
    }
  }

  lemma PartIsWritten(b: Books, step: Step)
    requires step.ReversePart? && Writes(b, step)
    ensures WrittenAs(b, step, Answer(b, step).value)
  {
  }

  lemma ConfirmationIsWritten(b: Books, step: Step)
    requires step.Confirm? && Writes(b, step)
    ensures WrittenAs(b, step, Answer(b, step).value)
  {
  }

  lemma VoidIsWritten(b: Books, step: Step)
    requires step.Void? && Writes(b, step)
    ensures WrittenAs(b, step, Answer(b, step).value)
  {
  }

  /** The step itself, where it writes, or one that leaves the operations and their entries alone. */
  lemma StepExtends(b: Books, step: Step)
    requires Based(b) && Resolvable(b, step)
    ensures Based(Perform(b, step)) && Extends(b, Perform(b, step))
  {
    if Writes(b, step) {
      var c := Answer(b, step).value;
      WhatIsWritten(b, step);
      MovementsArePositive(b, step);
      CommitExtends(b, Ledger.Written(b.t, MovementsOf(b, step)).value, MovementsOf(b, step), c.ops);
      var u := Ledger.Written(b.t, MovementsOf(b, step)).value;
      assert c.t.entries == u.entries && c.t.wallets == u.wallets;
      assert forall o: nat :: WholeOf(c.t, o) == WholeOf(u, o);
    } else if Answer(b, step).Some? {
      RowsExtend(b, Perform(b, step));
    }
  }

  /** A step that marks an operation as resolved finds it not resolved yet. */
  predicate Resolvable(b: Books, step: Step) {
    Writes(b, step) && (step.Confirm? || step.Void?) ==>
      step.operation < |b.ops| && b.ops[step.operation].resolvedBy.None?
  }

  lemma EveryStepIsResolvable(b: Books, step: Step)
    ensures Resolvable(b, step)
  {
  }

  lemma MovementsArePositive(b: Books, step: Step)
    requires Based(b)
    ensures forall k | 0 <= k < |MovementsOf(b, step)| :: MovementsOf(b, step)[k].amount >= 0
  {
    if !step.Act? {
      var amount := if step.ReversePart? then step.amount else 0;
      var force := if step.ReversePart? || step.Confirm? then step.force else false;
      EntriesOfAreIts(b.t.entries, step.operation);
      SettlingMovementsArePositive(EntriesOf(b.t.entries, step.operation), amount, force);
    }
  }

  lemma RowsExtend(b: Books, c: Books)
    requires Based(b) && c.ops == b.ops && c.t.entries == b.t.entries && c.t.operations == b.t.operations
             && SameUnits(b.t, c.t)
    ensures Based(c) && Extends(b, c)
  {
    forall o: nat ensures WholeOf(c.t, o) == WholeOf(b.t, o) {
      WholeIsKept(b.t, c.t, o);
    }
  }

  // ---------------------------------------------------------------- the names of operations

  /** What an operation may name: another before it, or itself. */
  predicate NamedWell(ops: seq<Operation>, k: nat)
    requires k < |ops|
  {
    var op := ops[k];
    && (if SettlesAnother(op.kind) then op.settles < k else op.settles == k)
    && (if op.kind == PartialReversal then op.refers.Some? && op.refers.value < k else op.refers.None?)
    && (op.kind == Reversal ==> Reversible(ops[op.settles].kind))
    && (op.kind == PartialReversal ==> Partable(ops[op.refers.value].kind))
    && (Resolves(op.kind) ==> ops[op.settles].kind != Voided)
  }

  /** What can be undone: nothing that undid something itself, and no basket, which is refunded. */
  predicate Reversible(kind: OperationKind) {
    match kind
    case Deposited => true
    case Withdrawn => true
    case Transferred => true
    case Exchanged => true
    case Adjusted => true
    case Confirmation => true
    case _ => false
  }

  /** And in part: nothing that moved more than one amount by its nature, nor a repair. */
  predicate Partable(kind: OperationKind) {
    Reversible(kind) && kind != Exchanged && kind != Adjusted
  }

  /** The unique index. */
  predicate Unique(ops: seq<Operation>) {
    forall j, k | 0 <= j < k < |ops| :: ops[j].kind != ops[k].kind || ops[j].settles != ops[k].settles
  }

  /** The mark of an operation and the confirmation or the void that made it name each other. */
  predicate ResolvedWell(ops: seq<Operation>, k: nat)
    requires k < |ops|
  {
    var op := ops[k];
    && (op.resolvedBy.Some? ==>
          var last := op.resolvedBy.value;
          k < last < |ops| && Resolves(ops[last].kind) && ops[last].settles == k)
    && (Resolves(op.kind) ==> op.settles < |ops| && ops[op.settles].resolvedBy == Some(k))
  }

  predicate AllNamedWell(ops: seq<Operation>) {
    && Unique(ops)
    && (forall k {:trigger NamedWell(ops, k)} | 0 <= k < |ops| :: NamedWell(ops, k))
    && (forall k {:trigger ResolvedWell(ops, k)} | 0 <= k < |ops| :: ResolvedWell(ops, k))
  }

  /** One operation more, and the one it resolves, if it resolves one, not resolved before. */
  lemma OneMoreNamedWell(before: seq<Operation>, after: seq<Operation>)
    requires AllNamedWell(before) && |after| == |before| + 1 && NamedWell(after, |before|)
    requires var last := after[|before|]; last.resolvedBy.None? && !Taken(before, last.kind, last.settles)
    requires var last := after[|before|];
             Resolves(last.kind) ==> last.settles < |before| && before[last.settles].resolvedBy.None?
    requires var last := after[|before|];
             forall k | 0 <= k < |before| ::
               && SameName(before[k], after[k])
               && after[k].resolvedBy == if Resolves(last.kind) && last.settles == k then Some(|before|)
                  else before[k].resolvedBy
    ensures AllNamedWell(after)
  {
    forall k | 0 <= k < |before| ensures NamedWell(after, k) && ResolvedWell(after, k) {
      assert NamedWell(before, k) && ResolvedWell(before, k);
    }
  }

  lemma StepNamesWell(b: Books, step: Step, c: Books)
    requires Based(b) && AllNamedWell(b.ops) && WrittenAs(b, step, c) && Resolvable(b, step) && Writes(b, step)
    ensures AllNamedWell(c.ops)
  {
    StepIsInPlace(b, step);
    forall k | 0 <= k < |b.ops|
      ensures SameName(b.ops[k], c.ops[k])
      ensures c.ops[k].resolvedBy == if (step.Confirm? || step.Void?) && step.operation == k then Some(|b.ops|)
              else b.ops[k].resolvedBy
    {
      assert c.ops[k] == Marked(b, step, k);
    }
    OneMoreNamedWell(b.ops, c.ops);
  }

  /** A step that settles another operation, or gives part of it back, names one there is; an act is
      ordinary. */
  lemma StepIsInPlace(b: Books, step: Step)
    requires Writes(b, step)
    ensures if step.Act? then Ordinary(step.kind) else step.operation < |b.ops|
    ensures step.Reverse? ==> Reversible(b.ops[step.operation].kind)
    ensures step.ReversePart? ==> Partable(b.ops[step.operation].kind)
    ensures step.Confirm? || step.Void? ==> b.ops[step.operation].kind != Voided
  {
  }

  // ---------------------------------------------------------------- what was given back in part

  /** What a partial reversal gave back: the amount its entries carry. */
  function Gave(t: Tables, k: nat): int {
    var es := EntriesOf(t.entries, k);
    if es == [] then 0 else es[0].amount
  }

  /** What the partial reversals of an operation gave back in all. */
  function PartsOf(t: Tables, ops: seq<Operation>, o: nat): int {
    if ops == [] then 0
    else
      var n := |ops| - 1;
      PartsOf(t, ops[..n], o) + if ops[n].refers == Some(o) then Gave(t, n) else 0
  }

  predicate Reversed(ops: seq<Operation>, o: nat) {
    Taken(ops, Reversal, o)
  }

  /** The column of an operation that can be reversed in part: what its parts gave back, which is at
      most the whole; or the whole, when it was reversed whole, and then no part of it was given back. */
  predicate PartsAt(b: Books, o: nat)
    requires o < |b.ops|
  {
    var whole, given, parts := WholeOf(b.t, o), b.ops[o].reversedAmount, PartsOf(b.t, b.ops, o);
    if whole.None? then given == 0 && parts == 0
    else 0 <= given <= whole.value && if Reversed(b.ops, o) then given == whole.value && parts == 0 else given == parts
  }

  lemma {:induction false} PartsAreKept(b: Books, c: Books, o: nat, n: nat)
    requires n <= |b.ops| <= |c.ops| && Extends(b, c)
    ensures PartsOf(c.t, c.ops[..n], o) == PartsOf(b.t, b.ops[..n], o)
  {
    if n > 0 {
      PartsAreKept(b, c, o, n - 1);
      assert c.ops[..n][..n - 1] == c.ops[..n - 1] && b.ops[..n][..n - 1] == b.ops[..n - 1];
      assert SameName(b.ops[n - 1], c.ops[n - 1]);
      assert OfOperation(c.t.entries, n - 1) == OfOperation(b.t.entries, n - 1);
    }
  }

  lemma PartsOfOneMore(b: Books, c: Books, o: nat)
    requires Extends(b, c) && |c.ops| == |b.ops| + 1
    ensures PartsOf(c.t, c.ops, o) == PartsOf(b.t, b.ops, o) + if c.ops[|b.ops|].refers == Some(o)
            then Gave(c.t, |b.ops|) else 0
  {
    PartsAreKept(b, c, o, |b.ops|);
    assert c.ops[..|b.ops|] == c.ops[..|c.ops| - 1] && b.ops[..|b.ops|] == b.ops;
  }

  lemma {:induction false} SettledAmounts(es: seq<Entry>, whole: int)
    requires forall k | 0 <= k < |Mirror(es)| :: Mirror(es)[k].amount == whole
    ensures forall k | 0 <= k < |es| && es[k].settled :: es[k].amount == whole
  {
    if es != [] {
      var head, e := es[..|es| - 1], es[|es| - 1];
      assert forall k | 0 <= k < |Mirror(head)| :: Mirror(es)[k] == Mirror(head)[k];
      if e.settled {
        assert Mirror(es)[|Mirror(head)|].amount == e.amount;
      }
      SettledAmounts(head, whole);
      assert forall k | 0 <= k < |head| :: es[k] == head[k];
    }
  }

  /** The entries of a partial reversal carry its amount. */
  lemma PartGives(b: Books, step: Step, c: Books)
    requires Based(b) && step.ReversePart? && WrittenAs(b, step, c) && WholeOf(b.t, step.operation).Some?
    ensures Gave(c.t, |b.ops|) == step.amount
  {
    var es := EntriesOf(b.t.entries, step.operation);
    PartAmounts(es, step.amount, step.force);
    WrittenAmounts(b.t, MovementsOf(b, step), step.amount);
  }

  lemma WholeIsPositive(b: Books, o: nat)
    requires Based(b) && WholeOf(b.t, o).Some?
    ensures WholeOf(b.t, o).value >= 0
  {
    EntriesOfAreIts(b.t.entries, o);
    SettlingMovementsArePositive(EntriesOf(b.t.entries, o), 0, false);
  }

  lemma ReversedByAStep(b: Books, step: Step, c: Books, o: nat)
    requires WrittenAs(b, step, c) && Writes(b, step)
    ensures Reversed(c.ops, o) <==> Reversed(b.ops, o) || (step.Reverse? && step.operation == o)
  {
    StepIsInPlace(b, step);
    forall k | 0 <= k < |b.ops| ensures SameName(b.ops[k], c.ops[k]) {
      assert c.ops[k] == Marked(b, step, k);
    }
    ReversedWithOneMore(b.ops, c.ops, o);
  }

  lemma ReversedWithOneMore(before: seq<Operation>, after: seq<Operation>, o: nat)
    requires |after| == |before| + 1 && forall k | 0 <= k < |before| :: SameName(before[k], after[k])
    ensures var last := after[|before|];
            Reversed(after, o) <==> Reversed(before, o) || (last.kind == Reversal && last.settles == o)
  {
    if Reversed(before, o) {
      var k :| 0 <= k < |before| && before[k].kind == Reversal && before[k].settles == o;
      assert after[k].kind == Reversal && after[k].settles == o;
    }
    if Reversed(after, o) {
      var k :| 0 <= k < |after| && after[k].kind == Reversal && after[k].settles == o;
      assert k < |before| ==> before[k].kind == Reversal && before[k].settles == o;
    }
  }

  /** What a step that gives back asks of the column it raises. */
  lemma StepAsksTheColumn(b: Books, step: Step)
    requires Writes(b, step)
    ensures step.Reverse? && WholeOf(b.t, step.operation).Some? ==>
            step.operation < |b.ops| && b.ops[step.operation].reversedAmount == 0
    ensures step.ReversePart? ==>
              && step.operation < |b.ops| && step.amount > 0 && WholeOf(b.t, step.operation).Some?
              && b.ops[step.operation].reversedAmount <= WholeOf(b.t, step.operation).value - step.amount
  {
  }

  lemma StepKeepsParts(b: Books, step: Step, c: Books, o: nat)
    requires Based(b) && Based(c) && Extends(b, c) && WrittenAs(b, step, c) && Writes(b, step)
    requires o < |b.ops| && PartsAt(b, o)
    ensures PartsAt(c, o)
  {
    StepAsksTheColumn(b, step);
    ReversedByAStep(b, step, c, o);
    PartsOfOneMore(b, c, o);
    assert WholeOf(c.t, o) == WholeOf(b.t, o) && c.ops[o] == Marked(b, step, o);
    if WholeOf(b.t, o).Some? {
      WholeIsPositive(b, o);
      if step.ReversePart? && step.operation == o {
        PartGives(b, step, c);
      }
    }
  }

  /** A new operation was given nothing back of. */
  lemma {:induction false} NoPartsYet(t: Tables, ops: seq<Operation>, o: nat, n: nat)
    requires n <= |ops| && o >= n && forall k | 0 <= k < n :: NamedWell(ops, k)
    ensures PartsOf(t, ops[..n], o) == 0
  {
    if n > 0 {
      assert NamedWell(ops, n - 1);
      NoPartsYet(t, ops, o, n - 1);
      assert ops[..n][..n - 1] == ops[..n - 1];
    }
  }

  lemma {:induction false} NewHasNoParts(b: Books, step: Step, c: Books)
    requires Based(c) && WrittenAs(b, step, c) && AllNamedWell(c.ops)
    ensures PartsAt(c, |b.ops|)
  {
    var n := |b.ops|;
    forall k | 0 <= k < |c.ops| ensures NamedWell(c.ops, k) && !(c.ops[k].kind == Reversal && c.ops[k].settles == n) {
      assert NamedWell(c.ops, k);
    }
    NoPartsYet(c.t, c.ops, n, n);
    assert c.ops[..n] == c.ops[..|c.ops| - 1];
    if WholeOf(c.t, n).Some? {
      WholeIsPositive(c, n);
    }
  }

  // ---------------------------------------------------------------- what settling undoes

  lemma {:induction false} NothingCounts(es: seq<Entry>, w: nat)
    requires AllWait(es)
    ensures Sum(es, w, true) == 0
  {
    if es != [] {
      NothingCounts(es[..|es| - 1], w);
    }
  }

  /** What an operation's entries on a wallet are to those of the one it settles: the opposite of what
      counted, a share of it, what waited now counting, or what waited withdrawn. */
  predicate Undoes(b: Books, k: nat, w: nat)
    requires k < |b.ops|
  {
    var op, mine := b.ops[k], OfOperation(b.t.entries, k);
    match op.kind
    case Reversal => Sum(mine, w, true) + Sum(OfOperation(b.t.entries, op.settles), w, true) == 0
    case PartialReversal =>
      op.refers.Some? && WholeOf(b.t, op.refers.value).Some?
      && IsShare(Sum(mine, w, true), Sum(OfOperation(b.t.entries, op.refers.value), w, true), Gave(b.t, k),
         WholeOf(b.t, op.refers.value).value)
    case Confirmation => Sum(mine, w, true) == Sum(OfOperation(b.t.entries, op.settles), w, false)
    case Voided =>
      && Sum(mine, w, true) == 0 == Sum(OfOperation(b.t.entries, op.settles), w, true)
      && Sum(mine, w, false) + Sum(OfOperation(b.t.entries, op.settles), w, false) == 0
    case _ => true
  }

  lemma KeepsUndone(b: Books, c: Books, k: nat, w: nat)
    requires Extends(b, c) && k < |b.ops| && NamedWell(b.ops, k) && Undoes(b, k, w)
    ensures Undoes(c, k, w)
  {
    var op := b.ops[k];
    assert SameName(op, c.ops[k]);
    assert OfOperation(c.t.entries, k) == OfOperation(b.t.entries, k);
    if SettlesAnother(op.kind) {
      assert OfOperation(c.t.entries, op.settles) == OfOperation(b.t.entries, op.settles);
    } else if op.kind == PartialReversal {
      var o := op.refers.value;
      assert OfOperation(c.t.entries, o) == OfOperation(b.t.entries, o) && WholeOf(c.t, o) == WholeOf(b.t, o);
    }
  }

  lemma VoidAsksThatAllWait(b: Books, step: Step)
    requires Writes(b, step) && step.Void?
    ensures AllWait(EntriesOf(b.t.entries, step.operation))
  {
  }

  /** What was written for a step, on one wallet, is its movements. */
  lemma {:induction false} WrittenForAStep(b: Books, step: Step, c: Books, w: nat, counts: bool)
    requires Based(b) && WrittenAs(b, step, c)
    ensures Sum(OfOperation(c.t.entries, |b.ops|), w, counts) == Moves(PlacedFrom(MovementsOf(b, step)), w, counts)
  {
    WrittenAddsUpTo(b.t, MovementsOf(b, step), w, counts);
  }

  lemma NewUndoes(b: Books, step: Step, c: Books, w: nat)
    requires Based(b) && Extends(b, c) && WrittenAs(b, step, c) && Writes(b, step)
    ensures Undoes(c, |b.ops|, w)
  {
    StepIsInPlace(b, step);
    if !step.Act? {
      var o := step.operation;
      var its, es := OfOperation(b.t.entries, o), EntriesOf(b.t.entries, o);
      assert OfOperation(c.t.entries, o) == its;
      WrittenForAStep(b, step, c, w, true);
      WrittenForAStep(b, step, c, w, false);
      SumByPosition(its, w, true);
      SumByPosition(its, w, false);
      match step
      case Reverse(_) => MirrorUndoes(es, w);
      case ReversePart(_, _, _) => NewPartIsAShare(b, step, c, w);
      case Confirm(_, force) => SettlingCounts(es, force, w);
      case Void(_) => {
        VoidAsksThatAllWait(b, step);
        WithdrawingCancels(es, w);
        NothingCounts(es, w);
      }
    }
  }

  lemma NewPartIsAShare(b: Books, step: Step, c: Books, w: nat)
    requires Based(b) && Extends(b, c) && WrittenAs(b, step, c) && Writes(b, step)
    requires step.ReversePart? && step.operation < |b.ops|
    ensures Undoes(c, |b.ops|, w)
  {
    var o := step.operation;
    var its, es := OfOperation(b.t.entries, o), EntriesOf(b.t.entries, o);
    assert OfOperation(c.t.entries, o) == its && WholeOf(c.t, o) == WholeOf(b.t, o);
    StepAsksTheColumn(b, step);
    WrittenForAStep(b, step, c, w, true);
    SumByPosition(its, w, true);
    SettledAmounts(es, WholeOf(b.t, o).value);
    PartGivesItsShare(es, step.amount, step.force, WholeOf(b.t, o).value, w);
    PartGives(b, step, c);
  }

  // ---------------------------------------------------------------- every run

  predicate InOrder(b: Books) {
    && Based(b) && AllNamedWell(b.ops)
    && (forall o {:trigger PartsAt(b, o)} | 0 <= o < |b.ops| :: PartsAt(b, o))
  }

  lemma {:induction false} StepKeepsOrder(b: Books, step: Step)
    requires InOrder(b)
    ensures InOrder(Perform(b, step)) && Extends(b, Perform(b, step))
  {
    EveryStepIsResolvable(b, step);
    StepExtends(b, step);
    var c := Perform(b, step);
    if Writes(b, step) {
      WhatIsWritten(b, step);
      StepNamesWell(b, step, c);
      forall o | 0 <= o < |c.ops| ensures PartsAt(c, o) {
        if o < |b.ops| {
          assert PartsAt(b, o);
          StepKeepsParts(b, step, c, o);
        } else {
          NewHasNoParts(b, step, c);
        }
      }
    } else {
      SameOperations(b, step);
      forall o | 0 <= o < |c.ops| ensures PartsAt(c, o) {
        assert PartsAt(b, o);
        PartsAreKept(b, c, o, |b.ops|);
        assert c.ops[..|b.ops|] == b.ops[..|b.ops|] == b.ops;
        assert WholeOf(c.t, o) == WholeOf(b.t, o);
      }
    }
  }

  lemma SameOperations(b: Books, step: Step)
    requires !Writes(b, step)
    ensures Perform(b, step).ops == b.ops
  {
  }

  lemma {:induction false} EveryRunIsInOrder(steps: seq<Step>)
    ensures InOrder(Run(EMPTY, steps))
  {
    if steps != [] {
      EveryRunIsInOrder(steps[..|steps| - 1]);
      StepKeepsOrder(Run(EMPTY, steps[..|steps| - 1]), steps[|steps| - 1]);
    }
  }

  /** Over every run: an operation has at most one reversal, at most one confirmation and at most one
      void, and is never both confirmed and voided. */
  lemma {:induction false} SettledAtMostOnce(steps: seq<Step>, j: nat, k: nat)
    requires var ops := Run(EMPTY, steps).ops; j < k < |ops|
    ensures var ops := Run(EMPTY, steps).ops;
            && (SettlesAnother(ops[j].kind) && ops[j].kind == ops[k].kind ==> ops[j].settles != ops[k].settles)
            && (Resolves(ops[j].kind) && Resolves(ops[k].kind) ==> ops[j].settles != ops[k].settles)
  {
    var ops := Run(EMPTY, steps).ops;
    EveryRunIsInOrder(steps);
    assert ResolvedWell(ops, j) && ResolvedWell(ops, k);
  }

  /** Over every run: no reversal, partial reversal, void or basket is ever reversed, no exchange or
      repair in part, and no void confirmed or voided. */
  lemma {:induction false} OnlySomeAreSettled(steps: seq<Step>, k: nat)
    requires k < |Run(EMPTY, steps).ops|
    ensures var ops := Run(EMPTY, steps).ops; NamedWell(ops, k)
  {
    EveryRunIsInOrder(steps);
  }

  /** An operation that settles nothing never collides: it passes exactly when its movements do. */
  lemma {:induction false} OrdinaryNeverCollides(steps: seq<Step>, kind: OperationKind, act: Ledger.Step)
    requires Ordinary(kind)
    ensures var b := Run(EMPTY, steps); Answer(b, Act(kind, act)).Some? <==> Ledger.Answer(b.t, act).Some?
  {
    var b := Run(EMPTY, steps);
    EveryRunIsInOrder(steps);
    forall k | 0 <= k < |b.ops| ensures b.ops[k].settles != |b.ops| {
      assert NamedWell(b.ops, k);
    }
  }

  /** Over every run: what partial reversals gave back of an operation is at most the one amount it
      moved; it is given back in part or reversed whole, never both; and what moved no one amount is
      never given back in part. */
  lemma {:induction false} GivenBackWithinTheWhole(steps: seq<Step>, o: nat)
    requires o < |Run(EMPTY, steps).ops|
    ensures var b := Run(EMPTY, steps);
            var parts, whole := PartsOf(b.t, b.ops, o), WholeOf(b.t, o);
            && 0 <= parts
            && (if whole.None? then parts == 0 else parts <= whole.value)
            && (Reversed(b.ops, o) ==> parts == 0)
            && (whole.Some? && !Reversed(b.ops, o) ==> b.ops[o].reversedAmount == parts)
  {
    EveryRunIsInOrder(steps);
    assert PartsAt(Run(EMPTY, steps), o);
  }

  /** Over every run, on every wallet: a reversal and the entries that counted of the operation it
      undoes add up to nothing; a partial reversal is its share of them; a confirmation is exactly what
      waited; and a void takes back what waited, of an operation nothing of which ever counted. */
  lemma {:induction false} SettlingUndoes(steps: seq<Step>, k: nat, w: nat)
    requires k < |Run(EMPTY, steps).ops|
    ensures Undoes(Run(EMPTY, steps), k, w)
  {
    if steps != [] {
      EveryRunIsInOrder(steps[..|steps| - 1]);
      if k < |Run(EMPTY, steps[..|steps| - 1]).ops| {
        SettlingUndoes(steps[..|steps| - 1], k, w);
      }
      StepUndoes(Run(EMPTY, steps[..|steps| - 1]), steps[|steps| - 1], k, w);
    }
  }

  lemma {:induction false} StepUndoes(b: Books, step: Step, k: nat, w: nat)
    requires InOrder(b) && k < |Perform(b, step).ops| && (k < |b.ops| ==> Undoes(b, k, w))
    ensures Undoes(Perform(b, step), k, w)
  {
    StepKeepsOrder(b, step);
    if k < |b.ops| {
      assert NamedWell(b.ops, k);
      KeepsUndone(b, Perform(b, step), k, w);
    } else {
      NewIsWritten(b, step);
      NewUndoes(b, step, Perform(b, step), w);
    }
  }

  lemma NewIsWritten(b: Books, step: Step)
    requires Based(b) && |Perform(b, step).ops| > |b.ops|
    ensures Writes(b, step) && WrittenAs(b, step, Perform(b, step)) && |Perform(b, step).ops| == |b.ops| + 1
  {
    if !Writes(b, step) {
      SameOperations(b, step);
    } else {
      WhatIsWritten(b, step);
    }
  }
}
