/** Where a row of a listing stands: decided once in Go, of what describeRows gathered, and once as the
    SQL of a filter (listing.go). */
module Statuses {
  datatype Kind = Confirmation | Void | Reversal | Other

  /** An operation's row; an empty identifier is no identifier. */
  datatype Operation = Operation(id: string, kind: Kind, settles: string, reversedAmount: int)

  /** What a status reads of an entry. */
  datatype Row = Row(operation: string, settled: int, amount: int)

  datatype Status = Pending | Confirmed | Voided | Settled | PartiallyReversed | Reversed

  /** The primary key. */
  predicate Table(ops: seq<Operation>) {
    && (forall k | 0 <= k < |ops| :: ops[k].id != "")
    && (forall j, k | 0 <= j < k < |ops| :: ops[j].id != ops[k].id)
  }

  // ---------------------------------------------------------------- as SQL

  /** s settles o, and is of a kind. */
  predicate Settles(s: Operation, o: string, kind: Kind) {
    s.settles == o && s.id != o && s.kind == kind
  }

  /** settledBy: an operation of this kind settles o. */
  predicate SettledBy(ops: seq<Operation>, o: string, kind: Kind) {
    exists k :: 0 <= k < |ops| && Settles(ops[k], o, kind)
  }

  /** An operation that names itself, as every one does that settles no other, does not settle itself:
      an operation is settled by another of the kind, exactly. */
  lemma AnotherSettlesIt(ops: seq<Operation>, o: string, kind: Kind)
    ensures SettledBy(ops, o, kind) <==>
            exists s :: s in ops && s.settles == o && s.id != o && s.kind == kind
  {
    if SettledBy(ops, o, kind) {
      var k :| 0 <= k < |ops| && Settles(ops[k], o, kind);
      assert ops[k] in ops;
    }
    if s :| s in ops && s.settles == o && s.id != o && s.kind == kind {
      var k :| 0 <= k < |ops| && ops[k] == s;
      assert Settles(ops[k], o, kind);
    }
  }

  /** The condition of a status on a row and on its operation. */
  predicate Condition(status: Status, r: Row, o: Operation, ops: seq<Operation>) {
    var confirmed, voided, reversed :=
      SettledBy(ops, o.id, Confirmation), SettledBy(ops, o.id, Void), SettledBy(ops, o.id, Reversal);
    match status
    case Pending => r.settled == 0 && o.kind != Void && !confirmed && !voided
    case Confirmed => r.settled == 0 && confirmed
    case Voided => r.settled == 0 && !confirmed && (o.kind == Void || voided)
    case Reversed => r.settled != 0 && (reversed || (o.reversedAmount > 0 && o.reversedAmount >= r.amount))
    case PartiallyReversed => r.settled != 0 && !reversed && o.reversedAmount > 0 && o.reversedAmount < r.amount
    case Settled => r.settled != 0 && !reversed && o.reversedAmount <= 0
  }

  /** statusClause: there is the row's operation, and it satisfies the condition. */
  predicate Clause(status: Status, r: Row, ops: seq<Operation>) {
    exists k {:trigger ops[k]} :: 0 <= k < |ops| && ops[k].id == r.operation && Condition(status, r, ops[k], ops)
  }

  // ---------------------------------------------------------------- as Go

  const NO_OPERATION := Operation("", Other, "", 0)

  type Settlers = map<Kind, string>

  /** by[kind]: a map answers what it does not hold with the empty string. */
  function By(settlers: Settlers, kind: Kind): string {
    if kind in settlers then settlers[kind] else ""
  }

  /** operationStatus: of the operation as it was found, or the empty one, and of what settles it. */
  function OperationStatus(settled: bool, op: Operation, amount: int, settlers: Settlers): Status {
    if !settled then
      if By(settlers, Confirmation) != "" then Confirmed
      else if op.kind == Void || By(settlers, Void) != "" then Voided
      else Pending
    else if By(settlers, Reversal) != "" || (op.reversedAmount > 0 && op.reversedAmount >= amount) then Reversed
    else if op.reversedAmount > 0 then PartiallyReversed
    else Settled
  }

  /** The operation an identifier names, or the empty one. */
  function Named(ops: seq<Operation>, id: string): (o: Operation)
    ensures o == NO_OPERATION || (o in ops && o.id == id)
  {
    if ops == [] then NO_OPERATION else if ops[|ops| - 1].id == id then ops[|ops| - 1] else Named(ops[..|ops| - 1], id)
  }

  /** What settlers holds of an operation is exactly what settles it. */
  predicate Gathered(settlers: Settlers, ops: seq<Operation>, o: string) {
    forall kind | kind != Other :: By(settlers, kind) != "" <==> SettledBy(ops, o, kind)
  }

  predicate Waits(kind: Kind) {
    kind == Confirmation || kind == Void || kind == Reversal
  }

  /** describeRows: one pass for the operations of the page, one for what settles them, and a row's
      status off the two maps. */
  method DescribeRows(rows: seq<Row>, ops: seq<Operation>) returns (out: seq<Status>)
    requires Table(ops)
    ensures |out| == |rows|
    ensures forall k | 0 <= k < |rows| :: forall status :: out[k] == status <==> Derived(rows[k], ops, status)
  {
    var ids: set<string> := set k | 0 <= k < |rows| :: rows[k].operation;
    var operations: map<string, Operation> := map[];
    for i := 0 to |ops|
      invariant forall id | id in ids :: Looked(operations, id) == Named(ops[..i], id)
    {
      assert ops[..i + 1][..i] == ops[..i];
      if ops[i].id in ids {
        operations := operations[ops[i].id := ops[i]];
      }
    }
    var settlers := GatherSettlers(ids, ops);
    assert ops[..|ops|] == ops;
    out := [];
    for k := 0 to |rows|
      invariant |out| == k
      invariant forall j | 0 <= j < k :: forall status :: out[j] == status <==> Derived(rows[j], ops, status)
    {
      var id := rows[k].operation;
      var op := if id in operations then operations[id] else NO_OPERATION;
      var mine := if id in settlers then settlers[id] else map[];
      var status := OperationStatus(rows[k].settled != 0, op, rows[k].amount, mine);
      DerivedIs(rows[k], ops, mine);
      out := out + [status];
    }
  }

  function Looked(operations: map<string, Operation>, id: string): Operation {
    if id in operations then operations[id] else NO_OPERATION
  }

  /** The second pass: the operations naming one of these, but for those that name themselves. */
  method GatherSettlers(ids: set<string>, ops: seq<Operation>) returns (settlers: map<string, Settlers>)
    requires Table(ops)
    ensures forall id | id in ids :: Gathered(if id in settlers then settlers[id] else map[], ops, id)
  {
    settlers := map[];
    for i := 0 to |ops|
      invariant forall id | id in ids :: Gathered(if id in settlers then settlers[id] else map[], ops[..i], id)
    {
      var s := ops[i];
      ghost var before := settlers;
      if s.settles in ids && Waits(s.kind) && s.settles != s.id {
        var known := if s.settles in settlers then settlers[s.settles] else map[];
        settlers := settlers[s.settles := known[s.kind := s.id]];
      }
      forall id | id in ids ensures Gathered(if id in settlers then settlers[id] else map[], ops[..i + 1], id) {
        OneMoreGathered(if id in before then before[id] else map[], if id in settlers then settlers[id] else map[], ops,
          i, id);
      }
    }
    assert ops[..|ops|] == ops;
  }

  lemma OneMoreGathered(before: Settlers, after: Settlers, ops: seq<Operation>, i: nat, id: string)
    requires i < |ops| && Table(ops) && Gathered(before, ops[..i], id)
    requires var s := ops[i];
             after == if s.settles == id && Waits(s.kind) && s.settles != s.id then before[s.kind := s.id] else before
    ensures Gathered(after, ops[..i + 1], id)
  {
    forall kind | kind != Other ensures By(after, kind) != "" <==> SettledBy(ops[..i + 1], id, kind) {
      SettledByOneMore(ops, i, id, kind);
    }
  }

  lemma SettledByOneMore(ops: seq<Operation>, i: nat, id: string, kind: Kind)
    requires i < |ops|
    ensures SettledBy(ops[..i + 1], id, kind) <==> SettledBy(ops[..i], id, kind) || Settles(ops[i], id, kind)
  {
    assert ops[..i + 1] == ops[..i] + [ops[i]];
    if SettledBy(ops[..i], id, kind) {
      var k :| 0 <= k < i && Settles(ops[..i][k], id, kind);
      assert Settles(ops[..i + 1][k], id, kind);
    }
    if Settles(ops[i], id, kind) {
      assert Settles(ops[..i + 1][i], id, kind);
    }
  }

  // ---------------------------------------------------------------- the two are one

  /** A row answers a status: the condition the SQL writes, on its operation where there is one, and on
      the empty operation where there is none. */
  predicate Derived(r: Row, ops: seq<Operation>, status: Status) {
    Condition(status, r, Named(ops, r.operation).(id := r.operation), ops)
  }

  lemma DerivedIs(r: Row, ops: seq<Operation>, settlers: Settlers)
    requires Gathered(settlers, ops, r.operation)
    ensures forall status ::
            OperationStatus(r.settled != 0, Named(ops, r.operation), r.amount, settlers) == status <==>
              Derived(r, ops, status)
  {
  }

  predicate Known(r: Row, ops: seq<Operation>) {
    exists k :: 0 <= k < |ops| && ops[k].id == r.operation
  }

  /** A status filter keeps exactly the rows that answer that status, of the rows whose operation is
      there; a row without one answers a status and is kept by no filter. */
  lemma FilterKeepsWhatAnswers(r: Row, ops: seq<Operation>, status: Status)
    requires Table(ops)
    ensures Clause(status, r, ops) <==> Known(r, ops) && Derived(r, ops, status)
  {
    if Known(r, ops) {
      var k :| 0 <= k < |ops| && ops[k].id == r.operation;
      NamedIs(ops, k);
      assert ops[k].(id := r.operation) == ops[k];
      if Clause(status, r, ops) {
        var j :| 0 <= j < |ops| && ops[j].id == r.operation && Condition(status, r, ops[j], ops);
        assert j == k;
      }
    }
  }

  lemma {:induction false} NamedIs(ops: seq<Operation>, k: nat)
    requires Table(ops) && k < |ops|
    ensures Named(ops, ops[k].id) == ops[k]
  {
    if k < |ops| - 1 {
      NamedIs(ops[..|ops| - 1], k);
    }
  }

  /** So the two agree about a row, whatever it is and whatever settles what, exactly when its
      operation is there. */
  lemma TheTwoAgree(r: Row, ops: seq<Operation>)
    requires Table(ops)
    ensures (forall status :: Clause(status, r, ops) <==> Derived(r, ops, status)) <==> Known(r, ops)
  {
    forall status ensures Clause(status, r, ops) <==> Known(r, ops) && Derived(r, ops, status) {
      FilterKeepsWhatAnswers(r, ops, status);
    }
    var answer := TheOneAnswer(r, ops);
    assert Derived(r, ops, answer);
  }

  /** A row that waits under an operation that is not there: listed as pending, and in no filter. */
  lemma ARowWithoutItsOperation() returns (r: Row, ops: seq<Operation>)
    ensures Table(ops) && Derived(r, ops, Pending) && forall status :: !Clause(status, r, ops)
  {
    r, ops := Row("a", 0, 10), [];
    var answer := TheOneAnswer(r, ops);
  }

  lemma TheOneAnswer(r: Row, ops: seq<Operation>) returns (answer: Status)
    ensures forall status :: Derived(r, ops, status) <==> status == answer
  {
    var o := Named(ops, r.operation).(id := r.operation);
    var confirmed, voided, reversed :=
      SettledBy(ops, o.id, Confirmation), SettledBy(ops, o.id, Void), SettledBy(ops, o.id, Reversal);
    answer :=
      if r.settled == 0 then (if confirmed then Confirmed else if o.kind == Void || voided then Voided else Pending)
      else if reversed || (o.reversedAmount > 0 && o.reversedAmount >= r.amount) then Reversed
      else if o.reversedAmount > 0 then PartiallyReversed else Settled;
  }

  /** The six filters are a partition of the rows whose operation is there: each is kept by exactly one
      of them, and a row without one by none. */
  lemma TheFiltersPartition(r: Row, ops: seq<Operation>, one: Status, other: Status)
    requires Table(ops)
    ensures Clause(one, r, ops) && Clause(other, r, ops) ==> one == other
    ensures (exists status :: Clause(status, r, ops)) <==> Known(r, ops)
  {
    forall status ensures Clause(status, r, ops) <==> Known(r, ops) && Derived(r, ops, status) {
      FilterKeepsWhatAnswers(r, ops, status);
    }
    var answer := TheOneAnswer(r, ops);
    assert Derived(r, ops, answer);
  }
}
