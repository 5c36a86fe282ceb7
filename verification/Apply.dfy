/** Moving every balance of an operation, in the order of the wallets (apply of commit.go). */
module Apply {
  import opened Outcome
  import opened Sums
  import opened Tables

  /** A movement and its place in the request. */
  datatype Placed = Placed(position: nat, movement: Movement)

  function PlacedFrom(movements: seq<Movement>): seq<Placed> {
    seq(|movements|, k requires 0 <= k < |movements| => Placed(k, movements[k]))
  }

  /** The wallets as the movements left them, and the entries they produced. */
  datatype Applied = Applied(wallets: seq<Wallet>, entries: seq<Entry>)

  /** One movement on the wallets: nothing where its wallet is not there or its guard is false. */
  function MoveOne(a: Applied, operation: nat, p: Placed): Option<Applied> {
    var m := p.movement;
    if m.wallet >= |a.wallets| || !Guard(m, a.wallets[m.wallet]) then None
    else
      var after := Moved(m, a.wallets[m.wallet]);
      Some(Applied(a.wallets[m.wallet := after], a.entries + [EntryOf(m, after, operation, p.position)]))
  }

  /** The movements in turn, all or nothing. */
  function ApplyAll(wallets: seq<Wallet>, operation: nat, queue: seq<Placed>): Option<Applied> {
    if queue == [] then Some(Applied(wallets, []))
    else
      var before := ApplyAll(wallets, operation, queue[..|queue| - 1]);
      if before.None? then None else MoveOne(before.value, operation, queue[|queue| - 1])
  }

  lemma ApplyOneMore(wallets: seq<Wallet>, operation: nat, queue: seq<Placed>, p: Placed)
    ensures ApplyAll(wallets, operation, queue + [p]) ==
            var before := ApplyAll(wallets, operation, queue);
            if before.None? then None else MoveOne(before.value, operation, p)
  {
    assert (queue + [p])[..|queue|] == queue;
  }

  // ---------------------------------------------------------------- the order the locks are taken in

  /** Puts a movement behind every one whose wallet does not come after its own. */
  function InsertInOrder(queue: seq<Placed>, p: Placed): seq<Placed> {
    if queue == [] || queue[|queue| - 1].movement.wallet <= p.movement.wallet then queue + [p]
    else InsertInOrder(queue[..|queue| - 1], p) + [queue[|queue| - 1]]
  }

  /** The stable order by wallet. */
  function InLockOrder(queue: seq<Placed>): seq<Placed> {
    if queue == [] then [] else InsertInOrder(InLockOrder(queue[..|queue| - 1]), queue[|queue| - 1])
  }

  predicate Ordered(queue: seq<Placed>) {
    forall j, k | 0 <= j < k < |queue| :: queue[j].movement.wallet <= queue[k].movement.wallet
  }

  predicate NoneAfter(queue: seq<Placed>, wallet: nat) {
    forall k | 0 <= k < |queue| :: queue[k].movement.wallet <= wallet
  }

  lemma {:induction false} InsertKeepsAll(queue: seq<Placed>, p: Placed)
    ensures multiset(InsertInOrder(queue, p)) == multiset(queue) + multiset{p}
    ensures |InsertInOrder(queue, p)| == |queue| + 1
  {
    if queue != [] {
      assert queue == queue[..|queue| - 1] + [queue[|queue| - 1]];
      InsertKeepsAll(queue[..|queue| - 1], p);
    }
  }

  lemma {:induction false} InsertIsBounded(queue: seq<Placed>, p: Placed, wallet: nat)
    requires NoneAfter(queue, wallet) && p.movement.wallet <= wallet
    ensures NoneAfter(InsertInOrder(queue, p), wallet)
  {
    if queue != [] {
      InsertIsBounded(queue[..|queue| - 1], p, wallet);
    }
  }

  lemma {:induction false} InsertIsOrdered(queue: seq<Placed>, p: Placed)
    requires Ordered(queue)
    ensures Ordered(InsertInOrder(queue, p))
  {
    if queue != [] {
      var head, last := queue[..|queue| - 1], queue[|queue| - 1];
      if last.movement.wallet > p.movement.wallet {
        InsertIsOrdered(head, p);
        InsertIsBounded(head, p, last.movement.wallet);
      }
    }
  }

  /** The lock order takes the wallets from the first to the last, every movement once. */
  lemma {:induction false} LockOrderIsOrdered(queue: seq<Placed>)
    ensures Ordered(InLockOrder(queue)) && multiset(InLockOrder(queue)) == multiset(queue)
    ensures |InLockOrder(queue)| == |queue|
  {
    if queue != [] {
      var head, last := queue[..|queue| - 1], queue[|queue| - 1];
      assert queue == head + [last];
      LockOrderIsOrdered(head);
      InsertIsOrdered(InLockOrder(head), last);
      InsertKeepsAll(InLockOrder(head), last);
    }
  }

  /** Two outcomes a caller cannot tell apart: both refused, or the same wallets and the same entries. */
  predicate Alike(a: Option<Applied>, b: Option<Applied>) {
    match (a, b)
    case (None, None) => true
    case (Some(x), Some(y)) => x.wallets == y.wallets && multiset(x.entries) == multiset(y.entries)
    case _ => false
  }

  /** Movements of different wallets do not see each other. */
  lemma Swap(wallets: seq<Wallet>, operation: nat, queue: seq<Placed>, p: Placed, q: Placed)
    requires p.movement.wallet != q.movement.wallet
    ensures Alike(ApplyAll(wallets, operation, queue + [p] + [q]), ApplyAll(wallets, operation, queue + [q] + [p]))
  {
    ApplyOneMore(wallets, operation, queue + [p], q);
    ApplyOneMore(wallets, operation, queue, p);
    ApplyOneMore(wallets, operation, queue + [q], p);
    ApplyOneMore(wallets, operation, queue, q);
    var before := ApplyAll(wallets, operation, queue);
    if before.Some? {
      SwapTwo(before.value, operation, p, q);
    }
  }

  lemma SwapTwo(a: Applied, operation: nat, p: Placed, q: Placed)
    requires p.movement.wallet != q.movement.wallet
    ensures var x, y := MoveOne(a, operation, p), MoveOne(a, operation, q);
            Alike(if x.None? then None else MoveOne(x.value, operation, q),
              if y.None? then None else MoveOne(y.value, operation, p))
  {
    var x, y := MoveOne(a, operation, p), MoveOne(a, operation, q);
    if x.Some? && y.Some? {
      var e, f := x.value.entries[|a.entries|], y.value.entries[|a.entries|];
      assert x.value.entries + [f] == a.entries + [e] + [f] && y.value.entries + [e] == a.entries + [f] + [e];
      var u, v := Moved(p.movement, a.wallets[p.movement.wallet]), Moved(q.movement, a.wallets[q.movement.wallet]);
      assert a.wallets[p.movement.wallet := u][q.movement.wallet := v]
             == a.wallets[q.movement.wallet := v][p.movement.wallet := u];
    }
  }

  lemma AlikeAfterOneMore(wallets: seq<Wallet>, operation: nat, xs: seq<Placed>, ys: seq<Placed>, p: Placed)
    requires Alike(ApplyAll(wallets, operation, xs), ApplyAll(wallets, operation, ys))
    ensures Alike(ApplyAll(wallets, operation, xs + [p]), ApplyAll(wallets, operation, ys + [p]))
  {
    ApplyOneMore(wallets, operation, xs, p);
    ApplyOneMore(wallets, operation, ys, p);
  }

  lemma {:induction false} InsertChangesNothing(wallets: seq<Wallet>, operation: nat, queue: seq<Placed>, p: Placed)
    ensures Alike(ApplyAll(wallets, operation, InsertInOrder(queue, p)), ApplyAll(wallets, operation, queue + [p]))
  {
    if queue != [] && queue[|queue| - 1].movement.wallet > p.movement.wallet {
      var head, last := queue[..|queue| - 1], queue[|queue| - 1];
      assert queue == head + [last];
      InsertChangesNothing(wallets, operation, head, p);
      AlikeAfterOneMore(wallets, operation, InsertInOrder(head, p), head + [p], last);
      Swap(wallets, operation, head, p, last);
    }
  }

  /** Taking the wallets in lock order changes nothing a caller sees: the operation passes or is
      refused exactly as it would in the order of the request, moves the same balances and writes
      the same entries, each numbered as in the request. */
  lemma {:induction false} LockOrderChangesNothing(wallets: seq<Wallet>, operation: nat, queue: seq<Placed>)
    ensures Alike(ApplyAll(wallets, operation, InLockOrder(queue)), ApplyAll(wallets, operation, queue))
  {
    if queue != [] {
      var head, last := queue[..|queue| - 1], queue[|queue| - 1];
      assert queue == head + [last];
      LockOrderChangesNothing(wallets, operation, head);
      InsertChangesNothing(wallets, operation, InLockOrder(head), last);
      AlikeAfterOneMore(wallets, operation, InLockOrder(head), head, last);
    }
  }

  // ---------------------------------------------------------------- what an operation moves

  /** What a queue does to one wallet's balance. */
  function EffectsOn(queue: seq<Placed>, w: nat): seq<int> {
    seq(|queue|, k requires 0 <= k < |queue| => if queue[k].movement.wallet == w then Effect(queue[k].movement) else 0)
  }

  function Effects(queue: seq<Placed>): seq<int> {
    seq(|queue|, k requires 0 <= k < |queue| => Effect(queue[k].movement))
  }

  function Balances(wallets: seq<Wallet>): seq<int> {
    seq(|wallets|, k requires 0 <= k < |wallets| => wallets[k].balance)
  }

  /** The entry of a movement, and whatever its wallet held. */
  predicate RecordedAs(e: Entry, operation: nat, p: Placed) {
    && e.operation == operation && e.position == p.position
    && e.wallet == p.movement.wallet && e.kind == p.movement.kind
    && e.amount == p.movement.amount && e.settled == !p.movement.pending
  }

  /** An operation that passes writes one entry for each movement, in the same order. */
  lemma {:induction false} EntriesOfAnOperation(wallets: seq<Wallet>, operation: nat, queue: seq<Placed>)
    requires ApplyAll(wallets, operation, queue).Some?
    ensures var a := ApplyAll(wallets, operation, queue).value;
            && |a.wallets| == |wallets| && |a.entries| == |queue|
            && forall k | 0 <= k < |queue| ::
               queue[k].movement.wallet < |wallets| && RecordedAs(a.entries[k], operation, queue[k])
  {
    if queue != [] {
      EntriesOfAnOperation(wallets, operation, queue[..|queue| - 1]);
    }
  }

  /** And moves each balance by the sum of its movements on it. */
  lemma {:induction false} NetOnAWallet(wallets: seq<Wallet>, operation: nat, queue: seq<Placed>, w: nat)
    requires ApplyAll(wallets, operation, queue).Some? && w < |wallets|
    ensures var a := ApplyAll(wallets, operation, queue).value;
            |a.wallets| == |wallets| && a.wallets[w].balance == wallets[w].balance + Total(EffectsOn(queue, w))
  {
    if queue != [] {
      var head, p := queue[..|queue| - 1], queue[|queue| - 1];
      NetOnAWallet(wallets, operation, head, w);
      var effect := if p.movement.wallet == w then Effect(p.movement) else 0;
      assert EffectsOn(queue, w) == EffectsOn(head, w) + [effect];
      TotalOfOneMore(EffectsOn(head, w), effect);
    }
  }

  /** And the total of all balances by the sum of all of them. */
  lemma {:induction false} NetOnAll(wallets: seq<Wallet>, operation: nat, queue: seq<Placed>)
    requires ApplyAll(wallets, operation, queue).Some?
    ensures Total(Balances(ApplyAll(wallets, operation, queue).value.wallets))
            == Total(Balances(wallets)) + Total(Effects(queue))
  {
    if queue != [] {
      var head, p := queue[..|queue| - 1], queue[|queue| - 1];
      NetOnAll(wallets, operation, head);
      var before, i := ApplyAll(wallets, operation, head).value, p.movement.wallet;
      var after := Moved(p.movement, before.wallets[i]);
      assert Balances(before.wallets[i := after]) == Balances(before.wallets)[i := after.balance];
      TotalOfUpdate(Balances(before.wallets), i, after.balance);
      assert Effects(queue) == Effects(head) + [Effect(p.movement)];
      TotalOfOneMore(Effects(head), Effect(p.movement));
    }
  }
}
