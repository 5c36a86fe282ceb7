/** Concurrent transactions and the rows they lock (attempt and apply of commit.go, Hold and giveBack
    of hold.go, the record statements of undo.go): in the order the package takes them, no set of
    transactions waits for itself. */
module Deadlock {
  import opened Outcome
  import opened Tables
  import opened Apply

  /** What a transaction may have to wait for: an entry of a unique index another transaction is
      inserting, or a row another transaction is changing. */
  datatype Resource =
    | OperationKey(key: nat)
    | Settlement(kind: nat, operation: nat)
    | HoldRow(hold: nat)
    | WalletRow(wallet: nat)
    | HoldKey(name: nat)
    | OperationRow(settled: nat)

  function Class(r: Resource): nat {
    match r
    case OperationKey(_) => 0
    case Settlement(_, _) => 1
    case HoldRow(_) => 2
    case WalletRow(_) => 3
    case HoldKey(_) => 4
    case OperationRow(_) => 5
  }

  /** Classes in turn, and wallets by their identifiers; no transaction takes two of any other class. */
  predicate Before(a: Resource, b: Resource) {
    Class(a) < Class(b) || (a.WalletRow? && b.WalletRow? && a.wallet < b.wallet)
  }

  /** A plan takes every resource after the ones before it, or takes one it has again. */
  predicate InOrder(plan: seq<Resource>) {
    forall j, k | 0 <= j < k < |plan| :: Before(plan[j], plan[k]) || plan[j] == plan[k]
  }

  // ---------------------------------------------------------------- the plans of the package

  function WalletRows(queue: seq<Placed>): seq<Resource> {
    seq(|queue|, k requires 0 <= k < |queue| => WalletRow(queue[k].movement.wallet))
  }

  /** attempt: the operation row, the hold it captures, the wallets of its movements in the order
      queue has them, and the operation its record statement marks. */
  function AttemptPlan(key: nat, kind: nat, operation: nat, hold: Option<nat>, queue: seq<Placed>,
      marks: Option<nat>): seq<Resource>
  {
    Opening(key, kind, operation, hold)
    + WalletRows(queue)
    + (if marks.Some? then [OperationRow(marks.value)] else [])
  }

  /** What an attempt takes before any wallet. */
  function Opening(key: nat, kind: nat, operation: nat, hold: Option<nat>): seq<Resource> {
    [OperationKey(key), Settlement(kind, operation)] + if hold.Some? then [HoldRow(hold.value)] else []
  }

  /** Hold: the wallet, then the key of the hold. */
  function PlacementPlan(wallet: nat, name: nat): seq<Resource> {
    [WalletRow(wallet), HoldKey(name)]
  }

  /** giveBack: the hold, then the wallet. */
  function GiveBackPlan(hold: nat, wallet: nat): seq<Resource> {
    [HoldRow(hold), WalletRow(wallet)]
  }

  lemma AttemptsAreInOrder(
      key: nat, kind: nat, operation: nat, hold: Option<nat>, movements: seq<Movement>, queue: seq<Placed>,
        marks: Option<nat>)
    requires queue == InLockOrder(PlacedFrom(movements))
    ensures InOrder(AttemptPlan(key, kind, operation, hold, queue, marks))
  {
    LockOrderIsOrdered(PlacedFrom(movements));
    OrderedAttempt(key, kind, operation, hold, queue, marks);
  }

  /** And they take what they have to: the key, what they settle, the hold, the wallet of every movement
      and the operation they mark, and nothing else. */
  lemma AttemptsTakeWhatTheyTouch(
      key: nat, kind: nat, operation: nat, hold: Option<nat>, movements: seq<Movement>, queue: seq<Placed>,
        marks: Option<nat>, r: Resource)
    requires queue == InLockOrder(PlacedFrom(movements))
    ensures r in AttemptPlan(key, kind, operation, hold, queue, marks) <==>
            || r == OperationKey(key) || r == Settlement(kind, operation)
            || (hold.Some? && r == HoldRow(hold.value))
            || (exists k :: 0 <= k < |movements| && r == WalletRow(movements[k].wallet))
            || (marks.Some? && r == OperationRow(marks.value))
  {
    WalletsOfMovements(movements, queue, r);
    InAttemptPlan(Opening(key, kind, operation, hold), WalletRows(queue), marks, r);
  }

  lemma InAttemptPlan(first: seq<Resource>, rows: seq<Resource>, marks: Option<nat>, r: Resource)
    ensures r in first + rows + (if marks.Some? then [OperationRow(marks.value)] else []) <==>
            r in first || r in rows || (marks.Some? && r == OperationRow(marks.value))
  {
  }

  lemma WalletsOfMovements(movements: seq<Movement>, queue: seq<Placed>, r: Resource)
    requires queue == InLockOrder(PlacedFrom(movements))
    ensures r in WalletRows(queue) <==> exists k :: 0 <= k < |movements| && r == WalletRow(movements[k].wallet)
  {
    var placed := PlacedFrom(movements);
    LockOrderIsOrdered(placed);
    forall p: Placed ensures p in queue <==> p in placed {
      assert p in queue <==> p in multiset(queue);
    }
    if k :| 0 <= k < |movements| && r == WalletRow(movements[k].wallet) {
      assert placed[k] in queue;
      var j :| 0 <= j < |queue| && queue[j] == placed[k];
      assert WalletRows(queue)[j] == r;
    }
    if j :| 0 <= j < |queue| && WalletRows(queue)[j] == r {
      assert queue[j] in placed;
      var k :| 0 <= k < |placed| && placed[k] == queue[j];
      assert r == WalletRow(movements[k].wallet);
    }
  }

  lemma OrderedAttempt(key: nat, kind: nat, operation: nat, hold: Option<nat>, queue: seq<Placed>, marks: Option<nat>)
    requires Ordered(queue)
    ensures InOrder(AttemptPlan(key, kind, operation, hold, queue, marks))
  {
    var last := if marks.Some? then [OperationRow(marks.value)] else [];
    AttemptInOrder(Opening(key, kind, operation, hold), queue, last);
  }

  lemma HoldPlansAreInOrder(hold: nat, wallet: nat, name: nat)
    ensures InOrder(PlacementPlan(wallet, name)) && InOrder(GiveBackPlan(hold, wallet))
  {
  }

  lemma AttemptInOrder(first: seq<Resource>, queue: seq<Placed>, last: seq<Resource>)
    requires InOrder(first) && Ordered(queue) && InOrder(last)
    requires (forall k | 0 <= k < |first| :: Class(first[k]) < 3) && forall k | 0 <= k < |last| :: Class(last[k]) > 3
    ensures InOrder(first + WalletRows(queue) + last)
  {
    JoinedInOrder(first, WalletRows(queue));
    JoinedInOrder(first + WalletRows(queue), last);
  }

  lemma JoinedInOrder(a: seq<Resource>, b: seq<Resource>)
    requires InOrder(a) && InOrder(b)
    requires forall j, k | 0 <= j < |a| && 0 <= k < |b| :: Before(a[j], b[k])
    ensures InOrder(a + b)
  {
  }

  // ---------------------------------------------------------------- running them

  /** A transaction has the first of its plan and wants the next; when it is over it has none. */
  datatype Transaction = Transaction(plan: seq<Resource>, has: nat, over: bool) {
    predicate Holds(r: Resource) {
      !over && exists k :: 0 <= k < has && k < |plan| && plan[k] == r
    }

    predicate Waiting() {
      !over && has < |plan|
    }
  }

  /** Take what comes next, and end where nothing does; or roll back, at any time. */
  datatype Event = Advance(i: nat) | RollBack(j: nat)

  predicate HeldByAnother(s: seq<Transaction>, i: nat, r: Resource) {
    exists j :: 0 <= j < |s| && j != i && s[j].Holds(r)
  }

  /** A transaction that can move on: nobody else has what it wants. */
  predicate CanStep(s: seq<Transaction>, i: nat) {
    i < |s| && !s[i].over && (s[i].has < |s[i].plan| ==> !HeldByAnother(s, i, s[i].plan[s[i].has]))
  }

  function Next(s: seq<Transaction>, e: Event): seq<Transaction> {
    match e
    case Advance(i) =>
      if !CanStep(s, i) then s
      else if s[i].has < |s[i].plan| then s[i := s[i].(has := s[i].has + 1)]
      else s[i := s[i].(over := true)]
    case RollBack(j) => if j < |s| then s[j := s[j].(over := true)] else s
  }

  function Run(s: seq<Transaction>, events: seq<Event>): seq<Transaction> {
    if events == [] then s else Next(Run(s, events[..|events| - 1]), events[|events| - 1])
  }

  /** Nothing is had twice. */
  ghost predicate Exclusive(s: seq<Transaction>) {
    forall i, r {:trigger s[i].Holds(r)} | 0 <= i < |s| && s[i].Holds(r) :: !HeldByAnother(s, i, r)
  }

  predicate Planned(s: seq<Transaction>) {
    forall i | 0 <= i < |s| :: InOrder(s[i].plan) && s[i].has <= |s[i].plan|
  }

  predicate Started(s: seq<Transaction>) {
    forall i | 0 <= i < |s| :: InOrder(s[i].plan) && s[i].has == 0
  }

  lemma HeldAfterOneMore(t: Transaction, r: Resource)
    requires t.Waiting()
    ensures t.(has := t.has + 1).Holds(r) <==> t.Holds(r) || r == t.plan[t.has]
  {
    var u := t.(has := t.has + 1);
    assert u.plan[t.has] == t.plan[t.has];
    assert forall k | 0 <= k < t.has :: u.plan[k] == t.plan[k];
  }

  lemma AdvanceKeepsExclusive(s: seq<Transaction>, i: nat)
    requires Exclusive(s) && CanStep(s, i) && s[i].has < |s[i].plan|
    ensures Exclusive(s[i := s[i].(has := s[i].has + 1)])
  {
    var t, wanted := s[i := s[i].(has := s[i].has + 1)], s[i].plan[s[i].has];
    forall j, r | 0 <= j < |t| && t[j].Holds(r) ensures !HeldByAnother(t, j, r) {
      HeldAfterOneMore(s[i], r);
      assert s[j].Holds(r) || (j == i && r == wanted);
      assert !HeldByAnother(s, i, wanted);
      assert s[j].Holds(r) ==> !HeldByAnother(s, j, r);
      forall l | 0 <= l < |t| && l != j ensures !t[l].Holds(r) {
        if l == i {
          assert s[j].Holds(r) && r != wanted;
        }
      }
    }
  }

  lemma EndKeepsExclusive(s: seq<Transaction>, j: nat)
    requires Exclusive(s) && j < |s|
    ensures Exclusive(s[j := s[j].(over := true)])
  {
    var t := s[j := s[j].(over := true)];
    forall i, r | 0 <= i < |t| && t[i].Holds(r) ensures !HeldByAnother(t, i, r) {
      assert s[i].Holds(r) && !HeldByAnother(s, i, r);
      assert forall l | 0 <= l < |t| :: t[l].Holds(r) ==> s[l].Holds(r);
    }
  }

  lemma {:induction false} EveryRunIsExclusive(s: seq<Transaction>, events: seq<Event>)
    requires Started(s)
    ensures var t := Run(s, events); |t| == |s| && Exclusive(t) && Planned(t)
  {
    if events != [] {
      var before, e := Run(s, events[..|events| - 1]), events[|events| - 1];
      EveryRunIsExclusive(s, events[..|events| - 1]);
      match e
      case Advance(i) =>
        if CanStep(before, i) {
          if before[i].has < |before[i].plan| {
            AdvanceKeepsExclusive(before, i);
          } else {
            EndKeepsExclusive(before, i);
          }
        }
      case RollBack(j) =>
        if j < |before| {
          EndKeepsExclusive(before, j);
        }
    }
  }

  // ---------------------------------------------------------------- who waits for whom

  /** i wants what j has. */
  predicate WaitsFor(s: seq<Transaction>, i: nat, j: nat) {
    i < |s| && j < |s| && i != j && s[i].Waiting() && s[j].Holds(s[i].plan[s[i].has])
  }

  function Wanted(s: seq<Transaction>, i: nat): Resource
    requires i < |s| && s[i].Waiting()
  {
    s[i].plan[s[i].has]
  }

  /** Whoever is waited for, if it waits itself, waits for something later. */
  lemma WaitsForLater(s: seq<Transaction>, i: nat, j: nat, l: nat)
    requires Exclusive(s) && Planned(s) && WaitsFor(s, i, j) && WaitsFor(s, j, l)
    ensures Before(Wanted(s, i), Wanted(s, j))
  {
    var k :| 0 <= k < s[j].has && k < |s[j].plan| && s[j].plan[k] == Wanted(s, i);
    assert s[j].Holds(Wanted(s, i)) && !HeldByAnother(s, j, Wanted(s, i));
    assert HeldByAnother(s, j, Wanted(s, j));
  }

  predicate Link(s: seq<Transaction>, path: seq<nat>, k: nat)
    requires k + 1 < |path|
  {
    WaitsFor(s, path[k], path[k + 1])
  }

  /** A chain of waiting. */
  predicate Chain(s: seq<Transaction>, path: seq<nat>) {
    forall k {:trigger Link(s, path, k)} | 0 <= k < |path| - 1 :: Link(s, path, k)
  }

  lemma {:induction false} ChainsRise(s: seq<Transaction>, path: seq<nat>, k: nat)
    requires Exclusive(s) && Planned(s) && Chain(s, path) && 0 < k < |path| - 1
    ensures path[0] < |s| && s[path[0]].Waiting() && path[k] < |s| && s[path[k]].Waiting()
    ensures Before(Wanted(s, path[0]), Wanted(s, path[k]))
  {
    assert Link(s, path, k - 1) && Link(s, path, k);
    WaitsForLater(s, path[k - 1], path[k], path[k + 1]);
    if k > 1 {
      ChainsRise(s, path, k - 1);
    }
  }

  /** In every reachable state the wait-for graph has no cycle, of any length. */
  lemma NobodyWaitsForItself(s: seq<Transaction>, events: seq<Event>, path: seq<nat>)
    requires Started(s) && Chain(Run(s, events), path) && |path| > 1
    ensures path[0] != path[|path| - 1]
  {
    var t := Run(s, events);
    EveryRunIsExclusive(s, events);
    if path[0] == path[|path| - 1] {
      var around := path + [path[1]];
      forall k | 0 <= k < |around| - 1 ensures Link(t, around, k) {
        assert Link(t, path, if k < |path| - 1 then k else 0);
      }
      ChainsRise(t, around, |path| - 1);
    }
  }

  // ---------------------------------------------------------------- and everybody ends

  /** Waiting for what another has. */
  predicate Blocked(s: seq<Transaction>, i: nat) {
    i < |s| && s[i].Waiting() && HeldByAnother(s, i, s[i].plan[s[i].has])
  }

  /** From a transaction that is not over, along who it waits for, to one that can step. seen are
      those behind it in the chain. */
  lemma {:induction false} FollowToOneThatCanStep(s: seq<Transaction>, i: nat, seen: set<nat>) returns (k: nat)
    requires Exclusive(s) && Planned(s) && i < |s| && !s[i].over
    requires forall j | j in seen :: j < |s| && s[j].Waiting() && (Blocked(s, i) ==> Before(Wanted(s, j), Wanted(s, i)))
    ensures CanStep(s, k)
    decreases |s| - |seen|
  {
    FewerThanAll(seen, |s|);
    k := i;
    if Blocked(s, i) {
      var j :| 0 <= j < |s| && j != i && s[j].Holds(s[i].plan[s[i].has]);
      FewerThanAll(seen + {i}, |s|);
      if Blocked(s, j) {
        var l :| 0 <= l < |s| && l != j && s[l].Holds(s[j].plan[s[j].has]);
        WaitsForLater(s, i, j, l);
        assert forall m | m in seen :: Before(Wanted(s, m), Wanted(s, i));
      }
      k := FollowToOneThatCanStep(s, j, seen + {i});
    }
  }

  lemma {:induction false} FewerThanAll(seen: set<nat>, n: nat)
    requires forall j | j in seen :: j < n
    ensures |seen| <= n
  {
    if n > 0 {
      FewerThanAll(seen - {n - 1}, n - 1);
    }
  }

  /** Whenever somebody is not done, somebody can move. */
  lemma SomebodyCanStep(s: seq<Transaction>, events: seq<Event>, i: nat) returns (k: nat)
    requires Started(s) && i < |Run(s, events)| && !Run(s, events)[i].over
    ensures CanStep(Run(s, events), k)
  {
    EveryRunIsExclusive(s, events);
    k := FollowToOneThatCanStep(Run(s, events), i, {});
  }

  /** What is left to do. */
  function Left(s: seq<Transaction>): nat {
    if s == [] then 0
    else Left(s[..|s| - 1]) + LeftOf(s[|s| - 1])
  }

  function LeftOf(t: Transaction): nat {
    if t.over then 0 else 1 + if t.has < |t.plan| then |t.plan| - t.has else 0
  }

  lemma {:induction false} LeftOfUpdate(s: seq<Transaction>, i: nat, t: Transaction)
    requires i < |s|
    ensures Left(s[i := t]) + LeftOf(s[i]) == Left(s) + LeftOf(t)
  {
    var n := |s| - 1;
    if i == n {
      assert s[i := t][..n] == s[..n];
    } else {
      assert s[i := t][..n] == s[..n][i := t];
      LeftOfUpdate(s[..n], i, t);
    }
  }

  /** An event something comes of. */
  predicate Effective(s: seq<Transaction>, e: Event) {
    match e
    case Advance(i) => CanStep(s, i)
    case RollBack(j) => j < |s| && !s[j].over
  }

  /** Whatever comes of a step, it leaves less to do. */
  lemma StepsRunOut(s: seq<Transaction>, e: Event)
    requires Effective(s, e)
    ensures Left(Next(s, e)) < Left(s)
  {
    var i := if e.Advance? then e.i else e.j;
    LeftOfUpdate(s, i, Next(s, e)[i]);
  }

  predicate EffectiveAt(s: seq<Transaction>, events: seq<Event>, k: nat)
    requires k < |events|
  {
    Effective(Run(s, events[..k]), events[k])
  }

  /** So no run, in whatever order, takes more steps than there was to do. */
  lemma {:induction false} NoRunIsLonger(s: seq<Transaction>, events: seq<Event>)
    requires forall k {:trigger EffectiveAt(s, events, k)} | 0 <= k < |events| :: EffectiveAt(s, events, k)
    ensures |events| + Left(Run(s, events)) <= Left(s)
  {
    if events != [] {
      var n := |events| - 1;
      forall k | 0 <= k < n ensures EffectiveAt(s, events[..n], k) {
        assert EffectiveAt(s, events, k) && events[..n][..k] == events[..k];
      }
      NoRunIsLonger(s, events[..n]);
      assert EffectiveAt(s, events, n);
      StepsRunOut(Run(s, events[..n]), events[n]);
    }
  }

  /** And from every reachable state the transactions can all be brought to their end. */
  lemma {:induction false} EverybodyEnds(s: seq<Transaction>, events: seq<Event>) returns (more: seq<Event>)
    requires Started(s)
    ensures |more| >= |events| && more[..|events|] == events
    ensures forall i | 0 <= i < |Run(s, more)| :: Run(s, more)[i].over
    ensures |more| <= |events| + Left(Run(s, events))
    decreases Left(Run(s, events))
  {
    var t := Run(s, events);
    if i :| 0 <= i < |t| && !t[i].over {
      var k := SomebodyCanStep(s, events, i);
      StepsRunOut(t, Advance(k));
      assert (events + [Advance(k)])[..|events|] == events;
      more := EverybodyEnds(s, events + [Advance(k)]);
      assert more[..|events|] == more[..|events| + 1][..|events|];
    } else {
      more := events;
    }
  }

  /** In the order of the requests, two payments in opposite directions wait for each other. */
  lemma OppositeOrdersDeadlock(a: nat, b: nat) returns (s: seq<Transaction>, events: seq<Event>)
    requires a != b
    ensures |s| == 2 && s[0].plan == [WalletRow(a), WalletRow(b)] && s[1].plan == [WalletRow(b), WalletRow(a)]
    ensures s[0].has == 0 == s[1].has
    ensures WaitsFor(Run(s, events), 0, 1) && WaitsFor(Run(s, events), 1, 0)
  {
    var p, q := Transaction([WalletRow(a), WalletRow(b)], 0, false),
      Transaction([WalletRow(b), WalletRow(a)], 0, false);
    s, events := [p, q], [Advance(0), Advance(1)];
    var one := [p.(has := 1), q];
    var two := [p.(has := 1), q.(has := 1)];
    assert events[..1] == [Advance(0)] && events[..1][..0] == [];
    assert Run(s, events[..1]) == Next(s, Advance(0)) == one;
    assert CanStep(one, 1);
    assert Next(one, Advance(1)) == two;
    assert two[0].plan[0] == WalletRow(a) && two[1].plan[0] == WalletRow(b);
  }
}
