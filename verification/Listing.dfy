/** Reading the ledger a page at a time: forward and backward from a row, or by number (listing.go). */
module Listing {
  import opened Outcome

  /** What a listing orders and filters by: the columns of an entry that never change. kind stands for
      whatever else of them a filter reads. */
  datatype Listed = Listed(id: nat, createdAt: int, amount: int, wallet: nat, sequence: int, kind: nat)

  /** The four sorts a caller chooses from. */
  datatype OperationSort = Newest | Oldest | Largest | Smallest

  /** keyset: the column a sort reads, and which way. */
  function KeysetOf(order: OperationSort): Sort {
    Sort(order.Largest? || order.Smallest?, order.Newest? || order.Largest?)
  }

  datatype Sort = Sort(byAmount: bool, descending: bool) {
    function Column(r: Listed): int {
      if byAmount then r.amount else r.createdAt
    }

    function Turned(): Sort {
      Sort(byAmount, !descending)
    }
  }

  /** Where a page starts: which way it reads, and the entry it is anchored on. */
  datatype Cursor = Cursor(before: bool, id: nat)

  datatype Ask = First | Numbered(page: nat) | From(cursor: Cursor)

  datatype Page = Page(rows: seq<Listed>, next: Option<Cursor>, prev: Option<Cursor>)

  type Filter = Listed -> bool

  // ---------------------------------------------------------------- the order

  predicate Smaller(sort: Sort, a: Listed, b: Listed) {
    || sort.Column(a) < sort.Column(b)
    || (sort.Column(a) == sort.Column(b) && (a.wallet < b.wallet || (a.wallet == b.wallet && a.sequence < b.sequence)))
  }

  /** a comes before b in a listing. */
  predicate Before(sort: Sort, a: Listed, b: Listed) {
    if sort.descending then Smaller(sort, b, a) else Smaller(sort, a, b)
  }

  predicate Compare(descending: bool, x: int, y: int) {
    if descending then x < y else x > y
  }

  /** The clause a cursor adds: past the anchor on the column; or level with it, and past it on the
      wallet; or level there too, and past it in the position. */
  predicate Keyset(direction: Sort, anchor: Listed, r: Listed) {
    || Compare(direction.descending, direction.Column(r), direction.Column(anchor))
    || (direction.Column(r) == direction.Column(anchor)
        && (|| Compare(direction.descending, r.wallet, anchor.wallet)
            || (r.wallet == anchor.wallet && Compare(direction.descending, r.sequence, anchor.sequence))))
  }

  /** The clause keeps exactly the rows after the anchor. */
  lemma KeysetIsTheOrder(direction: Sort, anchor: Listed, r: Listed)
    ensures Keyset(direction, anchor, r) <==> Before(direction, anchor, r)
    ensures Before(direction.Turned(), anchor, r) <==> Before(direction, r, anchor)
  {
  }

  /** Two rows at different positions are never level. */
  lemma TheOrderIsTotal(sort: Sort, a: Listed, b: Listed, c: Listed)
    ensures a.wallet != b.wallet || a.sequence != b.sequence ==> Before(sort, a, b) || Before(sort, b, a)
    ensures !(Before(sort, a, b) && Before(sort, b, a)) && !Before(sort, a, a)
    ensures Before(sort, a, b) && Before(sort, b, c) ==> Before(sort, a, c)
  {
  }

  /** Later than, or level with and after on the wallet and then on the position. */
  predicate Ranks(x: int, a: Listed, y: int, b: Listed) {
    x > y || (x == y && (a.wallet > b.wallet || (a.wallet == b.wallet && a.sequence > b.sequence)))
  }

  /** What a caller sees of each sort: never an earlier row before a later one for newest first, nor a
      smaller one before a larger one for largest first; and the other way round. */
  predicate Comes(order: OperationSort, a: Listed, b: Listed) {
    match order
    case Newest => Ranks(a.createdAt, a, b.createdAt, b)
    case Oldest => Ranks(b.createdAt, b, a.createdAt, a)
    case Largest => Ranks(a.amount, a, b.amount, b)
    case Smallest => Ranks(b.amount, b, a.amount, a)
  }

  predicate Sorted(order: OperationSort, rows: seq<Listed>) {
    forall j, k | 0 <= j < k < |rows| :: Comes(order, rows[j], rows[k])
  }

  lemma InOrderIsSorted(order: OperationSort, rows: seq<Listed>)
    requires Increasing(KeysetOf(order), rows)
    ensures Sorted(order, rows)
  {
    forall j, k | 0 <= j < k < |rows| ensures Comes(order, rows[j], rows[k]) {
      assert Before(KeysetOf(order), rows[j], rows[k]);
    }
  }

  /** The ledger: entries are identified by their place, and no two take one position of a wallet. */
  predicate Ledger(table: seq<Listed>) {
    && (forall k | 0 <= k < |table| :: table[k].id == k)
    && (forall j, k | 0 <= j < k < |table| ::
       table[j].wallet != table[k].wallet || table[j].sequence != table[k].sequence)
  }

  predicate Increasing(sort: Sort, ws: seq<Listed>) {
    forall j, k {:trigger Before(sort, ws[j], ws[k])} | 0 <= j < k < |ws| :: Before(sort, ws[j], ws[k])
  }

  function Insert(ws: seq<Listed>, r: Listed, sort: Sort): seq<Listed> {
    if ws == [] || Before(sort, ws[|ws| - 1], r) then ws + [r]
    else Insert(ws[..|ws| - 1], r, sort) + [ws[|ws| - 1]]
  }

  lemma {:induction false} InsertIsInOrder(ws: seq<Listed>, r: Listed, sort: Sort)
    requires Increasing(sort, ws) && forall k | 0 <= k < |ws| :: Before(sort, ws[k], r) || Before(sort, r, ws[k])
    ensures Increasing(sort, Insert(ws, r, sort))
    ensures forall x :: x in Insert(ws, r, sort) <==> x in ws || x == r
  {
    if ws != [] {
      var n := |ws| - 1;
      var rest := Insert(ws[..n], r, sort);
      InsertIsInOrder(ws[..n], r, sort);
      assert ws == ws[..n] + [ws[n]];
      if !Before(sort, ws[n], r) {
        forall j | 0 <= j < |rest| ensures Before(sort, rest[j], ws[n]) {
          assert rest[j] in rest;
        }
      } else {
        forall j | 0 <= j <= n ensures Before(sort, ws[j], r) {
          TheOrderIsTotal(sort, ws[j], ws[n], r);
        }
      }
    }
  }

  /** What a filter keeps, in order: what the database answers a query with. */
  function Select(table: seq<Listed>, keeps: Filter, sort: Sort): seq<Listed> {
    if table == [] then []
    else
      var rest, last := Select(table[..|table| - 1], keeps, sort), table[|table| - 1];
      if keeps(last) then Insert(rest, last, sort) else rest
  }

  lemma {:induction false} SelectIsInOrder(table: seq<Listed>, keeps: Filter, sort: Sort)
    requires Ledger(table)
    ensures Increasing(sort, Select(table, keeps, sort))
    ensures forall x :: x in Select(table, keeps, sort) <==> x in table && keeps(x)
  {
    if table != [] {
      var head, last := table[..|table| - 1], table[|table| - 1];
      SelectIsInOrder(head, keeps, sort);
      assert table == head + [last];
      var rest := Select(head, keeps, sort);
      forall k | 0 <= k < |rest| ensures Before(sort, rest[k], last) || Before(sort, last, rest[k]) {
        assert rest[k] in rest;
        TheOrderIsTotal(sort, rest[k], last, last);
      }
      if keeps(last) {
        InsertIsInOrder(rest, last, sort);
      }
    }
  }

  /** There is one way to put rows in order. */
  lemma {:induction false} OneOrder(sort: Sort, a: seq<Listed>, b: seq<Listed>)
    requires Increasing(sort, a) && Increasing(sort, b) && forall x :: x in a <==> x in b
    ensures a == b
  {
    assert |a| > 0 ==> a[0] in b;
    assert |b| > 0 ==> b[0] in a;
    if a != [] && b != [] {
      FirstIsFirst(sort, a, b);
      forall x ensures x in a[1..] <==> x in b[1..] {
        RestIsTheRest(sort, a, x);
        RestIsTheRest(sort, b, x);
      }
      OneOrder(sort, a[1..], b[1..]);
      assert a == [a[0]] + a[1..] && b == [b[0]] + b[1..];
    }
  }

  lemma FirstIsFirst(sort: Sort, a: seq<Listed>, b: seq<Listed>)
    requires Increasing(sort, a) && Increasing(sort, b) && a != [] && b != [] && forall x :: x in a <==> x in b
    ensures a[0] == b[0]
  {
    assert a[0] in b && b[0] in a;
    var j :| 0 <= j < |b| && b[j] == a[0];
    var k :| 0 <= k < |a| && a[k] == b[0];
    TheOrderIsTotal(sort, a[0], b[0], a[0]);
  }

  lemma RestIsTheRest(sort: Sort, a: seq<Listed>, x: Listed)
    requires Increasing(sort, a) && a != []
    ensures x in a[1..] <==> x in a && x != a[0]
  {
    TheOrderIsTotal(sort, a[0], a[0], a[0]);
    if x in a && x != a[0] {
      var k :| 0 <= k < |a| && a[k] == x;
      assert a[1..][k - 1] == x;
    }
  }

  function Reversed(ws: seq<Listed>): (r: seq<Listed>)
    ensures |r| == |ws| && forall k | 0 <= k < |ws| :: r[k] == ws[|ws| - 1 - k]
  {
    seq(|ws|, k requires 0 <= k < |ws| => ws[|ws| - 1 - k])
  }

  lemma TurnedIsReversed(sort: Sort, a: seq<Listed>, b: seq<Listed>)
    requires Increasing(sort, a) && Increasing(sort.Turned(), b) && forall x :: x in a <==> x in b
    ensures a == Reversed(b)
  {
    forall j, k | 0 <= j < k < |b| ensures Before(sort, Reversed(b)[j], Reversed(b)[k]) {
      assert Before(sort.Turned(), b[|b| - 1 - k], b[|b| - 1 - j]);
      KeysetIsTheOrder(sort, b[|b| - 1 - k], b[|b| - 1 - j]);
    }
    forall x ensures x in a <==> x in Reversed(b) {
      if x in b {
        var k :| 0 <= k < |b| && b[k] == x;
        assert Reversed(b)[|b| - 1 - k] == x;
      }
    }
    OneOrder(sort, a, Reversed(b));
  }

  // ---------------------------------------------------------------- what a page is

  /** The rows of a listing after a row, and those before it. */
  function Later(ws: seq<Listed>, sort: Sort, a: Listed): seq<Listed> {
    if ws == [] then [] else if Before(sort, a, ws[0]) then ws else Later(ws[1..], sort, a)
  }

  function Earlier(ws: seq<Listed>, sort: Sort, a: Listed): seq<Listed> {
    if ws == [] || !Before(sort, ws[0], a) then [] else [ws[0]] + Earlier(ws[1..], sort, a)
  }

  function Take(ws: seq<Listed>, n: nat): seq<Listed> {
    if n < |ws| then ws[..n] else ws
  }

  function Drop(ws: seq<Listed>, n: nat): seq<Listed> {
    if n == 0 then ws else if n < |ws| then ws[n..] else []
  }

  function TakeLast(ws: seq<Listed>, n: nat): seq<Listed> {
    if n < |ws| then ws[|ws| - n..] else ws
  }

  /** Where the k-th page starts. */
  function Start(limit: nat, k: nat): nat {
    if k == 0 then 0 else Start(limit, k - 1) + limit
  }

  lemma {:induction false} StartIs(limit: nat, k: nat)
    ensures Start(limit, k) == k * limit
  {
    if k > 0 {
      StartIs(limit, k - 1);
      assert k * limit == (k - 1) * limit + limit;
    }
  }

  /** Rows, with the cursors of their ends where there are pages beyond. */
  function PageOf(rows: seq<Listed>, after: bool, before: bool): Page {
    Page(rows,
         if after && rows != [] then Some(Cursor(false, rows[|rows| - 1].id)) else None,
         if before && rows != [] then Some(Cursor(true, rows[0].id)) else None)
  }

  /** A page, said of the whole listing in its own order: walk is everything the filter keeps. */
  function Answer(table: seq<Listed>, walk: seq<Listed>, sort: Sort, ask: Ask, limit: nat): Page {
    match ask
    case First => PageOf(Take(walk, limit), |walk| > limit, false)
    case Numbered(page) =>
      var left := Drop(walk, if page > 0 then Start(limit, page - 1) else 0);
      PageOf(Take(left, limit), |left| > limit, page > 1)
    case From(cursor) =>
      if cursor.id >= |table| then Page([], None, None)
      else if cursor.before then
        var earlier := Earlier(walk, sort, table[cursor.id]);
        PageOf(TakeLast(earlier, limit), true, |earlier| > limit)
      else
        var later := Later(walk, sort, table[cursor.id]);
        PageOf(Take(later, limit), |later| > limit, true)
  }

  lemma {:induction false} LaterAreLater(ws: seq<Listed>, sort: Sort, a: Listed)
    requires Increasing(sort, ws)
    ensures Increasing(sort, Later(ws, sort, a))
    ensures forall x :: x in Later(ws, sort, a) <==> x in ws && Before(sort, a, x)
  {
    if ws != [] {
      if Before(sort, a, ws[0]) {
        forall k | 0 <= k < |ws| ensures Before(sort, a, ws[k]) {
          TheOrderIsTotal(sort, a, ws[0], ws[k]);
        }
      } else {
        LaterAreLater(ws[1..], sort, a);
        assert ws == [ws[0]] + ws[1..];
      }
    }
  }

  lemma {:induction false} EarlierAreEarlier(ws: seq<Listed>, sort: Sort, a: Listed)
    requires Increasing(sort, ws)
    ensures Increasing(sort, Earlier(ws, sort, a))
    ensures forall x :: x in Earlier(ws, sort, a) <==> x in ws && Before(sort, x, a)
  {
    if ws != [] {
      assert ws == [ws[0]] + ws[1..];
      if Before(sort, ws[0], a) {
        EarlierAreEarlier(ws[1..], sort, a);
        var rest := Earlier(ws[1..], sort, a);
        forall k | 0 <= k < |rest| ensures Before(sort, ws[0], rest[k]) {
          assert rest[k] in rest && rest[k] in ws[1..];
        }
      } else {
        forall k | 0 <= k < |ws| ensures !Before(sort, ws[k], a) {
          TheOrderIsTotal(sort, ws[0], ws[k], a);
        }
      }
    }
  }

  // ---------------------------------------------------------------- reading a page

  /** The query of a page: narrowed to one side of the anchor, and turned around to read backward. */
  method Query(table: seq<Listed>, keeps: Filter, sort: Sort, ask: Ask) returns (found: seq<Listed>)
    requires Ledger(table) && (ask.From? ==> ask.cursor.id < |table|)
    ensures var walk := Select(table, keeps, sort);
            if !ask.From? then found == walk
            else if ask.cursor.before then Earlier(walk, sort, table[ask.cursor.id]) == Reversed(found)
            else found == Later(walk, sort, table[ask.cursor.id])
  {
    var direction, narrowed := sort, keeps;
    if ask.From? {
      var anchor := table[ask.cursor.id];
      direction := if ask.cursor.before then sort.Turned() else sort;
      narrowed := r => keeps(r) && Keyset(direction, anchor, r);
    }
    FoundIs(table, keeps, sort, ask, narrowed, direction);
    found := Select(table, narrowed, direction);
  }

  /** listOperations: one row more than the page is read to know whether there is another. */
  method ListOperations(table: seq<Listed>, keeps: Filter, order: OperationSort, ask: Ask, limit: nat)
      returns (out: Page)
    requires Ledger(table) && limit > 0 && (ask.Numbered? ==> ask.page > 0)
    ensures out == Answer(table, Select(table, keeps, KeysetOf(order)), KeysetOf(order), ask, limit)
    ensures Sorted(order, out.rows) && |out.rows| <= limit
    ensures forall k | 0 <= k < |out.rows| :: out.rows[k] in table && keeps(out.rows[k])
  {
    var sort := KeysetOf(order);
    PagesAreSorted(table, keeps, order, ask, limit);
    if ask.From? && ask.cursor.id >= |table| {
      return Page([], None, None);
    }
    var backward := ask.From? && ask.cursor.before;
    var found := Query(table, keeps, sort, ask);
    if ask.Numbered? {
      StartIs(limit, ask.page - 1);
      found := Drop(found, (ask.page - 1) * limit);
    }
    var rows, more := Fill(found, limit, backward);
    out := WithCursors(rows, more, backward, ask.From? || (ask.Numbered? && ask.page > 1));
  }

  /** A page is in the order that was asked for, of rows of the ledger its filter keeps. */
  lemma PagesAreSorted(table: seq<Listed>, keeps: Filter, order: OperationSort, ask: Ask, limit: nat)
    requires Ledger(table) && limit > 0
    ensures var out := Answer(table, Select(table, keeps, KeysetOf(order)), KeysetOf(order), ask, limit);
            && Sorted(order, out.rows) && |out.rows| <= limit
            && forall k | 0 <= k < |out.rows| :: out.rows[k] in table && keeps(out.rows[k])
  {
    var sort := KeysetOf(order);
    var walk := Select(table, keeps, sort);
    SelectIsInOrder(table, keeps, sort);
    if ask.From? && ask.cursor.id < |table| {
      LaterAreLater(walk, sort, table[ask.cursor.id]);
      EarlierAreEarlier(walk, sort, table[ask.cursor.id]);
    }
    var out := Answer(table, walk, sort, ask, limit);
    InOrderIsSorted(order, out.rows);
    forall k | 0 <= k < |out.rows| ensures out.rows[k] in table && keeps(out.rows[k]) {
      assert out.rows[k] in out.rows;
    }
  }

  /** A page of the rows found: those read backward are turned back in place. */
  method Fill(found: seq<Listed>, limit: nat, backward: bool) returns (rows: seq<Listed>, more: bool)
    ensures rows == if backward then TakeLast(Reversed(found), limit) else Take(found, limit)
    ensures more <==> |found| > limit
  {
    more := |found| > limit;
    var entries := new Listed[if more then limit else |found|](k requires 0 <= k < |found| => found[k]);
    assert entries[..] == Take(found, limit);
    if backward {
      TurnedBack(found, limit);
      ReverseInPlace(entries);
    }
    rows := entries[..];
  }

  /** The cursors of a page: read backward, there is the page it came from after it; read forward,
      there is one before it unless it is the first. */
  method WithCursors(rows: seq<Listed>, more: bool, backward: bool, within: bool) returns (out: Page)
    ensures out == if backward then PageOf(rows, true, more) else PageOf(rows, more, within)
  {
    out := Page(rows, None, None);
    if rows != [] {
      var first, last := rows[0].id, rows[|rows| - 1].id;
      if backward {
        out := out.(next := Some(Cursor(false, last)));
        if more {
          out := out.(prev := Some(Cursor(true, first)));
        }
      } else {
        if more {
          out := out.(next := Some(Cursor(false, last)));
        }
        if within {
          out := out.(prev := Some(Cursor(true, first)));
        }
      }
    }
  }

  lemma TurnedBack(found: seq<Listed>, limit: nat)
    ensures Reversed(Take(found, limit)) == TakeLast(Reversed(found), limit)
  {
  }

  method ReverseInPlace(entries: array<Listed>)
    modifies entries
    ensures entries[..] == Reversed(old(entries[..]))
  {
    var i, j := 0, entries.Length - 1;
    while i < j
      invariant 0 <= i <= j + 1 <= entries.Length && i + j == entries.Length - 1
      invariant forall k | 0 <= k < i || j < k < entries.Length :: entries[k] == old(entries[entries.Length - 1 - k])
      invariant forall k | i <= k <= j :: entries[k] == old(entries[k])
    {
      entries[i], entries[j] := entries[j], entries[i];
      i, j := i + 1, j - 1;
    }
  }

  /** What a query narrowed by a cursor finds is the rows after the anchor, or those before it turned
      around. */
  lemma FoundIs(table: seq<Listed>, keeps: Filter, sort: Sort, ask: Ask, narrowed: Filter, direction: Sort)
    requires Ledger(table) && (ask.From? ==> ask.cursor.id < |table|)
    requires direction == if ask.From? && ask.cursor.before then sort.Turned() else sort
    requires forall r :: narrowed(r) <==> keeps(r) && (ask.From? ==> Keyset(direction, table[ask.cursor.id], r))
    ensures var walk, found := Select(table, keeps, sort), Select(table, narrowed, direction);
            if !ask.From? then found == walk
            else if ask.cursor.before then Earlier(walk, sort, table[ask.cursor.id]) == Reversed(found)
            else found == Later(walk, sort, table[ask.cursor.id])
  {
    var walk, found := Select(table, keeps, sort), Select(table, narrowed, direction);
    SelectIsInOrder(table, keeps, sort);
    SelectIsInOrder(table, narrowed, direction);
    if !ask.From? {
      OneOrder(sort, walk, found);
    } else {
      var anchor := table[ask.cursor.id];
      forall r ensures Keyset(direction, anchor, r) <==>
        if ask.cursor.before then Before(sort, r, anchor) else Before(sort, anchor, r) {
        KeysetIsTheOrder(direction, anchor, r);
        KeysetIsTheOrder(sort, anchor, r);
      }
      if ask.cursor.before {
        EarlierAreEarlier(walk, sort, anchor);
        TurnedIsReversed(sort, Earlier(walk, sort, anchor), found);
      } else {
        LaterAreLater(walk, sort, anchor);
        OneOrder(sort, Later(walk, sort, anchor), found);
      }
    }
  }

  // ---------------------------------------------------------------- walking a listing that stands still

  lemma {:induction false} AroundARow(ws: seq<Listed>, sort: Sort, k: nat)
    requires Increasing(sort, ws) && k < |ws|
    ensures Later(ws, sort, ws[k]) == ws[k + 1..] && Earlier(ws, sort, ws[k]) == ws[..k]
  {
    TheOrderIsTotal(sort, ws[0], ws[k], ws[k]);
    if k == 0 {
      TheOrderIsTotal(sort, ws[0], ws[0], ws[0]);
      if |ws| > 1 {
        assert Later(ws[1..], sort, ws[0]) == ws[1..];
      }
    } else {
      AroundARow(ws[1..], sort, k - 1);
    }
  }

  /** The rows from one place of a listing, as many as fit a page. */
  function Chunk(walk: seq<Listed>, limit: nat, from: nat): seq<Listed> {
    var left := if from < |walk| then |walk| - from else 0;
    seq(if left < limit then left else limit, k requires 0 <= k && from + k < |walk| => walk[from + k])
  }

  predicate Walks(table: seq<Listed>, walk: seq<Listed>, sort: Sort) {
    Increasing(sort, walk) && forall k {:trigger Known(table, walk, k)} | 0 <= k < |walk| :: Known(table, walk, k)
  }

  predicate Known(table: seq<Listed>, walk: seq<Listed>, k: nat)
    requires k < |walk|
  {
    walk[k].id < |table| && table[walk[k].id] == walk[k]
  }

  lemma SelectWalks(table: seq<Listed>, keeps: Filter, sort: Sort)
    requires Ledger(table)
    ensures Walks(table, Select(table, keeps, sort), sort)
  {
    var walk := Select(table, keeps, sort);
    SelectIsInOrder(table, keeps, sort);
    forall k | 0 <= k < |walk| ensures Known(table, walk, k) {
      assert walk[k] in table;
    }
  }

  /** The k-th page is the one the cursor of the page before it reads. */
  predicate Follows(table: seq<Listed>, walk: seq<Listed>, sort: Sort, limit: nat, pages: seq<Page>, k: nat)
    requires k < |pages|
  {
    if k == 0 then pages[k] == Answer(table, walk, sort, First, limit)
    else pages[k - 1].next.Some? && pages[k] == Answer(table, walk, sort, From(pages[k - 1].next.value), limit)
  }

  /** Pages read one after another, each by the cursor of the one before. */
  predicate CursorPages(table: seq<Listed>, walk: seq<Listed>, sort: Sort, limit: nat, pages: seq<Page>) {
    forall k {:trigger Follows(table, walk, sort, limit, pages, k)} | 0 <= k < |pages| ::
      Follows(table, walk, sort, limit, pages, k)
  }

  /** A page is the chunk of the listing from one place: with a next exactly while there is more, and a
      previous unless it starts the listing. */
  predicate IsChunk(walk: seq<Listed>, limit: nat, from: nat, page: Page)
    requires limit > 0
  {
    && page.rows == Chunk(walk, limit, from)
    && (from == 0 || from < |walk|)
    && page.next == (if |walk| > from + limit then Some(Cursor(false, walk[from + limit - 1].id)) else None)
    && page.prev == (if from > 0 then Some(Cursor(true, walk[from].id)) else None)
  }

  /** Pages by cursor are the chunks of the listing, in turn. */
  lemma {:induction false} CursorPagesAreChunks(table: seq<Listed>, walk: seq<Listed>, sort: Sort, limit: nat,
      pages: seq<Page>, k: nat)
    requires Walks(table, walk, sort) && limit > 0 && CursorPages(table, walk, sort, limit, pages) && k < |pages|
    ensures IsChunk(walk, limit, Start(limit, k), pages[k])
  {
    assert Follows(table, walk, sort, limit, pages, k);
    if k > 0 {
      CursorPagesAreChunks(table, walk, sort, limit, pages, k - 1);
      NextOfAChunk(table, walk, sort, limit, Start(limit, k - 1), pages[k - 1]);
    } else {
      FirstIsAChunk(table, walk, sort, limit);
    }
  }

  lemma FirstIsAChunk(table: seq<Listed>, walk: seq<Listed>, sort: Sort, limit: nat)
    requires limit > 0
    ensures IsChunk(walk, limit, 0, Answer(table, walk, sort, First, limit))
  {
    assert Drop(walk, 0) == walk;
  }

  lemma AfterAChunk(table: seq<Listed>, walk: seq<Listed>, sort: Sort, limit: nat, from: nat)
    requires Walks(table, walk, sort) && 0 < from < |walk| && limit > 0
    ensures IsChunk(walk, limit, from, Answer(table, walk, sort, From(Cursor(false, walk[from - 1].id)), limit))
  {
    assert Known(table, walk, from - 1);
    AroundARow(walk, sort, from - 1);
  }

  lemma NextOfAChunk(table: seq<Listed>, walk: seq<Listed>, sort: Sort, limit: nat, from: nat, page: Page)
    requires Walks(table, walk, sort) && limit > 0 && IsChunk(walk, limit, from, page) && page.next.Some?
    ensures IsChunk(walk, limit, from + limit, Answer(table, walk, sort, From(page.next.value), limit))
  {
    AfterAChunk(table, walk, sort, limit, from + limit);
  }

  lemma BeforeAChunk(table: seq<Listed>, walk: seq<Listed>, sort: Sort, limit: nat, from: nat)
    requires Walks(table, walk, sort) && limit <= from < |walk| && limit > 0
    ensures IsChunk(walk, limit, from - limit, Answer(table, walk, sort, From(Cursor(true, walk[from].id)), limit))
  {
    assert Known(table, walk, from);
    AroundARow(walk, sort, from);
  }

  lemma NumberedIsAChunk(table: seq<Listed>, walk: seq<Listed>, sort: Sort, limit: nat, k: nat)
    requires limit > 0 && (k == 0 || Start(limit, k) < |walk|)
    ensures IsChunk(walk, limit, Start(limit, k), Answer(table, walk, sort, Numbered(k + 1), limit))
  {
  }

  /** On a listing that stands still, a page read by number is the page the cursors come to. */
  lemma NumberedPagesAreCursorPages(table: seq<Listed>, walk: seq<Listed>, sort: Sort, limit: nat, pages: seq<Page>,
      k: nat)
    requires Walks(table, walk, sort) && limit > 0 && CursorPages(table, walk, sort, limit, pages) && k < |pages|
    ensures Answer(table, walk, sort, Numbered(k + 1), limit) == pages[k]
  {
    CursorPagesAreChunks(table, walk, sort, limit, pages, k);
    NumberedIsAChunk(table, walk, sort, limit, k);
  }

  /** And the cursor back from a page reads exactly the page before it, rows and cursors. */
  lemma BackIsThePageBefore(table: seq<Listed>, walk: seq<Listed>, sort: Sort, limit: nat, pages: seq<Page>, k: nat)
    requires Walks(table, walk, sort) && limit > 0 && CursorPages(table, walk, sort, limit, pages) && 0 < k < |pages|
    ensures pages[k].prev.Some? && Answer(table, walk, sort, From(pages[k].prev.value), limit) == pages[k - 1]
  {
    CursorPagesAreChunks(table, walk, sort, limit, pages, k);
    CursorPagesAreChunks(table, walk, sort, limit, pages, k - 1);
    BackFromAChunk(table, walk, sort, limit, Start(limit, k), pages[k], pages[k - 1]);
  }

  lemma BackFromAChunk(table: seq<Listed>, walk: seq<Listed>, sort: Sort, limit: nat, from: nat, page: Page,
      before: Page)
    requires Walks(table, walk, sort) && 0 < limit <= from
    requires IsChunk(walk, limit, from, page) && IsChunk(walk, limit, from - limit, before)
    ensures page.prev.Some? && Answer(table, walk, sort, From(page.prev.value), limit) == before
  {
    BeforeAChunk(table, walk, sort, limit, from);
  }

  /** And the last of them, with no cursor to follow, ends the listing: together they are all of it. */
  lemma {:induction false} CursorPagesAreTheListing(table: seq<Listed>, walk: seq<Listed>, sort: Sort, limit: nat,
      pages: seq<Page>, k: nat)
    requires Walks(table, walk, sort) && limit > 0 && CursorPages(table, walk, sort, limit, pages) && k < |pages|
    ensures RowsOf(pages[..k + 1]) == Take(walk, Start(limit, k) + limit)
    ensures pages[k].next.None? ==> RowsOf(pages[..k + 1]) == walk
  {
    CursorPagesAreChunks(table, walk, sort, limit, pages, k);
    assert pages[..k + 1][..k] == pages[..k];
    if k > 0 {
      CursorPagesAreTheListing(table, walk, sort, limit, pages, k - 1);
    }
  }

  function RowsOf(pages: seq<Page>): seq<Listed> {
    if pages == [] then [] else RowsOf(pages[..|pages| - 1]) + pages[|pages| - 1].rows
  }

  // ---------------------------------------------------------------- and one that grows

  /** The ledger as each read finds it: only ever appended to. */
  predicate Grows(tables: seq<seq<Listed>>) {
    && (forall k | 0 <= k < |tables| :: Ledger(tables[k]))
    && (forall j, k | 0 <= j <= k < |tables| :: tables[j] <= tables[k])
  }

  /** The k-th read answers from the ledger it finds, by the cursor of the read before it. */
  predicate Reads(tables: seq<seq<Listed>>, keeps: Filter, sort: Sort, limit: nat, pages: seq<Page>, k: nat)
    requires k < |pages| <= |tables|
  {
    var walk := Select(tables[k], keeps, sort);
    if k == 0 then pages[k] == Answer(tables[k], walk, sort, First, limit)
    else pages[k - 1].next.Some? && pages[k] == Answer(tables[k], walk, sort, From(pages[k - 1].next.value), limit)
  }

  predicate ReadsOn(tables: seq<seq<Listed>>, keeps: Filter, sort: Sort, limit: nat, pages: seq<Page>)
    requires |pages| <= |tables|
  {
    forall k {:trigger Reads(tables, keeps, sort, limit, pages, k)} | 0 <= k < |pages| ::
      Reads(tables, keeps, sort, limit, pages, k)
  }

  /** How far a walk has come: what it read is in order, nothing that was there is missing up to where
      it stands, and nothing at all where there is no more to read. */
  predicate Reaches(initial: seq<Listed>, table: seq<Listed>, keeps: Filter, sort: Sort, read: seq<Listed>,
      next: Option<Cursor>)
  {
    && Increasing(sort, read)
    && (forall k | 0 <= k < |read| :: read[k] in table && keeps(read[k]))
    && (next.Some? ==> read != [] && next.value == Cursor(false, read[|read| - 1].id))
    && (forall x | x in initial && keeps(x) :: x in read || (next.Some? && Before(sort, read[|read| - 1], x)))
  }

  /** One more page, of whatever the ledger is by then. */
  lemma OneMorePage(initial: seq<Listed>, table: seq<Listed>, keeps: Filter, sort: Sort, limit: nat, read: seq<Listed>,
      next: Option<Cursor>)
    requires Ledger(table) && initial <= table && limit > 0
    requires if next.Some? then Reaches(initial, table, keeps, sort, read, next) else read == []
    ensures var ask := if next.Some? then From(next.value) else First;
            var page := Answer(table, Select(table, keeps, sort), sort, ask, limit);
            Reaches(initial, table, keeps, sort, read + page.rows, page.next)
  {
    var walk := Select(table, keeps, sort);
    SelectIsInOrder(table, keeps, sort);
    var ahead := walk;
    if next.Some? {
      var last := read[|read| - 1];
      assert last in table && table[last.id] == last;
      LaterAreLater(walk, sort, last);
      ahead := Later(walk, sort, last);
      forall j, k | 0 <= j < |read| && 0 <= k < |ahead| ensures Before(sort, read[j], ahead[k]) {
        assert ahead[k] in ahead;
        TheOrderIsTotal(sort, read[j], last, ahead[k]);
      }
    }
    PageAhead(initial, table, keeps, sort, limit, read, ahead);
  }

  /** Reading the first of what is ahead. */
  lemma PageAhead(initial: seq<Listed>, table: seq<Listed>, keeps: Filter, sort: Sort, limit: nat, read: seq<Listed>,
      ahead: seq<Listed>)
    requires limit > 0 && Increasing(sort, read) && Increasing(sort, ahead)
    requires forall j, k | 0 <= j < |read| && 0 <= k < |ahead| :: Before(sort, read[j], ahead[k])
    requires forall k | 0 <= k < |read| :: read[k] in table && keeps(read[k])
    requires forall k | 0 <= k < |ahead| :: ahead[k] in table && keeps(ahead[k])
    requires forall x | x in initial && keeps(x) :: x in read || x in ahead
    ensures var page := PageOf(Take(ahead, limit), |ahead| > limit, true);
            Reaches(initial, table, keeps, sort, read + page.rows, page.next)
  {
    var rows := Take(ahead, limit);
    forall x | x in initial && keeps(x)
      ensures x in read + rows || (|ahead| > limit && Before(sort, rows[|rows| - 1], x))
    {
      if x !in read {
        var k :| 0 <= k < |ahead| && ahead[k] == x;
        assert k < |rows| ==> rows[k] == x;
      }
    }
  }

  /** Following the cursors from the first page, whatever is appended between the reads: every row that
      was there at the start is read exactly once, in the order of the listing, by the time there is no
      cursor to follow. */
  lemma {:induction false} NothingIsMissedOrRepeated(
      tables: seq<seq<Listed>>, keeps: Filter, sort: Sort, limit: nat, pages: seq<Page>, k: nat)
    requires limit > 0 && k < |pages| <= |tables| && Grows(tables) && ReadsOn(tables, keeps, sort, limit, pages)
    ensures Reaches(tables[0], tables[k], keeps, sort, RowsOf(pages[..k + 1]), pages[k].next)
    ensures pages[k].next.None? ==> forall x | x in tables[0] && keeps(x) :: x in RowsOf(pages[..k + 1])
  {
    var read := RowsOf(pages[..k]);
    assert RowsOf(pages[..k + 1]) == read + pages[k].rows by {
      assert pages[..k + 1][..k] == pages[..k];
    }
    assert Reads(tables, keeps, sort, limit, pages, k);
    if k == 0 {
      OneMorePage(tables[0], tables[0], keeps, sort, limit, [], None);
    } else {
      NothingIsMissedOrRepeated(tables, keeps, sort, limit, pages, k - 1);
      OneMorePage(tables[0], tables[k], keeps, sort, limit, read, pages[k - 1].next);
    }
    AllIsRead(tables[0], tables[k], keeps, sort, read + pages[k].rows, pages[k].next);
  }

  lemma AllIsRead(
      initial: seq<Listed>, table: seq<Listed>, keeps: Filter, sort: Sort, read: seq<Listed>, next: Option<Cursor>)
    requires Reaches(initial, table, keeps, sort, read, next)
    ensures next.None? ==> forall x | x in initial && keeps(x) :: x in read
  {
  }

  /** And all that was read by then is in the order that was asked for, as one listing. */
  lemma WhatIsReadIsSorted(
      tables: seq<seq<Listed>>, keeps: Filter, order: OperationSort, limit: nat, pages: seq<Page>, k: nat)
    requires limit > 0 && k < |pages| <= |tables| && Grows(tables)
    requires ReadsOn(tables, keeps, KeysetOf(order), limit, pages)
    ensures Sorted(order, RowsOf(pages[..k + 1]))
    ensures forall x | x in RowsOf(pages[..k + 1]) :: x in tables[k] && keeps(x)
    ensures pages[k].next.None? ==> forall x | x in tables[0] && keeps(x) :: x in RowsOf(pages[..k + 1])
  {
    NothingIsMissedOrRepeated(tables, keeps, KeysetOf(order), limit, pages, k);
    InOrderIsSorted(order, RowsOf(pages[..k + 1]));
  }

  // ---------------------------------------------------------------- the cursor a caller is handed

  const MAX_IDENTIFIER_LEN := 64

  /** What a cursor is made of, before it is spelled in base 64. */
  function EncodeCursor(before: bool, id: string): string {
    (if before then "p" else "n") + ":" + id
  }

  /** The text up to the first colon, and after it. */
  function CutAtColon(text: string): Option<(string, string)> {
    if text == "" then None
    else if text[0] == ':' then Some(("", text[1..]))
    else
      var rest := CutAtColon(text[1..]);
      if rest.None? then None else Some(([text[0]] + rest.value.0, rest.value.1))
  }

  function DecodeCursor(text: string): Option<(bool, string)> {
    var cut := CutAtColon(text);
    if cut.None? || cut.value.1 == "" || |cut.value.1| > MAX_IDENTIFIER_LEN
      || (cut.value.0 != "n" && cut.value.0 != "p") then None
    else Some((cut.value.0 == "p", cut.value.1))
  }

  /** A cursor reads back as what it was written of, for every identifier there is; and nothing else
      is read as a cursor. */
  lemma CursorsReadBack(before: bool, id: string, text: string)
    ensures DecodeCursor(EncodeCursor(before, id)) == if 1 <= |id| <= 64 then Some((before, id))
            else None
    ensures DecodeCursor(text) == Some((before, id)) ==> text == EncodeCursor(before, id)
  {
    var way := if before then "p" else "n";
    assert EncodeCursor(before, id)[1..] == ":" + id && (":" + id)[1..] == id;
    assert CutAtColon(":" + id) == Some(("", id));
    assert CutAtColon(EncodeCursor(before, id)) == Some((way, id)) by {
      assert [way[0]] + "" == way;
    }
    CutAndJoined(text);
  }

  lemma {:induction false} CutAndJoined(text: string)
    ensures CutAtColon(text).Some? ==> text == CutAtColon(text).value.0 + ":" + CutAtColon(text).value.1
  {
    if text != "" && text[0] != ':' {
      CutAndJoined(text[1..]);
    }
  }
}
