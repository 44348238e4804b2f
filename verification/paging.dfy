/** Keyset pagination: a page is cut with a one-row probe, its last row is the next
    cursor, and rows come and go between pages. */
module Paging {
  import opened Basics

  // ---- One page, over any strict total order ----------------------------------------

  type Order<!T> = (T, T) -> bool

  ghost predicate StrictTotal<T(!new)>(before: Order<T>) {
    && (forall a :: !before(a, a))
    && (forall a, b :: a != b ==> before(a, b) || before(b, a))
    && (forall a, b, c :: before(a, b) && before(b, c) ==> before(a, c))
  }

  ghost predicate InOrder<T(!new)>(before: Order<T>, s: seq<T>) {
    forall i, j :: 0 <= i < j < |s| ==> before(s[i], s[j])
  }

  /** The rows past the cursor. */
  ghost function Past<T(!new)>(before: Order<T>, rows: set<T>, cursor: Option<T>): set<T> {
    set r | r in rows && (cursor.None? || before(cursor.value, r))
  }

  /** `order by … limit n`: the first n rows in order. */
  ghost predicate IsFirst<T(!new)>(before: Order<T>, rows: set<T>, n: nat, list: seq<T>) {
    && InOrder(before, list) && |list| == Min(n, |rows|)
    && (forall r :: r in list ==> r in rows)
    && (forall r, i :: r in rows && r !in list && 0 <= i < |list| ==> before(list[i], r))
  }

  datatype Page<T> = Page(items: seq<T>, next: Option<T>)

  /** A page: the first `limit` rows past the cursor, and a next cursor, its last
      row, exactly when a row remains beyond it. */
  ghost predicate IsPage<T(!new)>(before: Order<T>, rows: set<T>, cursor: Option<T>, limit: nat, page: Page<T>) {
    var past := Past(before, rows, cursor);
    && IsFirst(before, past, limit, page.items)
    && (page.next.Some? <==> |past| > limit)
    && (page.next.Some? ==> page.items != [] && page.next.value == page.items[|page.items| - 1])
  }

  /** clampLimit. */
  function ClampLimit(n: int): (r: nat)
    ensures 1 <= r <= 200
    ensures 1 <= n <= 200 ==> r == n
    ensures n <= 0 ==> r == 50
    ensures n > 200 ==> r == 200
  {
    if n <= 0 then 50 else if n > 200 then 200 else n
  }

  lemma {:induction false} ListSize<T(!new)>(before: Order<T>, s: seq<T>)
    requires StrictTotal(before) && InOrder(before, s)
    ensures |set x | x in s| == |s|
  {
    if s != [] {
      var n := |s| - 1;
      ListSize(before, s[..n]);
      assert s[n] !in s[..n];
      assert (set x | x in s) == (set x | x in s[..n]) + {s[n]};
    }
  }

  lemma ListOfAll<T(!new)>(before: Order<T>, rows: set<T>, n: nat, list: seq<T>)
    requires StrictTotal(before) && IsFirst(before, rows, n, list) && |rows| <= n
    ensures forall r :: r in rows ==> r in list
  {
    ListSize(before, list);
    var got := set x | x in list;
    assert got <= rows;
    assert rows == got + (rows - got);
    assert |rows - got| == 0;
  }

  /** Cutting the probe row leaves the page. */
  lemma ProbeCut<T(!new)>(before: Order<T>, rows: set<T>, cursor: Option<T>, limit: nat, list: seq<T>)
    requires StrictTotal(before) && limit > 0 && IsFirst(before, Past(before, rows, cursor), limit + 1, list)
    ensures IsPage(before, rows, cursor, limit,
      if |list| > limit then Page(list[..limit], Some(list[limit - 1])) else Page(list, None))
  {
    var past := Past(before, rows, cursor);
    if |list| > limit {
      var items := list[..limit];
      assert forall r :: r in items ==> r in list;
      forall j | 0 <= j < limit ensures list[j] in items { assert items[j] == list[j]; }
      forall r, i | r in past && r !in items && 0 <= i < |items| ensures before(items[i], r) {
        if r in list {
          var j :| 0 <= j < |list| && list[j] == r;
          assert j == limit;
        }
      }
    }
  }

  // ---- A scan while rows come and go ------------------------------------------------

  /** One request of a scan: the rows that existed and matched when it ran. */
  datatype Request<T> = Request(rows: set<T>, limit: nat, page: Page<T>)

  ghost function CursorAt<T(!new)>(scan: seq<Request<T>>, i: nat): Option<T>
    requires i <= |scan|
  {
    if i == 0 then None else scan[i - 1].page.next
  }

  /** Request `i` follows the cursor the one before it returned. */
  ghost predicate Follows<T(!new)>(before: Order<T>, scan: seq<Request<T>>, i: int) {
    && 0 <= i < |scan| && scan[i].limit > 0 && (i > 0 ==> CursorAt(scan, i).Some?)
    && IsPage(before, scan[i].rows, CursorAt(scan, i), scan[i].limit, scan[i].page)
  }

  ghost predicate IsScan<T(!new)>(before: Order<T>, scan: seq<Request<T>>) {
    forall i {:trigger Follows(before, scan, i)} :: 0 <= i < |scan| ==> Follows(before, scan, i)
  }

  ghost function Collected<T>(scan: seq<Request<T>>): seq<T> {
    if scan == [] then [] else Collected(scan[..|scan| - 1]) + scan[|scan| - 1].page.items
  }

  lemma Shorter<T(!new)>(before: Order<T>, scan: seq<Request<T>>)
    requires IsScan(before, scan) && scan != []
    ensures IsScan(before, scan[..|scan| - 1])
  {
    var n := |scan| - 1;
    forall i | 0 <= i < n ensures Follows(before, scan[..n], i) {
      assert Follows(before, scan, i) && CursorAt(scan[..n], i) == CursorAt(scan, i);
    }
  }

  ghost predicate UpTo<T(!new)>(before: Order<T>, s: seq<T>, c: Option<T>) {
    c.Some? ==> forall r :: r in s ==> r == c.value || before(r, c.value)
  }

  lemma JoinInOrder<T(!new)>(before: Order<T>, a: seq<T>, c: T, b: seq<T>)
    requires StrictTotal(before) && InOrder(before, a) && InOrder(before, b)
    requires UpTo(before, a, Some(c)) && forall r :: r in b ==> before(c, r)
    ensures InOrder(before, a + b)
  {
    forall i, j | 0 <= i < j < |a + b| ensures before((a + b)[i], (a + b)[j]) {
      if i < |a| && j >= |a| { assert a[i] in a && b[j - |a|] in b; }
    }
  }

  lemma PageUpToNext<T(!new)>(before: Order<T>, rows: set<T>, cursor: Option<T>, limit: nat, page: Page<T>, a: seq<T>)
    requires StrictTotal(before) && IsPage(before, rows, cursor, limit, page)
    requires UpTo(before, a, cursor) && (cursor.None? ==> a == [])
    ensures UpTo(before, a + page.items, page.next)
    ensures forall r :: r in page.items ==> cursor.None? || before(cursor.value, r)
  {
    var b := page.items;
    forall r | r in b ensures r in Past(before, rows, cursor) {}
    if page.next.Some? {
      var c := page.next.value;
      forall r | r in b ensures r == c || before(r, c) {
        var i :| 0 <= i < |b| && b[i] == r;
      }
      assert c in b;
    }
  }

  /** Everything collected comes up to the cursor. */
  lemma {:induction false} CollectedUpToCursor<T(!new)>(before: Order<T>, scan: seq<Request<T>>)
    requires StrictTotal(before) && IsScan(before, scan)
    ensures InOrder(before, Collected(scan)) && UpTo(before, Collected(scan), CursorAt(scan, |scan|))
  {
    if scan != [] {
      var n := |scan| - 1;
      var init, last, cursor := scan[..n], scan[n], CursorAt(scan, n);
      Shorter(before, scan);
      CollectedUpToCursor(before, init);
      assert CursorAt(init, n) == cursor && Follows(before, scan, n);
      var a := Collected(init);
      PageUpToNext(before, last.rows, cursor, last.limit, last.page, a);
      if n == 0 {
        assert a + last.page.items == last.page.items;
      } else {
        JoinInOrder(before, a, cursor.value, last.page.items);
      }
    }
  }

  /** No row is ever returned twice, and all come in order, whatever was inserted
      or deleted between the pages; each was there and matching when returned. */
  lemma ScanReturnsOnceInOrder<T(!new)>(before: Order<T>, scan: seq<Request<T>>)
    requires StrictTotal(before) && IsScan(before, scan)
    ensures InOrder(before, Collected(scan))
    ensures forall i, j :: 0 <= i < j < |Collected(scan)| ==> Collected(scan)[i] != Collected(scan)[j]
    ensures forall k, r :: 0 <= k < |scan| && r in scan[k].page.items ==> r in scan[k].rows
  {
    CollectedUpToCursor(before, scan);
    forall k, r | 0 <= k < |scan| && r in scan[k].page.items ensures r in scan[k].rows {
      assert Follows(before, scan, k) && r in Past(before, scan[k].rows, CursorAt(scan, k));
    }
  }

  /** A row there all along is collected, or still lies past the cursor. */
  lemma {:induction false} SteadyRow<T(!new)>(before: Order<T>, scan: seq<Request<T>>, r: T)
    requires StrictTotal(before) && IsScan(before, scan)
    requires forall i :: 0 <= i < |scan| ==> r in scan[i].rows
    ensures var cursor := CursorAt(scan, |scan|);
      scan == [] || r in Collected(scan) || (cursor.Some? && before(cursor.value, r))
  {
    if scan != [] {
      var n := |scan| - 1;
      var init, last := scan[..n], scan[n];
      Shorter(before, scan);
      SteadyRow(before, init, r);
      assert CursorAt(init, n) == CursorAt(scan, n) && Follows(before, scan, n);
      if r !in Collected(init) {
        var past := Past(before, last.rows, CursorAt(scan, n));
        assert r in past;
        if r !in last.page.items && last.page.next.None? {
          ListOfAll(before, past, last.limit, last.page.items);
        }
      }
    }
  }

  /** A finished scan returned every row that existed and matched throughout. */
  lemma FinishedScanMissesNothingSteady<T(!new)>(before: Order<T>, scan: seq<Request<T>>, r: T)
    requires StrictTotal(before) && IsScan(before, scan) && scan != []
    requires scan[|scan| - 1].page.next.None?
    requires forall i :: 0 <= i < |scan| ==> r in scan[i].rows
    ensures r in Collected(scan)
  {
    SteadyRow(before, scan, r);
  }

  lemma {:induction false} CollectedFrom<T(!new)>(scan: seq<Request<T>>, r: T)
    requires r in Collected(scan)
    ensures exists k :: 0 <= k < |scan| && r in scan[k].page.items
  {
    var n := |scan| - 1;
    if r in Collected(scan[..n]) {
      CollectedFrom(scan[..n], r);
      var k :| 0 <= k < n && r in scan[..n][k].page.items;
      assert scan[k] == scan[..n][k];
    } else {
      assert r in scan[n].page.items;
    }
  }

  /** On data that does not change the pages join into the whole sorted list. */
  lemma FixedDataIsWholeList<T(!new)>(before: Order<T>, scan: seq<Request<T>>, rows: set<T>)
    requires StrictTotal(before) && IsScan(before, scan) && scan != []
    requires scan[|scan| - 1].page.next.None?
    requires forall i :: 0 <= i < |scan| ==> scan[i].rows == rows
    ensures IsFirst(before, rows, |rows|, Collected(scan)) && forall r :: r in rows <==> r in Collected(scan)
  {
    ScanReturnsOnceInOrder(before, scan);
    var all := Collected(scan);
    forall r ensures r in rows <==> r in all {
      if r in rows { FinishedScanMissesNothingSteady(before, scan, r); }
      if r in all {
        CollectedFrom(scan, r);
        var k :| 0 <= k < |scan| && r in scan[k].page.items;
        assert Follows(before, scan, k);
      }
    }
    ListSize(before, all);
    assert (set x | x in all) == rows;
  }

  /** Each request that returns a cursor has moved strictly past its own. */
  lemma CursorAdvances<T(!new)>(before: Order<T>, rows: set<T>, cursor: Option<T>, limit: nat, page: Page<T>)
    requires StrictTotal(before) && limit > 0 && IsPage(before, rows, cursor, limit, page) && page.next.Some?
    ensures |Past(before, rows, page.next)| < |Past(before, rows, cursor)|
  {
    var a, b := Past(before, rows, page.next), Past(before, rows, cursor);
    var last := page.next.value;
    assert last in page.items;
    assert last in b && last !in a && a <= b;
    assert b == a + (b - a) && last in b - a;
  }

  // ---- The document list --------------------------------------------------------------

  /** newest first: (first_seen_at, id) descending. */
  datatype DocPos = DocPos(firstSeen: int, id: nat)

  predicate Newer(a: DocPos, b: DocPos) {
    a.firstSeen > b.firstSeen || (a.firstSeen == b.firstSeen && a.id > b.id)
  }

  lemma NewerIsTotal()
    ensures StrictTotal(Newer)
  {
  }

  /** The chunks of a document, by position. */
  predicate Earlier(a: int, b: int) { a < b }

  lemma EarlierIsTotal()
    ensures StrictTotal(Earlier)
  {
  }

  method FirstOf<T(==, !new)>(before: Order<T>, rows: set<T>) returns (r: T)
    requires StrictTotal(before) && rows != {}
    ensures r in rows && forall x :: x in rows && x != r ==> before(r, x)
  {
    r :| r in rows;
    var todo := rows;
    while todo != {}
      invariant todo <= rows && r in rows
      invariant forall x :: x in rows && x !in todo && x != r ==> before(r, x)
      decreases |todo|
    {
      var x :| x in todo;
      if before(x, r) { r := x; }
      todo := todo - {x};
    }
  }

  /** The keyset query of either store method. */
  method Query<T(==, !new)>(before: Order<T>, rows: set<T>, limit: nat, cursor: Option<T>) returns (list: seq<T>)
    requires StrictTotal(before)
    ensures IsFirst(before, Past(before, rows, cursor), limit, list)
  {
    var past := set r | r in rows && (cursor.None? || before(cursor.value, r));
    assert past == Past(before, rows, cursor);
    list := [];
    var rest := past;
    while |list| < limit && rest != {}
      invariant InOrder(before, list) && |list| <= limit && |list| + |rest| == |past|
      invariant forall r :: r in past <==> r in list || r in rest
      invariant forall r, i :: r in rest && 0 <= i < |list| ==> before(list[i], r)
      decreases |rest|
    {
      var r := FirstOf(before, rest);
      list, rest := list + [r], rest - {r};
    }
  }

  /** Service.List: fetch one row more than the page and cut it off. `rows` are the
      documents that pass the filters. */
  method List(rows: set<DocPos>, limit: int, cursor: Option<DocPos>) returns (page: Page<DocPos>)
    ensures IsPage(Newer, rows, cursor, ClampLimit(limit), page)
    ensures forall i, j :: 0 <= i < j < |page.items| ==>
      || page.items[i].firstSeen > page.items[j].firstSeen
      || (page.items[i].firstSeen == page.items[j].firstSeen && page.items[i].id > page.items[j].id)
  {
    var n := ClampLimit(limit);
    NewerIsTotal();
    var list := Query(Newer, rows, n + 1, cursor);
    ProbeCut(Newer, rows, cursor, n, list);
    page := Page(list, None);
    if |list| > n {
      page := Page(list[..n], Some(list[n - 1]));
    }
  }

  /** Service.Chunks over the positions of a document's current version: the
      first request starts after position -1. */
  method Chunks(positions: set<int>, limit: int, cursor: Option<int>) returns (page: Page<int>)
    ensures IsPage(Earlier, positions, Some(if cursor.Some? then cursor.value else -1), ClampLimit(limit), page)
    ensures forall i, j :: 0 <= i < j < |page.items| ==> page.items[i] < page.items[j]
    ensures forall p :: p in page.items ==> p > if cursor.Some? then cursor.value else -1
  {
    var n := ClampLimit(limit);
    var after := if cursor.Some? then cursor.value else -1;
    EarlierIsTotal();
    var list := Query(Earlier, positions, n + 1, Some(after));
    ProbeCut(Earlier, positions, Some(after), n, list);
    page := Page(list, None);
    if |list| > n {
      page := Page(list[..n], Some(list[n - 1]));
    }
  }

  /** So a chunk scan is a scan of the non-negative positions, and its first page
      leaves out a row exactly when some position is negative. */
  lemma ChunkStart(positions: set<int>)
    ensures var listed := (set p | p in positions && p >= 0);
      && Past(Earlier, positions, Some(-1)) == Past(Earlier, listed, None)
      && (forall c :: c >= 0 ==> Past(Earlier, positions, Some(c)) == Past(Earlier, listed, Some(c)))
      && (listed == positions <==> forall p :: p in positions ==> p >= 0)
  {
    var listed := (set p | p in positions && p >= 0);
    assert forall p :: p in Past(Earlier, positions, Some(-1)) <==> p in Past(Earlier, listed, None);
    forall c | c >= 0 ensures Past(Earlier, positions, Some(c)) == Past(Earlier, listed, Some(c)) {}
  }

  /** A scan of unchanging rows so far: what it collected and where it goes on. */
  ghost predicate ScansFixed(scan: seq<Request<DocPos>>, rows: set<DocPos>, all: seq<DocPos>, cursor: Option<DocPos>) {
    && IsScan(Newer, scan) && all == Collected(scan)
    && cursor == CursorAt(scan, |scan|) && (scan != [] ==> cursor.Some?)
    && forall i :: 0 <= i < |scan| ==> scan[i].rows == rows
  }

  lemma NextPage(scan: seq<Request<DocPos>>, rows: set<DocPos>, all: seq<DocPos>, cursor: Option<DocPos>,
                 limit: nat, page: Page<DocPos>)
    requires ScansFixed(scan, rows, all, cursor) && limit > 0 && IsPage(Newer, rows, cursor, limit, page)
    ensures var longer := scan + [Request(rows, limit, page)];
      && (page.next.Some? ==>
            && ScansFixed(longer, rows, all + page.items, page.next)
            && |Past(Newer, rows, page.next)| < |Past(Newer, rows, cursor)|)
      && (page.next.None? ==>
            && IsFirst(Newer, rows, |rows|, all + page.items)
            && forall r :: r in rows <==> r in all + page.items)
  {
    var longer := scan + [Request(rows, limit, page)];
    NewerIsTotal();
    Longer(Newer, scan, Request(rows, limit, page));
    assert longer[..|scan|] == scan;
    if page.next.Some? {
      CursorAdvances(Newer, rows, cursor, limit, page);
    } else {
      FixedDataIsWholeList(Newer, longer, rows);
    }
  }

  /** Following cursors to the end on fixed data ends, with every row once. */
  method ListAll(rows: set<DocPos>, limit: int) returns (all: seq<DocPos>)
    ensures IsFirst(Newer, rows, |rows|, all) && forall r :: r in rows <==> r in all
  {
    ghost var scan: seq<Request<DocPos>> := [];
    var cursor: Option<DocPos> := None;
    all := [];
    while true
      invariant ScansFixed(scan, rows, all, cursor)
      decreases |Past(Newer, rows, cursor)|
    {
      var page := List(rows, limit, cursor);
      NextPage(scan, rows, all, cursor, ClampLimit(limit), page);
      scan, all := scan + [Request(rows, ClampLimit(limit), page)], all + page.items;
      if page.next.None? { return; }
      cursor := page.next;
    }
  }

  lemma Longer<T(!new)>(before: Order<T>, scan: seq<Request<T>>, r: Request<T>)
    requires IsScan(before, scan) && r.limit > 0 && (scan != [] ==> CursorAt(scan, |scan|).Some?)
    requires IsPage(before, r.rows, CursorAt(scan, |scan|), r.limit, r.page)
    ensures IsScan(before, scan + [r])
  {
    var s := scan + [r];
    forall i | 0 <= i < |s| ensures Follows(before, s, i) {
      assert CursorAt(s, i) == CursorAt(scan, i);
      if i < |scan| { assert Follows(before, scan, i); }
    }
  }
}
