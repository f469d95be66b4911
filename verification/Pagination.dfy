/** Keyset pagination (src/lib/http/pagination/cursor-pagination.ts): rows ordered
    by a sort column and then by id, a page at a time, each page naming the cursor
    of the next. A date cursor keeps milliseconds where the column keeps
    microseconds. */
module Pagination {
  import opened Prelude
  import opened Sorting

  // ---- the cursor as text ----------------------------------------------------

  function EncodeCursor(value: string, id: string): string {
    value + "::" + id
  }

  predicate SeparatorAt(s: string, i: int) {
    0 <= i && i + 1 < |s| && s[i] == ':' && s[i + 1] == ':'
  }

  /** lastIndexOf("::"), looking no later than i. */
  function LastSeparator(s: string, i: int): (r: int)
    ensures r == -1 || (r <= i && SeparatorAt(s, r))
    ensures forall k :: r < k <= i ==> !SeparatorAt(s, k)
    decreases i + 1
  {
    if i < 0 then -1 else if SeparatorAt(s, i) then i else LastSeparator(s, i - 1)
  }

  function DecodeCursor(cursor: string): (string, string) {
    var i := LastSeparator(cursor, |cursor|);
    if i == -1 then (cursor, "0") else (cursor[..i], cursor[i + 2..])
  }

  /** An id that neither starts with ':' nor contains "::". */
  ghost predicate PlainId(id: string) {
    (id != "" ==> id[0] != ':') && forall i :: !SeparatorAt(id, i)
  }

  /** The cursor text round-trips exactly for plain ids, whatever the value. */
  lemma CursorRoundTrip(value: string, id: string)
    ensures DecodeCursor(EncodeCursor(value, id)) == (value, id) <==> PlainId(id)
  {
    var s := EncodeCursor(value, id);
    var n := |value|;
    var r := LastSeparator(s, |s|);
    assert SeparatorAt(s, n);
    assert r >= n;
    assert s[..n] == value && s[n + 2..] == id;
    if PlainId(id) {
      assert r > n + 1 ==> SeparatorAt(s, r) ==> SeparatorAt(id, r - n - 2);
    } else {
      if id != "" && id[0] == ':' {
        assert SeparatorAt(s, n + 1);
      } else {
        var i :| SeparatorAt(id, i);
        assert SeparatorAt(s, n + 2 + i);
      }
      assert r > n;
      assert |s[..r]| == r;
    }
  }

  /** A cursor without separator is all value; ids start after "0". */
  lemma BareCursor(cursor: string)
    requires forall i :: !SeparatorAt(cursor, i)
    ensures DecodeCursor(cursor) == (cursor, "0")
  {
  }

  // ---- rows, order, pages -----------------------------------------------------

  /** at: the sort column, in its own unit (microseconds for a timestamp). */
  datatype Row = Row(at: int, id: nat, branch: nat, customer: nat, status: string)

  datatype Cursor = Cursor(value: int, id: nat)

  datatype Page = Page(data: seq<Row>, hasMore: bool, next: Option<Cursor>)

  /** asc:       sortOrder
      timestamp: the column is a timestamp, so the cursor carries milliseconds */
  datatype Order = Order(asc: bool, timestamp: bool)

  function Cut(o: Order, at: int): int {
    if o.timestamp then Ms(at) else at
  }

  predicate Less(o: Order, a: int, b: int) {
    if o.asc then a < b else b < a
  }

  /** ORDER BY sortBy, id. */
  predicate Precedes(o: Order, a: Row, b: Row) {
    Less(o, a.at, b.at) || (a.at == b.at && Less(o, a.id, b.id))
  }

  predicate InOrder(o: Order, a: Row, b: Row) {
    Precedes(o, a, b) || (a.at == b.at && a.id == b.id)
  }

  /** The WHERE clause a cursor adds. */
  predicate Beyond(o: Order, c: Cursor, r: Row)
  {
    Less(o, c.value, Cut(o, r.at)) || (Cut(o, r.at) == c.value && Less(o, c.id, r.id))
  }

  function CursorOf(o: Order, r: Row): Cursor
  {
    Cursor(Cut(o, r.at), r.id)
  }

  function Ranking(o: Order): (Row, Row) -> bool {
    (a, b) => InOrder(o, a, b)
  }

  function Ordered(o: Order, rows: seq<Row>): seq<Row> {
    Sort(rows, Ranking(o))
  }

  function After(o: Order, c: Cursor): Row -> bool
  {
    r => Beyond(o, c, r)
  }

  function Selected(o: Order, rows: seq<Row>, cursor: Option<Cursor>): seq<Row>
  {
    match cursor
    case None => rows
    case Some(c) => Filter(rows, After(o, c))
  }

  /** applyCursorPagination: one row more than the page is fetched. */
  function Query(o: Order, rows: seq<Row>, cursor: Option<Cursor>, limit: nat): seq<Row>
  {
    Take(Ordered(o, Selected(o, rows, cursor)), limit + 1)
  }

  function BuildPage(o: Order, fetched: seq<Row>, limit: nat): Page
  {
    var data := Take(fetched, limit);
    var hasMore := |fetched| > limit;
    Page(data, hasMore, if hasMore && data != [] then Some(CursorOf(o, data[|data| - 1])) else None)
  }

  function GetPage(o: Order, rows: seq<Row>, cursor: Option<Cursor>, limit: nat): Page
  {
    BuildPage(o, Query(o, rows, cursor, limit), limit)
  }

  predicate DistinctIds(rows: seq<Row>) {
    forall i, j :: 0 <= i < j < |rows| ==> rows[i].id != rows[j].id
  }

  // ---- sorting and filtering commute ----------------------------------------

  lemma InOrderIsPreorder(o: Order)
    ensures TotalPreorder(Ranking(o))
  {
  }

  lemma {:induction false} FilterInsert<T(!new)>(x: T, xs: seq<T>, le: (T, T) -> bool, p: T -> bool)
    requires TotalPreorder(le) && SortedBy(xs, le)
    ensures Filter(Insert(x, xs, le), p) == if p(x) then Insert(x, Filter(xs, p), le) else Filter(xs, p)
  {
    if xs == [] {
    } else if le(x, xs[0]) {
      FilterStaysAbove(x, xs, le, p);
    } else {
      FilterInsert(x, xs[1..], le, p);
      assert Insert(x, xs, le)[1..] == Insert(x, xs[1..], le);
      if p(xs[0]) {
        assert Filter(xs, p) == [xs[0]] + Filter(xs[1..], p);
        assert Filter(xs, p)[1..] == Filter(xs[1..], p);
      }
    }
  }

  lemma {:induction false} FilterStaysAbove<T(!new)>(x: T, xs: seq<T>, le: (T, T) -> bool, p: T -> bool)
    requires TotalPreorder(le) && SortedBy(xs, le) && (xs != [] ==> le(x, xs[0]))
    ensures Filter([x] + xs, p) == if p(x) then [x] + Filter(xs, p) else Filter(xs, p)
    ensures p(x) ==> Insert(x, Filter(xs, p), le) == [x] + Filter(xs, p)
  {
    assert ([x] + xs)[1..] == xs;
    if xs != [] {
      if !p(xs[0]) {
        if |xs| > 1 { assert le(xs[0], xs[1]); }
        FilterStaysAbove(x, xs[1..], le, p);
      }
    }
  }

  lemma {:induction false} SortFilter<T(!new)>(xs: seq<T>, le: (T, T) -> bool, p: T -> bool)
    requires TotalPreorder(le)
    ensures Sort(Filter(xs, p), le) == Filter(Sort(xs, le), p)
  {
    if xs != [] {
      SortFilter(xs[1..], le, p);
      SortIsSorted(xs[1..], le);
      FilterInsert(xs[0], Sort(xs[1..], le), le, p);
      if p(xs[0]) { assert Filter(xs, p)[1..] == Filter(xs[1..], p); }
    }
  }

  lemma {:induction false} FilterShrinks<T(!new)>(xs: seq<T>, p: T -> bool, q: T -> bool)
    requires forall x :: q(x) ==> p(x)
    ensures |Filter(xs, q)| <= |Filter(xs, p)| <= |xs|
    ensures (exists x :: x in xs && p(x) && !q(x)) ==> |Filter(xs, q)| < |Filter(xs, p)|
  {
    if xs != [] {
      FilterShrinks(xs[1..], p, q);
      if x :| x in xs && p(x) && !q(x) {
        if x != xs[0] { assert x in xs[1..]; }
      }
    }
  }

  lemma {:induction false} FilterSuffix<T>(xs: seq<T>, p: T -> bool, k: nat)
    requires k <= |xs| && forall i :: 0 <= i < |xs| ==> (p(xs[i]) <==> i >= k)
    ensures Filter(xs, p) == xs[k..]
  {
    if xs != [] {
      var tail := xs[1..];
      assert forall i :: 0 <= i < |tail| ==> tail[i] == xs[i + 1];
      FilterSuffix(tail, p, if k == 0 then 0 else k - 1);
      if k == 0 { assert xs == [xs[0]] + tail; assert p(xs[0]); } else { assert !p(xs[0]); }
    }
  }

  // ---- what one page shows --------------------------------------------------

  /** By the column and then by id, ascending or descending. */
  predicate NotAfter(o: Order, a: Row, b: Row) {
    if o.asc then a.at < b.at || (a.at == b.at && a.id <= b.id)
    else a.at > b.at || (a.at == b.at && a.id >= b.id)
  }

  /** Past the cursor: by the column in whole milliseconds if it is a timestamp,
      and among equals by id. */
  predicate IsPast(o: Order, cursor: Option<Cursor>, r: Row) {
    match cursor
    case None => true
    case Some(c) =>
      var value := if o.timestamp then r.at / 1000 else r.at;
      if o.asc then value > c.value || (value == c.value && r.id > c.id)
      else value < c.value || (value == c.value && r.id < c.id)
  }

  /** The page holds the first limit wanted rows past the cursor, in order. */
  ghost predicate Lists(o: Order, data: seq<Row>, rows: seq<Row>, wanted: Row -> bool, cursor: Option<Cursor>, limit: nat) {
    && |data| <= limit
    && (forall r :: r in data ==> r in rows && wanted(r) && IsPast(o, cursor, r))
    && (forall i, j :: 0 <= i < j < |data| ==> NotAfter(o, data[i], data[j]))
    && (forall r :: r in rows && wanted(r) && IsPast(o, cursor, r) && r !in data ==>
          |data| == limit && forall q :: q in data ==> NotAfter(o, q, r))
    && (DistinctIds(rows) ==> DistinctIds(data))
  }

  ghost predicate Unlisted(o: Order, data: seq<Row>, rows: seq<Row>, wanted: Row -> bool, cursor: Option<Cursor>, r: Row) {
    r in rows && wanted(r) && IsPast(o, cursor, r) && r !in data
  }

  /** hasMore is set exactly when a wanted row is missing; the next cursor is then
      the last row's value, in whole milliseconds for a timestamp, and id. */
  ghost predicate Continues(o: Order, page: Page, rows: seq<Row>, wanted: Row -> bool, cursor: Option<Cursor>) {
    && (DistinctIds(rows) ==> (page.hasMore <==> exists r :: Unlisted(o, page.data, rows, wanted, cursor, r)))
    && (!page.hasMore ==> forall r :: !Unlisted(o, page.data, rows, wanted, cursor, r))
    && page.next == if !page.hasMore || page.data == [] then None else
         var last := page.data[|page.data| - 1];
         Some(Cursor(if o.timestamp then last.at / 1000 else last.at, last.id))
  }

  lemma OrderedIs(o: Order, rows: seq<Row>)
    ensures var s := Ordered(o, rows);
      && |s| == |rows|
      && (forall r :: r in s <==> r in rows)
      && (forall i, j :: 0 <= i < j < |s| ==> NotAfter(o, s[i], s[j]))
      && (DistinctIds(rows) ==> DistinctIds(s))
  {
    InOrderIsPreorder(o);
    SortIsSorted(rows, Ranking(o));
    var s := Ordered(o, rows);
    assert |multiset(s)| == |s| && |multiset(rows)| == |rows|;
    forall i, j | 0 <= i < j < |s| ensures NotAfter(o, s[i], s[j]) { assert Ranking(o)(s[i], s[j]); }
    forall r ensures r in s <==> r in rows { assert r in multiset(s) <==> r in multiset(rows); }
    if DistinctIds(rows) { SortKeepsDistinct(rows, Ranking(o)); }
  }

  lemma {:induction false} FilterKeepsDistinct(rows: seq<Row>, p: Row -> bool)
    requires DistinctIds(rows)
    ensures DistinctIds(Filter(rows, p))
  {
    if rows != [] {
      FilterKeepsDistinct(rows[1..], p);
      forall r | r in Filter(rows[1..], p) ensures r.id != rows[0].id {
        FilterKeeps(rows[1..], p, r);
      }
    }
  }

  lemma SelectedIs(o: Order, rows: seq<Row>, wanted: Row -> bool, cursor: Option<Cursor>)
    ensures var here := Selected(o, Filter(rows, wanted), cursor);
      && (forall r :: r in here <==> r in rows && wanted(r) && IsPast(o, cursor, r))
      && (DistinctIds(rows) ==> DistinctIds(here))
  {
    var some := Filter(rows, wanted);
    forall r ensures r in Selected(o, some, cursor) <==> r in rows && wanted(r) && IsPast(o, cursor, r) {
      FilterKeeps(rows, wanted, r);
      if cursor.Some? { FilterKeeps(some, After(o, cursor.value), r); }
    }
    if DistinctIds(rows) {
      FilterKeepsDistinct(rows, wanted);
      if cursor.Some? { FilterKeepsDistinct(some, After(o, cursor.value)); }
    }
  }

  /** s holds the wanted rows past the cursor, in order. */
  ghost predicate Arranges(o: Order, s: seq<Row>, rows: seq<Row>, wanted: Row -> bool, cursor: Option<Cursor>) {
    && (forall r :: r in s <==> r in rows && wanted(r) && IsPast(o, cursor, r))
    && (forall i, j :: 0 <= i < j < |s| ==> NotAfter(o, s[i], s[j]))
    && (DistinctIds(rows) ==> DistinctIds(s))
  }

  lemma TakenLists(o: Order, s: seq<Row>, rows: seq<Row>, wanted: Row -> bool, cursor: Option<Cursor>, limit: nat)
    requires Arranges(o, s, rows, wanted, cursor)
    ensures Lists(o, Take(s, limit), rows, wanted, cursor, limit)
    ensures |s| <= limit ==> forall r :: !Unlisted(o, Take(s, limit), rows, wanted, cursor, r)
    ensures |s| > limit && DistinctIds(rows) ==> Unlisted(o, Take(s, limit), rows, wanted, cursor, s[limit])
  {
    hide IsPast, NotAfter;
    var data := Take(s, limit);
    forall r | r in s && r !in data
      ensures |data| == limit && forall q :: q in data ==> NotAfter(o, q, r)
    {
      var k :| 0 <= k < |s| && s[k] == r;
      assert k >= limit;
    }
  }

  lemma OrderedArranges(o: Order, rows: seq<Row>, wanted: Row -> bool, cursor: Option<Cursor>)
    ensures Arranges(o, Ordered(o, Selected(o, Filter(rows, wanted), cursor)), rows, wanted, cursor)
  {
    SelectedIs(o, rows, wanted, cursor);
    OrderedIs(o, Selected(o, Filter(rows, wanted), cursor));
    hide Selected, Ordered, IsPast, NotAfter;
  }

  lemma BuiltPage(o: Order, s: seq<Row>, limit: nat)
    ensures var page := BuildPage(o, Take(s, limit + 1), limit);
      && page.data == Take(s, limit) && page.hasMore == (|s| > limit)
      && page.next == if !page.hasMore || page.data == [] then None else
           var last := page.data[|page.data| - 1];
           Some(Cursor(if o.timestamp then last.at / 1000 else last.at, last.id))
  {
    assert Take(Take(s, limit + 1), limit) == Take(s, limit);
  }

  /** What a page shows, for any selection, cursor, direction and size. */
  lemma PageShows(o: Order, rows: seq<Row>, wanted: Row -> bool, cursor: Option<Cursor>, limit: nat)
    ensures var page := GetPage(o, Filter(rows, wanted), cursor, limit);
      Lists(o, page.data, rows, wanted, cursor, limit) && Continues(o, page, rows, wanted, cursor)
  {
    var s := Ordered(o, Selected(o, Filter(rows, wanted), cursor));
    assert GetPage(o, Filter(rows, wanted), cursor, limit) == BuildPage(o, Take(s, limit + 1), limit);
    hide Selected, Ordered, IsPast, NotAfter, Lists, Unlisted, BuildPage, GetPage, DistinctIds;
    OrderedArranges(o, rows, wanted, cursor);
    TakenLists(o, s, rows, wanted, cursor, limit);
    BuiltPage(o, s, limit);
  }

  // ---- walking every page --------------------------------------------------

  /** a sorts strictly before b as far as a cursor can see. */
  predicate KeyLess(o: Order, a: Row, b: Row)
  {
    Beyond(o, CursorOf(o, a), b)
  }

  /** The row the next cursor is taken from is one of the rows being listed. */
  lemma LastRowIsListed(o: Order, rows: seq<Row>, cursor: Option<Cursor>, limit: nat)
    requires limit >= 1 && GetPage(o, rows, cursor, limit).next.Some?
    ensures var page := GetPage(o, rows, cursor, limit);
      && page.data != []
      && page.data[|page.data| - 1] in rows
      && (cursor.Some? ==> Beyond(o, cursor.value, page.data[|page.data| - 1]))
  {
    var here := Selected(o, rows, cursor);
    var page := GetPage(o, rows, cursor, limit);
    var last := page.data[|page.data| - 1];
    InOrderIsPreorder(o);
    SortIsSorted(here, Ranking(o));
    assert last in multiset(Ordered(o, here));
    assert last in here;
    if cursor.Some? { FilterKeeps(rows, After(o, cursor.value), last); }
  }

  /** The next cursor leaves strictly fewer rows to list, whatever the data. */
  lemma NextPageIsSmaller(o: Order, rows: seq<Row>, cursor: Option<Cursor>, limit: nat)
    requires limit >= 1 && GetPage(o, rows, cursor, limit).next.Some?
    ensures |Selected(o, rows, GetPage(o, rows, cursor, limit).next)| < |Selected(o, rows, cursor)|
  {
    var page := GetPage(o, rows, cursor, limit);
    LastRowIsListed(o, rows, cursor, limit);
    FewerBeyond(o, rows, cursor, page.data[|page.data| - 1]);
  }

  lemma FewerBeyond(o: Order, rows: seq<Row>, cursor: Option<Cursor>, last: Row)
    requires last in rows && (cursor.Some? ==> Beyond(o, cursor.value, last))
    ensures |Selected(o, rows, Some(CursorOf(o, last)))| < |Selected(o, rows, cursor)|
  {
    var q := After(o, CursorOf(o, last));
    match cursor
    case None => FilterShrinks(rows, All(), q); AllOf(rows);
    case Some(c) => FilterShrinks(rows, After(o, c), q);
  }

  function All(): Row -> bool {
    r => true
  }

  lemma {:induction false} AllOf(rows: seq<Row>)
    ensures |Filter(rows, All())| == |rows|
  {
    if rows != [] { AllOf(rows[1..]); }
  }

  /** Everything a client lists that follows nextCursor until hasMore is false. */
  function Walk(o: Order, rows: seq<Row>, cursor: Option<Cursor>, limit: nat): seq<Row>
    requires limit >= 1
    decreases |Selected(o, rows, cursor)|
  {
    var page := GetPage(o, rows, cursor, limit);
    if page.next.Some? then
      NextPageIsSmaller(o, rows, cursor, limit);
      page.data + Walk(o, rows, page.next, limit)
    else page.data
  }

  /** Rows that fall under one cursor value are ordered by id the way they are
      ordered by the column: within one millisecond, ids follow timestamps. */
  ghost predicate IdsFollowTime(o: Order, rows: seq<Row>)
  {
    forall a, b :: a in rows && b in rows && Cut(o, a.at) == Cut(o, b.at) && a.at < b.at ==> a.id < b.id
  }

  lemma {:induction false} InsertKeepsDistinct(x: Row, xs: seq<Row>, le: (Row, Row) -> bool)
    requires DistinctIds(xs) && forall r :: r in xs ==> r.id != x.id
    ensures DistinctIds(Insert(x, xs, le))
    ensures forall r :: r in Insert(x, xs, le) ==> r == x || r in xs
  {
    if xs != [] && !le(x, xs[0]) {
      InsertKeepsDistinct(x, xs[1..], le);
      var rest := Insert(x, xs[1..], le);
      forall i | 0 <= i < |rest| ensures rest[i].id != xs[0].id { assert rest[i] in rest; }
    }
  }

  lemma {:induction false} SortKeepsDistinct(xs: seq<Row>, le: (Row, Row) -> bool)
    requires DistinctIds(xs)
    ensures DistinctIds(Sort(xs, le))
    ensures forall r :: r in Sort(xs, le) ==> r in xs
  {
    if xs != [] {
      SortKeepsDistinct(xs[1..], le);
      InsertKeepsDistinct(xs[0], Sort(xs[1..], le), le);
    }
  }

  lemma StrictlyOrdered(o: Order, rows: seq<Row>)
    requires DistinctIds(rows)
    ensures var s := Ordered(o, rows);
      && (forall i, j :: 0 <= i < j < |s| ==> Precedes(o, s[i], s[j]))
      && (forall r :: r in s <==> r in rows)
  {
    InOrderIsPreorder(o);
    SortIsSorted(rows, Ranking(o));
    SortKeepsDistinct(rows, Ranking(o));
    var s := Ordered(o, rows);
    forall i, j | 0 <= i < j < |s| ensures Precedes(o, s[i], s[j]) {
      assert Ranking(o)(s[i], s[j]);
    }
    forall r | r in rows ensures r in s { assert r in multiset(rows); }
  }

  lemma PrecedesByKey(o: Order, rows: seq<Row>, a: Row, b: Row)
    requires IdsFollowTime(o, rows) && a in rows && b in rows && Precedes(o, a, b)
    ensures KeyLess(o, a, b) && !KeyLess(o, b, a) && !KeyLess(o, a, a)
  {
  }

  function CursorAt(o: Order, s: seq<Row>, k: nat): Option<Cursor>
    requires k <= |s|
  {
    if k == 0 then None else Some(CursorOf(o, s[k - 1]))
  }

  /** The cursor of row k - 1 selects exactly the rows from k on. */
  lemma CursorSelectsTheRest(o: Order, rows: seq<Row>, k: nat)
    requires DistinctIds(rows) && IdsFollowTime(o, rows) && k <= |Ordered(o, rows)|
    ensures Ordered(o, Selected(o, rows, CursorAt(o, Ordered(o, rows), k))) == Ordered(o, rows)[k..]
  {
    var s := Ordered(o, rows);
    StrictlyOrdered(o, rows);
    InOrderIsPreorder(o);
    if k > 0 {
      var p := After(o, CursorOf(o, s[k - 1]));
      SortFilter(rows, Ranking(o), p);
      forall i | 0 <= i < |s| ensures p(s[i]) <==> i >= k {
        if i < k - 1 {
          PrecedesByKey(o, rows, s[i], s[k - 1]);
        } else if i >= k {
          PrecedesByKey(o, rows, s[k - 1], s[i]);
        }
      }
      FilterSuffix(s, p, k);
    }
  }

  lemma PageAt(o: Order, rows: seq<Row>, limit: nat, k: nat)
    requires limit >= 1 && DistinctIds(rows) && IdsFollowTime(o, rows) && k <= |Ordered(o, rows)|
    ensures var s := Ordered(o, rows);
      GetPage(o, rows, CursorAt(o, s, k), limit) ==
      if |s| - k > limit then Page(s[k..k + limit], true, CursorAt(o, s, k + limit)) else Page(s[k..], false, None)
  {
    hide DistinctIds, IdsFollowTime;
    var s := Ordered(o, rows);
    CursorSelectsTheRest(o, rows, k);
    PageOfRest(o, s, k, limit);
    assert GetPage(o, rows, CursorAt(o, s, k), limit) == BuildPage(o, Take(s[k..], limit + 1), limit);
  }

  lemma PageOfRest(o: Order, s: seq<Row>, k: nat, limit: nat)
    requires limit >= 1 && k <= |s|
    ensures BuildPage(o, Take(s[k..], limit + 1), limit) ==
      if |s| - k > limit then Page(s[k..k + limit], true, CursorAt(o, s, k + limit)) else Page(s[k..], false, None)
  {
    var rest := s[k..];
    if |rest| > limit {
      assert Take(rest, limit + 1)[..limit] == s[k..k + limit];
      assert s[k..k + limit][limit - 1] == s[k + limit - 1];
    }
  }

  lemma LastPage(o: Order, rows: seq<Row>, cursor: Option<Cursor>, limit: nat)
    requires limit >= 1 && GetPage(o, rows, cursor, limit).next.None?
    ensures Walk(o, rows, cursor, limit) == GetPage(o, rows, cursor, limit).data
  {
  }

  lemma PageAndRest(o: Order, rows: seq<Row>, cursor: Option<Cursor>, limit: nat)
    requires limit >= 1 && GetPage(o, rows, cursor, limit).next.Some?
    ensures var page := GetPage(o, rows, cursor, limit);
      Walk(o, rows, cursor, limit) == page.data + Walk(o, rows, page.next, limit)
  {
  }

  lemma {:induction false} WalkFrom(o: Order, rows: seq<Row>, limit: nat, k: nat)
    requires limit >= 1 && DistinctIds(rows) && IdsFollowTime(o, rows) && k <= |Ordered(o, rows)|
    ensures Walk(o, rows, CursorAt(o, Ordered(o, rows), k), limit) == Ordered(o, rows)[k..]
    decreases |Ordered(o, rows)| - k
  {
    hide GetPage, Walk, IdsFollowTime;
    var s := Ordered(o, rows);
    PageAt(o, rows, limit, k);
    if |s| - k > limit {
      PageAndRest(o, rows, CursorAt(o, s, k), limit);
      WalkFrom(o, rows, limit, k + limit);
      Rejoin(s, k, k + limit);
    } else {
      LastPage(o, rows, CursorAt(o, s, k), limit);
    }
  }

  lemma Rejoin<T>(s: seq<T>, a: nat, b: nat)
    requires a <= b <= |s|
    ensures s[a..b] + s[b..] == s[a..]
  {
  }

  // With a page size of one, each listed row is strictly past the one before it.
  lemma {:induction false} SingleSteps(o: Order, rows: seq<Row>, cursor: Option<Cursor>)
    ensures var w := Walk(o, rows, cursor, 1);
      && (cursor.Some? && w != [] ==> Beyond(o, cursor.value, w[0]))
      && forall i :: 0 <= i < |w| - 1 ==> KeyLess(o, w[i], w[i + 1])
    decreases |Selected(o, rows, cursor)|
  {
    var here := Selected(o, rows, cursor);
    var page := GetPage(o, rows, cursor, 1);
    InOrderIsPreorder(o);
    SortIsSorted(here, Ranking(o));
    if page.data != [] {
      assert page.data[0] in multiset(Ordered(o, here));
      assert page.data[0] in here;
      if cursor.Some? { FilterKeeps(rows, After(o, cursor.value), page.data[0]); }
    }
    if page.next.Some? {
      NextPageIsSmaller(o, rows, cursor, 1);
      SingleSteps(o, rows, page.next);
    }
  }

  lemma {:induction false} KeysIncrease(o: Order, w: seq<Row>, i: nat, j: nat)
    requires i < j < |w|
    requires forall i :: 0 <= i < |w| - 1 ==> KeyLess(o, w[i], w[i + 1])
    ensures KeyLess(o, w[i], w[j])
  {
    if i + 1 < j { KeysIncrease(o, w, i, j - 1); }
  }

  /** Rows listed both in order and by strictly increasing cursor keys. */
  lemma KeysTellIds(o: Order, w: seq<Row>, a: Row, b: Row)
    requires forall i, j :: 0 <= i < j < |w| ==> Precedes(o, w[i], w[j])
    requires forall i :: 0 <= i < |w| - 1 ==> KeyLess(o, w[i], w[i + 1])
    requires a in w && b in w && Cut(o, a.at) == Cut(o, b.at) && a.at < b.at
    ensures a.id < b.id
  {
    var i :| 0 <= i < |w| && w[i] == a;
    var j :| 0 <= j < |w| && w[j] == b;
    if i < j { KeysIncrease(o, w, i, j); } else { KeysIncrease(o, w, j, i); }
  }

  lemma CompleteNeedsIdsFollowTime(o: Order, rows: seq<Row>)
    requires DistinctIds(rows)
    requires WalkListsAll(o, rows)
    ensures IdsFollowTime(o, rows)
  {
    var w := Walk(o, rows, None, 1);
    SingleSteps(o, rows, None);
    StrictlyOrdered(o, rows);
    hide Walk, Ordered, DistinctIds;
    assert w == Ordered(o, rows);
    forall a, b | a in rows && b in rows && Cut(o, a.at) == Cut(o, b.at) && a.at < b.at
      ensures a.id < b.id
    {
      KeysTellIds(o, w, a, b);
    }
  }

  ghost predicate WalkListsAll(o: Order, rows: seq<Row>) {
    forall limit: nat :: limit >= 1 ==> Walk(o, rows, None, limit) == Ordered(o, rows)
  }

  lemma IdsFollowTimeIsEnough(o: Order, rows: seq<Row>)
    requires DistinctIds(rows) && IdsFollowTime(o, rows)
    ensures WalkListsAll(o, rows)
  {
    forall limit: nat | limit >= 1 ensures Walk(o, rows, None, limit) == Ordered(o, rows) {
      WalkFrom(o, rows, limit, 0);
    }
  }

  /** The keyset walk lists every row exactly once, in order, for every page size,
      exactly when within one cursor value ids are ordered as timestamps are. For
      a column the cursor does not cut that always holds. */
  lemma WalkIsComplete(o: Order, rows: seq<Row>)
    requires DistinctIds(rows)
    ensures IdsFollowTime(o, rows) <==> WalkListsAll(o, rows)
    ensures !o.timestamp ==> IdsFollowTime(o, rows)
  {
    if IdsFollowTime(o, rows) {
      IdsFollowTimeIsEnough(o, rows);
    } else if WalkListsAll(o, rows) {
      CompleteNeedsIdsFollowTime(o, rows);
    }
  }

  /** Two orders placed in the same millisecond whose ids were handed out the other
      way round: a walk in pages of one never lists the second. */
  lemma OneMillisecondCanLoseARow(branch: nat, customer: nat, status: string)
    ensures var o := Order(true, true); var a, b := Row(1001, 8, branch, customer, status), Row(1002, 7, branch, customer, status);
      DistinctIds([a, b]) && Walk(o, [a, b], None, 1) == [a]
  {
    var o := Order(true, true);
    var a, b := Row(1001, 8, branch, customer, status), Row(1002, 7, branch, customer, status);
    var rows := [a, b];
    assert SortedBy(rows, Ranking(o));
    SortOfSorted(rows, Ranking(o));
    var page := GetPage(o, rows, None, 1);
    assert page.data == [a] && page.next == Some(Cursor(1, 8));
    var c := Cursor(1, 8);
    assert !Beyond(o, c, a) && !Beyond(o, c, b);
    assert Filter([b], After(o, c)) == [];
    assert Filter(rows, After(o, c)) == [] by { assert rows[1..] == [b]; }
    assert Walk(o, rows, Some(c), 1) == [];
  }
}
