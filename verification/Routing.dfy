/** Reads routed between the hot and the archive database
    (src/app/order/service/order.service.ts) against one query over both. */
module Routing {
  import opened Prelude
  import opened Sorting
  import opened Pagination
  import Tables = ArchivalTables
  import Batches = ArchivalBatches
  import Protocol = ArchivalProtocol
  import Archival = ArchivalTheorems
  import Copies = ArchivalCopies

  // ---- filters -----------------------------------------------------------

  datatype Comparison = Eq | Gt | Lt | Lte | Gte

  /** CreatedAt: a condition on created_at, its bound in microseconds.
      Other:     a condition on any other column. */
  datatype FilterParams =
    | CreatedAt(op: Comparison, at: int)
    | Other(test: Row -> bool)

  predicate Passes(f: FilterParams, r: Row) {
    match f
    case Other(test) => test(r)
    case CreatedAt(op, at) =>
      match op
      case Eq => r.at == at
      case Gt => r.at > at
      case Lt => r.at < at
      case Lte => r.at <= at
      case Gte => r.at >= at
  }

  predicate PassesAll(filters: seq<FilterParams>, r: Row) {
    forall i :: 0 <= i < |filters| ==> Passes(filters[i], r)
  }

  function Passing(filters: seq<FilterParams>): Row -> bool {
    r => PassesAll(filters, r)
  }

  lemma {:induction false} FilterTwice<T>(xs: seq<T>, p: T -> bool, q: T -> bool, both: T -> bool)
    requires forall x :: x in xs ==> (both(x) <==> p(x) && q(x))
    ensures Filter(Filter(xs, p), q) == Filter(xs, both)
  {
    if xs != [] {
      FilterTwice(xs[1..], p, q, both);
      if p(xs[0]) {
        assert Filter(xs, p)[1..] == Filter(xs[1..], p);
      }
    }
  }

  lemma {:induction false} FilterAll<T>(xs: seq<T>, p: T -> bool)
    requires forall x :: x in xs ==> p(x)
    ensures Filter(xs, p) == xs
  {
    if xs != [] {
      FilterAll(xs[1..], p);
      assert xs == [xs[0]] + xs[1..];
    }
  }

  lemma {:induction false} FilterNone<T>(xs: seq<T>, p: T -> bool)
    requires forall x :: x in xs ==> !p(x)
    ensures Filter(xs, p) == []
  {
    if xs != [] { FilterNone(xs[1..], p); }
  }

  /** applyFilters adds one condition at a time; what is selected in the end is
      exactly the rows that pass every one of them, in their old order. */
  method ApplyFilters(query: seq<Row>, filters: seq<FilterParams>) returns (selected: seq<Row>)
    ensures selected == Filter(query, Passing(filters))
  {
    selected := query;
    FilterAll(query, Passing([]));
    assert filters[..0] == [];
    for i := 0 to |filters|
      invariant selected == Filter(query, Passing(filters[..i]))
    {
      var f := filters[i];
      var test := (r: Row) => Passes(f, r);
      forall r: Row
        ensures Passing(filters[..i + 1])(r) <==> Passing(filters[..i])(r) && test(r)
      {
        OneMoreFilter(filters, i, r);
      }
      FilterTwice(query, Passing(filters[..i]), test, Passing(filters[..i + 1]));
      selected := Filter(selected, test);
    }
    assert filters[..|filters|] == filters;
  }

  lemma OneMoreFilter(filters: seq<FilterParams>, i: nat, r: Row)
    requires i < |filters|
    ensures PassesAll(filters[..i + 1], r) <==> PassesAll(filters[..i], r) && Passes(filters[i], r)
  {
  }

  // ---- routing ------------------------------------------------------------

  datatype Location = Hot | Archive | Straddle

  predicate IsUpper(f: FilterParams) { f.CreatedAt? && (f.op.Lte? || f.op.Lt?) }

  predicate IsLower(f: FilterParams) { f.CreatedAt? && (f.op.Gte? || f.op.Gt?) }

  /** filters.find: the first one of the kind. */
  function FirstUpper(filters: seq<FilterParams>): (r: Option<int>)
    ensures r.Some? ==> exists i :: 0 <= i < |filters| && IsUpper(filters[i]) && filters[i].at == r.value
  {
    if filters == [] then None
    else if IsUpper(filters[0]) then Some(filters[0].at)
    else var r := FirstUpper(filters[1..]);
      assert r.Some? ==> exists i :: 0 <= i < |filters[1..]| && filters[i + 1] == filters[1..][i]
                           && IsUpper(filters[1..][i]) && filters[1..][i].at == r.value;
      r
  }

  function FirstLower(filters: seq<FilterParams>): (r: Option<int>)
    ensures r.Some? ==> exists i :: 0 <= i < |filters| && IsLower(filters[i]) && filters[i].at == r.value
  {
    if filters == [] then None
    else if IsLower(filters[0]) then Some(filters[0].at)
    else var r := FirstLower(filters[1..]);
      assert r.Some? ==> exists i :: 0 <= i < |filters[1..]| && filters[i + 1] == filters[1..][i]
                           && IsLower(filters[1..][i]) && filters[1..][i].at == r.value;
      r
  }


  /** A Date keeps milliseconds; yearStart is a whole number of them. */
  function ClassifyDateRange(filters: seq<FilterParams>, yearStartMs: int): Location {
    var upper := FirstUpper(filters);
    var lower := FirstLower(filters);
    if upper.None? || lower.None? then Hot
    else if Ms(upper.value) < yearStartMs then Archive
    else if Ms(lower.value) >= yearStartMs then Hot
    else Straddle
  }

  function ForBranch(branch: nat, filters: seq<FilterParams>): Row -> bool {
    (r: Row) => r.branch == branch && PassesAll(filters, r)
  }

  /** findOrdersByBranch's selection. */
  function OfBranch(rows: seq<Row>, branch: nat, filters: seq<FilterParams>): seq<Row> {
    Filter(rows, ForBranch(branch, filters))
  }

  /** Both listings sort by created_at. */
  function ByCreation(asc: bool): Order {
    Order(asc, true)
  }

  function BranchPage(rows: seq<Row>, branch: nat, filters: seq<FilterParams>, asc: bool,
                      cursor: Option<Cursor>, limit: nat): Page
  {
    GetPage(ByCreation(asc), OfBranch(rows, branch, filters), cursor, limit)
  }

  function ByMs(asc: bool): (Row, Row) -> bool {
    (a: Row, b: Row) => if asc then Ms(a.at) <= Ms(b.at) else Ms(b.at) <= Ms(a.at)
  }

  /** The straddling case: both pages, merged in memory, no cursor in or out. */
  function Merged(hotData: seq<Row>, archiveData: seq<Row>, asc: bool, limit: nat): Page {
    var combined := Sort(hotData + archiveData, ByMs(asc));
    Page(Take(combined, limit), |combined| > limit, None)
  }

  function ListRestaurantOrders(hot: seq<Row>, archive: seq<Row>, yearStartMs: int, branch: nat,
                                filters: seq<FilterParams>, asc: bool,
                                cursor: Option<Cursor>, limit: nat): Page
  {
    match ClassifyDateRange(filters, yearStartMs)
    case Hot => BranchPage(hot, branch, filters, asc, cursor, limit)
    case Archive => BranchPage(archive, branch, filters, asc, cursor, limit)
    case Straddle =>
      Merged(BranchPage(hot, branch, filters, asc, None, limit).data,
             BranchPage(archive, branch, filters, asc, None, limit).data, asc, limit)
  }

  /** What a completed archival run leaves behind. */
  ghost predicate Separated(hot: seq<Row>, archive: seq<Row>, yearStartMs: int) {
    && (forall r :: r in hot ==> r.at >= yearStartMs * 1000)
    && (forall r :: r in archive ==> r.at < yearStartMs * 1000)
  }

  lemma BoundsExclude(hot: seq<Row>, archive: seq<Row>, yearStartMs: int, branch: nat, filters: seq<FilterParams>)
    requires Separated(hot, archive, yearStartMs) && FirstUpper(filters).Some? && FirstLower(filters).Some?
    ensures ClassifyDateRange(filters, yearStartMs).Archive? ==> OfBranch(hot, branch, filters) == []
    ensures ClassifyDateRange(filters, yearStartMs).Hot? ==> OfBranch(archive, branch, filters) == []
  {
    var p := ForBranch(branch, filters);
    var u :| 0 <= u < |filters| && IsUpper(filters[u]) && filters[u].at == FirstUpper(filters).value;
    var l :| 0 <= l < |filters| && IsLower(filters[l]) && filters[l].at == FirstLower(filters).value;
    match ClassifyDateRange(filters, yearStartMs)
    case Archive =>
      forall r | r in hot ensures !p(r) { assert !Passes(filters[u], r); }
      FilterNone(hot, p);
    case Hot =>
      forall r | r in archive ensures !p(r) { assert !Passes(filters[l], r); }
      FilterNone(archive, p);
    case Straddle =>
  }

  lemma UnionOfBranch(hot: seq<Row>, archive: seq<Row>, branch: nat, filters: seq<FilterParams>)
    ensures OfBranch(hot + archive, branch, filters) == OfBranch(hot, branch, filters) + OfBranch(archive, branch, filters)
  {
    FilterAppend(hot, archive, ForBranch(branch, filters));
  }

  /** On a fully bounded range that does not straddle the year, the routed page is
      the page of one query over both databases, whatever the cursor. */
  lemma RoutedPageIsOneQuery(hot: seq<Row>, archive: seq<Row>, yearStartMs: int, branch: nat,
                             filters: seq<FilterParams>, asc: bool, cursor: Option<Cursor>, limit: nat)
    requires Separated(hot, archive, yearStartMs)
    requires FirstUpper(filters).Some? && FirstLower(filters).Some?
    requires !ClassifyDateRange(filters, yearStartMs).Straddle?
    ensures ListRestaurantOrders(hot, archive, yearStartMs, branch, filters, asc, cursor, limit)
         == BranchPage(hot + archive, branch, filters, asc, cursor, limit)
  {
    BoundsExclude(hot, archive, yearStartMs, branch, filters);
    UnionOfBranch(hot, archive, branch, filters);
    var h, a := OfBranch(hot, branch, filters), OfBranch(archive, branch, filters);
    assert OfBranch(hot + archive, branch, filters) == if ClassifyDateRange(filters, yearStartMs).Hot? then h else a;
  }

  /** With a bound missing only hot is read: that agrees with the query over both,
      for every page size, exactly when no archived order matches. */
  lemma OneSidedRangeReadsHotOnly(hot: seq<Row>, archive: seq<Row>, yearStartMs: int, branch: nat,
                                  filters: seq<FilterParams>, asc: bool)
    requires FirstUpper(filters).None? || FirstLower(filters).None?
    ensures OfBranch(archive, branch, filters) == [] <==>
      forall limit: nat ::
        ListRestaurantOrders(hot, archive, yearStartMs, branch, filters, asc, None, limit)
        == BranchPage(hot + archive, branch, filters, asc, None, limit)
  {
    UnionOfBranch(hot, archive, branch, filters);
    var h, a := OfBranch(hot, branch, filters), OfBranch(archive, branch, filters);
    if a != [] {
      var limit := |h| + |a|;
      WholePage(ByCreation(asc), h, limit);
      WholePage(ByCreation(asc), h + a, limit);
      assert ListRestaurantOrders(hot, archive, yearStartMs, branch, filters, asc, None, limit)
          != BranchPage(hot + archive, branch, filters, asc, None, limit);
    } else {
      assert h + a == h;
    }
  }

  lemma WholePage(o: Order, rows: seq<Row>, limit: nat)
    requires |rows| <= limit
    ensures |GetPage(o, rows, None, limit).data| == |rows|
  {
    SortSize(rows, Ranking(o));
  }

  lemma {:induction false} SortSize<T>(xs: seq<T>, le: (T, T) -> bool)
    ensures |Sort(xs, le)| == |xs|
  {
    if xs != [] {
      SortSize(xs[1..], le);
      InsertSize(xs[0], Sort(xs[1..], le), le);
    }
  }

  lemma {:induction false} InsertSize<T>(x: T, xs: seq<T>, le: (T, T) -> bool)
    ensures |Insert(x, xs, le)| == |xs| + 1
  {
    if xs != [] && !le(x, xs[0]) { InsertSize(x, xs[1..], le); }
  }

  // ---- the in-memory merge ------------------------------------------------

  ghost predicate Below<T(!new)>(xs: seq<T>, ys: seq<T>, le: (T, T) -> bool) {
    forall x, y :: x in xs && y in ys ==> le(x, y) && !le(y, x)
  }

  lemma {:induction false} InsertIntoLow<T(!new)>(x: T, low: seq<T>, high: seq<T>, le: (T, T) -> bool)
    requires forall y :: y in high ==> le(x, y)
    ensures Insert(x, low + high, le) == Insert(x, low, le) + high
  {
    if low == [] {
      assert low + high == high;
    } else {
      assert (low + high)[1..] == low[1..] + high;
      if le(x, low[0]) {
        assert [x] + (low + high) == [x] + low + high;
      } else {
        InsertIntoLow(x, low[1..], high, le);
        assert Insert(x, low, le) == [low[0]] + Insert(x, low[1..], le);
        assert [low[0]] + (Insert(x, low[1..], le) + high) == Insert(x, low, le) + high;
      }
    }
  }

  lemma {:induction false} InsertIntoHigh<T(!new)>(x: T, low: seq<T>, high: seq<T>, le: (T, T) -> bool)
    requires forall y :: y in low ==> !le(x, y)
    ensures Insert(x, low + high, le) == low + Insert(x, high, le)
  {
    if low == [] {
      assert low + high == high;
    } else {
      assert (low + high)[1..] == low[1..] + high;
      InsertIntoHigh(x, low[1..], high, le);
    }
  }

  lemma {:induction false} InSort<T(!new)>(xs: seq<T>, le: (T, T) -> bool, x: T)
    ensures x in Sort(xs, le) <==> x in xs
  {
    if xs != [] {
      InSort(xs[1..], le, x);
      InInsert(xs[0], Sort(xs[1..], le), le, x);
      assert xs == [xs[0]] + xs[1..];
    }
  }

  lemma {:induction false} InInsert<T(!new)>(y: T, xs: seq<T>, le: (T, T) -> bool, x: T)
    ensures x in Insert(y, xs, le) <==> x == y || x in xs
  {
    if xs != [] && !le(y, xs[0]) {
      InInsert(y, xs[1..], le, x);
      assert xs == [xs[0]] + xs[1..];
    }
  }

  /** Sorting two lists, one entirely below the other, one after the other. */
  lemma {:induction false} SortLowThenHigh<T(!new)>(low: seq<T>, high: seq<T>, le: (T, T) -> bool)
    requires Below(low, high, le)
    ensures Sort(low + high, le) == Sort(low, le) + Sort(high, le)
  {
    if low == [] {
      assert low + high == high;
    } else {
      assert (low + high)[1..] == low[1..] + high;
      SortLowThenHigh(low[1..], high, le);
      forall y | y in Sort(high, le) ensures le(low[0], y) { InSort(high, le, y); }
      InsertIntoLow(low[0], Sort(low[1..], le), Sort(high, le), le);
    }
  }

  lemma {:induction false} SortHighThenLow<T(!new)>(low: seq<T>, high: seq<T>, le: (T, T) -> bool)
    requires Below(low, high, le)
    ensures Sort(high + low, le) == Sort(low, le) + Sort(high, le)
  {
    if high == [] {
      assert high + low == low;
    } else {
      assert (high + low)[1..] == high[1..] + low;
      SortHighThenLow(low, high[1..], le);
      forall y | y in Sort(low, le) ensures !le(high[0], y) { InSort(low, le, y); }
      InsertIntoHigh(high[0], Sort(low, le), Sort(high[1..], le), le);
    }
  }

  lemma TakeOfTakes<T>(a: seq<T>, b: seq<T>, n: nat)
    ensures Take(Take(a, n) + Take(b, n), n) == Take(a + b, n)
  {
  }

  /** Hot first or archive first, as the sort direction has it. */
  function InSequence(hot: seq<Row>, archive: seq<Row>, asc: bool): seq<Row> {
    if asc then archive + hot else hot + archive
  }

  lemma UnionInOrder(hot: seq<Row>, archive: seq<Row>, yearStartMs: int, asc: bool)
    requires Separated(hot, archive, yearStartMs)
    ensures var o := ByCreation(asc);
      Ordered(o, hot + archive) == InSequence(Ordered(o, hot), Ordered(o, archive), asc)
  {
    var o := ByCreation(asc);
    if asc {
      assert Below(archive, hot, Ranking(o));
      SortHighThenLow(archive, hot, Ranking(o));
    } else {
      assert Below(hot, archive, Ranking(o));
      SortLowThenHigh(hot, archive, Ranking(o));
    }
  }

  /** A list in created_at order is in millisecond order. */
  lemma OrderedIsByMs(rows: seq<Row>, asc: bool, n: nat)
    ensures Sort(Take(Ordered(ByCreation(asc), rows), n), ByMs(asc)) == Take(Ordered(ByCreation(asc), rows), n)
  {
    var o := ByCreation(asc);
    InOrderIsPreorder(o);
    SortIsSorted(rows, Ranking(o));
    var t := Take(Ordered(o, rows), n);
    forall i, j | 0 <= i < j < |t| ensures ByMs(asc)(t[i], t[j]) {
      assert Ranking(o)(t[i], t[j]);
    }
    SortOfSorted(t, ByMs(asc));
  }

  lemma TakenRowsAreRows(o: Order, rows: seq<Row>, n: nat)
    ensures forall r :: r in Take(Ordered(o, rows), n) ==> r in rows
  {
    forall r | r in Take(Ordered(o, rows), n) ensures r in rows { InSort(rows, Ranking(o), r); }
  }

  lemma SeparatedIsBelow(h: seq<Row>, a: seq<Row>, yearStartMs: int)
    requires Separated(h, a, yearStartMs)
    ensures Below(a, h, ByMs(true)) && Below(h, a, ByMs(false))
  {
    forall x, y | x in a && y in h ensures Ms(x.at) < Ms(y.at) {}
  }

  lemma MergeOfParts(h: seq<Row>, a: seq<Row>, yearStartMs: int, asc: bool)
    requires Separated(h, a, yearStartMs)
    requires Sort(h, ByMs(asc)) == h && Sort(a, ByMs(asc)) == a
    ensures Sort(h + a, ByMs(asc)) == InSequence(h, a, asc)
  {
    SeparatedIsBelow(h, a, yearStartMs);
    if asc {
      SortHighThenLow(a, h, ByMs(true));
    } else {
      SortLowThenHigh(h, a, ByMs(false));
    }
  }

  lemma MergeInSequence(hot: seq<Row>, archive: seq<Row>, yearStartMs: int, asc: bool, n: nat)
    requires Separated(hot, archive, yearStartMs)
    ensures var o := ByCreation(asc); var h, a := Take(Ordered(o, hot), n), Take(Ordered(o, archive), n);
      Sort(h + a, ByMs(asc)) == InSequence(h, a, asc)
  {
    var o := ByCreation(asc);
    TakenRowsAreRows(o, hot, n);
    TakenRowsAreRows(o, archive, n);
    OrderedIsByMs(hot, asc, n);
    OrderedIsByMs(archive, asc, n);
    MergeOfParts(Take(Ordered(o, hot), n), Take(Ordered(o, archive), n), yearStartMs, asc);
  }

  lemma PageData(o: Order, rows: seq<Row>, limit: nat)
    ensures GetPage(o, rows, None, limit).data == Take(Ordered(o, rows), limit)
    ensures GetPage(o, rows, None, limit).hasMore <==> |rows| > limit
  {
    SortSize(rows, Ranking(o));
  }

  /** On a straddling range the merged page holds the rows of the one query over
      both databases. Its cursor is always empty; its hasMore never promises a row
      that is not there, but stays silent exactly when one of the two databases
      has no matching row and the other has more than a page. */
  lemma MergedPageIsOneQuery(hot: seq<Row>, archive: seq<Row>, yearStartMs: int, branch: nat,
                             filters: seq<FilterParams>, asc: bool, cursor: Option<Cursor>, limit: nat)
    requires Separated(hot, archive, yearStartMs) && limit >= 1
    requires ClassifyDateRange(filters, yearStartMs).Straddle?
    ensures
      var page := ListRestaurantOrders(hot, archive, yearStartMs, branch, filters, asc, cursor, limit);
      var whole := BranchPage(hot + archive, branch, filters, asc, None, limit);
      var h, a := |OfBranch(hot, branch, filters)|, |OfBranch(archive, branch, filters)|;
      && page.data == whole.data
      && page.next == None
      && (page.hasMore ==> whole.hasMore)
      && (page.hasMore == whole.hasMore <==> !((h == 0 && a > limit) || (a == 0 && h > limit)))
  {
    var o := ByCreation(asc);
    var h, a := OfBranch(hot, branch, filters), OfBranch(archive, branch, filters);
    SelectedStaySeparated(hot, archive, yearStartMs, branch, filters);
    UnionOfBranch(hot, archive, branch, filters);
    PageData(o, h, limit);
    PageData(o, a, limit);
    PageData(o, h + a, limit);
    UnionInOrder(h, a, yearStartMs, asc);
    MergeInSequence(h, a, yearStartMs, asc, limit);
    SortSize(h, Ranking(o));
    SortSize(a, Ranking(o));
    if asc {
      TakeOfTakes(Ordered(o, a), Ordered(o, h), limit);
    } else {
      TakeOfTakes(Ordered(o, h), Ordered(o, a), limit);
    }
  }

  lemma SelectedStaySeparated(hot: seq<Row>, archive: seq<Row>, yearStartMs: int, branch: nat, filters: seq<FilterParams>)
    requires Separated(hot, archive, yearStartMs)
    ensures Separated(OfBranch(hot, branch, filters), OfBranch(archive, branch, filters), yearStartMs)
  {
    var p := ForBranch(branch, filters);
    forall r: Row ensures r in Filter(hot, p) ==> r in hot { FilterKeeps(hot, p, r); }
    forall r: Row ensures r in Filter(archive, p) ==> r in archive { FilterKeeps(archive, p, r); }
  }

  // ---- what a routed page shows ------------------------------------------------

  /** What keeps a row out: a bound on the wrong side of it, or another condition. */
  predicate Misses(f: FilterParams, r: Row) {
    if f.CreatedAt? then
      (r.at < f.at && f.op in {Eq, Gt, Gte}) || (r.at == f.at && f.op in {Gt, Lt}) || (r.at > f.at && f.op in {Eq, Lt, Lte})
    else !f.test(r)
  }

  /** The orders a branch asks for. */
  function Asked(branch: nat, filters: seq<FilterParams>): Row -> bool {
    (r: Row) => r.branch == branch && forall i :: 0 <= i < |filters| ==> !Misses(filters[i], r)
  }

  lemma ForBranchIsAsked(branch: nat, filters: seq<FilterParams>, r: Row)
    ensures ForBranch(branch, filters)(r) <==> Asked(branch, filters)(r)
  {
    forall i | 0 <= i < |filters| ensures Passes(filters[i], r) <==> !Misses(filters[i], r) {}
  }

  /** filters[i] is the first bound from above, as the parser finds it. */
  ghost predicate BoundsAbove(filters: seq<FilterParams>, i: nat) {
    && i < |filters| && filters[i].CreatedAt? && filters[i].op in {Lt, Lte}
    && forall j :: 0 <= j < i ==> !(filters[j].CreatedAt? && filters[j].op in {Lt, Lte})
  }

  ghost predicate BoundsBelow(filters: seq<FilterParams>, i: nat) {
    && i < |filters| && filters[i].CreatedAt? && filters[i].op in {Gt, Gte}
    && forall j :: 0 <= j < i ==> !(filters[j].CreatedAt? && filters[j].op in {Gt, Gte})
  }

  lemma {:induction false} FirstUpperIs(filters: seq<FilterParams>, i: nat)
    ensures BoundsAbove(filters, i) ==> FirstUpper(filters) == Some(filters[i].at)
    ensures (forall j :: !BoundsAbove(filters, j)) ==> FirstUpper(filters) == None
  {
    if filters != [] {
      var rest := filters[1..];
      FirstUpperIs(rest, if i > 0 then i - 1 else 0);
      if BoundsAbove(filters, i) && i > 0 { assert !IsUpper(filters[0]) && BoundsAbove(rest, i - 1); }
      if forall j :: !BoundsAbove(filters, j) {
        assert !BoundsAbove(filters, 0);
        forall j: nat ensures !BoundsAbove(rest, j) { assert !BoundsAbove(filters, j + 1); }
      }
    }
  }

  lemma {:induction false} FirstLowerIs(filters: seq<FilterParams>, i: nat)
    ensures BoundsBelow(filters, i) ==> FirstLower(filters) == Some(filters[i].at)
    ensures (forall j :: !BoundsBelow(filters, j)) ==> FirstLower(filters) == None
  {
    if filters != [] {
      var rest := filters[1..];
      FirstLowerIs(rest, if i > 0 then i - 1 else 0);
      if BoundsBelow(filters, i) && i > 0 { assert !IsLower(filters[0]) && BoundsBelow(rest, i - 1); }
      if forall j :: !BoundsBelow(filters, j) {
        assert !BoundsBelow(filters, 0);
        forall j: nat ensures !BoundsBelow(rest, j) { assert !BoundsBelow(filters, j + 1); }
      }
    }
  }

  /** A range straddles the year exactly when it starts before it and does not end
      before it; with one side open only hot is read. */
  lemma RangeIsClassified(filters: seq<FilterParams>, yearStartMs: int, u: nat, l: nat)
    ensures BoundsAbove(filters, u) && BoundsBelow(filters, l) ==>
      var where := ClassifyDateRange(filters, yearStartMs);
      && (where.Straddle? <==> filters[l].at < yearStartMs * 1000 <= filters[u].at)
      && (where.Archive? <==> filters[u].at < yearStartMs * 1000)
    ensures (forall i :: !BoundsAbove(filters, i)) || (forall i :: !BoundsBelow(filters, i)) ==>
      ClassifyDateRange(filters, yearStartMs).Hot?
  {
    FirstUpperIs(filters, u);
    FirstLowerIs(filters, l);
  }

  lemma BranchPageShows(rows: seq<Row>, branch: nat, filters: seq<FilterParams>, asc: bool, cursor: Option<Cursor>, limit: nat)
    ensures var page := BranchPage(rows, branch, filters, asc, cursor, limit);
      && Lists(Order(asc, true), page.data, rows, Asked(branch, filters), cursor, limit)
      && Continues(Order(asc, true), page, rows, Asked(branch, filters), cursor)
  {
    var p, q := ForBranch(branch, filters), Asked(branch, filters);
    forall r: Row ensures p(r) <==> q(r) { ForBranchIsAsked(branch, filters, r); }
    FilterTwice(rows, q, q, p);
    FilterTwice(rows, q, q, q);
    PageShows(Order(asc, true), rows, q, cursor, limit);
  }

  /** A restaurant's page over a range with both ends, the year not inside it: the
      orders of that branch, from either database, that no filter turns away, past
      the cursor and in the order asked for; a row that is missing comes later, and
      then the page is full and says so. */
  lemma RestaurantPageShows(hot: seq<Row>, archive: seq<Row>, yearStartMs: int, branch: nat, filters: seq<FilterParams>,
                            u: nat, l: nat, asc: bool, cursor: Option<Cursor>, limit: nat)
    requires Separated(hot, archive, yearStartMs)
    requires BoundsAbove(filters, u) && BoundsBelow(filters, l)
    requires !(filters[l].at < yearStartMs * 1000 <= filters[u].at)
    ensures var page := ListRestaurantOrders(hot, archive, yearStartMs, branch, filters, asc, cursor, limit);
      && Lists(Order(asc, true), page.data, hot + archive, Asked(branch, filters), cursor, limit)
      && Continues(Order(asc, true), page, hot + archive, Asked(branch, filters), cursor)
  {
    RangeIsClassified(filters, yearStartMs, u, l);
    FirstUpperIs(filters, u);
    FirstLowerIs(filters, l);
    RoutedPageIsOneQuery(hot, archive, yearStartMs, branch, filters, asc, cursor, limit);
    BranchPageShows(hot + archive, branch, filters, asc, cursor, limit);
  }

  /** Without a cursor and a successor such a page is all there is. */
  lemma LonePageIsComplete(hot: seq<Row>, archive: seq<Row>, yearStartMs: int, branch: nat, filters: seq<FilterParams>,
                           u: nat, l: nat, asc: bool, limit: nat, r: Row)
    requires Separated(hot, archive, yearStartMs)
    requires BoundsAbove(filters, u) && BoundsBelow(filters, l)
    requires !(filters[l].at < yearStartMs * 1000 <= filters[u].at)
    requires !ListRestaurantOrders(hot, archive, yearStartMs, branch, filters, asc, None, limit).hasMore
    ensures r in ListRestaurantOrders(hot, archive, yearStartMs, branch, filters, asc, None, limit).data
       <==> (r in hot || r in archive) && r.branch == branch && forall i :: 0 <= i < |filters| ==> !Misses(filters[i], r)
  {
    RestaurantPageShows(hot, archive, yearStartMs, branch, filters, u, l, asc, None, limit);
    var page := ListRestaurantOrders(hot, archive, yearStartMs, branch, filters, asc, None, limit);
    assert !Unlisted(Order(asc, true), page.data, hot + archive, Asked(branch, filters), None, r);
  }

  /** Over a range that starts before the year and ends in it: the first page of
      both databases together, whatever the cursor, and no cursor back. */
  lemma StraddlingPageShows(hot: seq<Row>, archive: seq<Row>, yearStartMs: int, branch: nat, filters: seq<FilterParams>,
                            u: nat, l: nat, asc: bool, cursor: Option<Cursor>, limit: nat)
    requires Separated(hot, archive, yearStartMs) && limit >= 1
    requires BoundsAbove(filters, u) && BoundsBelow(filters, l)
    requires filters[l].at < yearStartMs * 1000 <= filters[u].at
    ensures var page := ListRestaurantOrders(hot, archive, yearStartMs, branch, filters, asc, cursor, limit);
      && Lists(Order(asc, true), page.data, hot + archive, Asked(branch, filters), None, limit)
      && page.next == None
  {
    RangeIsClassified(filters, yearStartMs, u, l);
    MergedPageIsOneQuery(hot, archive, yearStartMs, branch, filters, asc, cursor, limit);
    BranchPageShows(hot + archive, branch, filters, asc, None, limit);
  }

  /** With a side open the page shows what hot holds, and only that. */
  lemma OpenRangeShowsHot(hot: seq<Row>, archive: seq<Row>, yearStartMs: int, branch: nat, filters: seq<FilterParams>,
                          asc: bool, cursor: Option<Cursor>, limit: nat)
    requires (forall i :: !BoundsAbove(filters, i)) || (forall i :: !BoundsBelow(filters, i))
    ensures var page := ListRestaurantOrders(hot, archive, yearStartMs, branch, filters, asc, cursor, limit);
      && Lists(Order(asc, true), page.data, hot, Asked(branch, filters), cursor, limit)
      && Continues(Order(asc, true), page, hot, Asked(branch, filters), cursor)
  {
    RangeIsClassified(filters, yearStartMs, 0, 0);
    BranchPageShows(hot, branch, filters, asc, cursor, limit);
  }

  // ---- a customer's year -----------------------------------------------------

  ghost predicate Increasing(yearStartMs: int -> int) {
    forall y, z :: y < z ==> yearStartMs(y) < yearStartMs(z)
  }

  function ForCustomer(customer: nat, year: int, yearStartMs: int -> int): Row -> bool {
    (r: Row) => r.customer == customer && yearStartMs(year) <= Ms(r.at) < yearStartMs(year + 1)
  }

  /** findOrdersByCustomer's selection. */
  function OfCustomer(rows: seq<Row>, customer: nat, year: int, yearStartMs: int -> int): seq<Row> {
    Filter(rows, ForCustomer(customer, year, yearStartMs))
  }

  function CustomerPage(rows: seq<Row>, customer: nat, year: int, yearStartMs: int -> int, asc: bool,
                        cursor: Option<Cursor>, limit: nat): Page
  {
    GetPage(ByCreation(asc), OfCustomer(rows, customer, year, yearStartMs), cursor, limit)
  }

  function ListCustomerOrders(hot: seq<Row>, archive: seq<Row>, thisYear: int, customer: nat, year: int,
                              yearStartMs: int -> int, asc: bool, cursor: Option<Cursor>, limit: nat): Page
  {
    CustomerPage(if year < thisYear then archive else hot, customer, year, yearStartMs, asc, cursor, limit)
  }

  /** For every year, past, current or future, the routed page is the page of one
      query over both databases. */
  lemma CustomerPageIsOneQuery(hot: seq<Row>, archive: seq<Row>, thisYear: int, customer: nat, year: int,
                               yearStartMs: int -> int, asc: bool, cursor: Option<Cursor>, limit: nat)
    requires Increasing(yearStartMs) && Separated(hot, archive, yearStartMs(thisYear))
    ensures ListCustomerOrders(hot, archive, thisYear, customer, year, yearStartMs, asc, cursor, limit)
         == CustomerPage(hot + archive, customer, year, yearStartMs, asc, cursor, limit)
  {
    var p := ForCustomer(customer, year, yearStartMs);
    FilterAppend(hot, archive, p);
    if year < thisYear {
      assert yearStartMs(year + 1) <= yearStartMs(thisYear);
      forall r | r in hot ensures !p(r) { assert Ms(r.at) >= yearStartMs(thisYear); }
      FilterNone(hot, p);
      assert Filter(hot, p) + Filter(archive, p) == Filter(archive, p);
    } else {
      assert yearStartMs(thisYear) <= yearStartMs(year);
      forall r | r in archive ensures !p(r) { assert Ms(r.at) < yearStartMs(thisYear); }
      FilterNone(archive, p);
      assert Filter(hot, p) + Filter(archive, p) == Filter(hot, p);
    }
  }

  /** The customer's orders of the year, its end excluded. */
  function AskedInYear(customer: nat, start: int, end: int): Row -> bool {
    (r: Row) => r.customer == customer && start * 1000 <= r.at < end * 1000
  }

  /** A customer's page: that customer's orders of that year, from either database,
      past the cursor and in the order asked for; a row that is missing comes
      later, and then the page is full and says so. */
  lemma CustomerPageShows(hot: seq<Row>, archive: seq<Row>, thisYear: int, customer: nat, year: int,
                          yearStartMs: int -> int, asc: bool, cursor: Option<Cursor>, limit: nat)
    requires Increasing(yearStartMs) && Separated(hot, archive, yearStartMs(thisYear))
    ensures var page := ListCustomerOrders(hot, archive, thisYear, customer, year, yearStartMs, asc, cursor, limit);
      var asked := AskedInYear(customer, yearStartMs(year), yearStartMs(year + 1));
      && Lists(Order(asc, true), page.data, hot + archive, asked, cursor, limit)
      && Continues(Order(asc, true), page, hot + archive, asked, cursor)
  {
    var rows := hot + archive;
    var p, q := ForCustomer(customer, year, yearStartMs), AskedInYear(customer, yearStartMs(year), yearStartMs(year + 1));
    forall r: Row ensures p(r) <==> q(r) {}
    FilterTwice(rows, q, q, p);
    FilterTwice(rows, q, q, q);
    CustomerPageIsOneQuery(hot, archive, thisYear, customer, year, yearStartMs, asc, cursor, limit);
    PageShows(Order(asc, true), rows, q, cursor, limit);
  }

  // ---- where the separation comes from -----------------------------------------

  /** rows lists orders of the database. */
  ghost predicate ListsOrders(rows: seq<Row>, db: Tables.Db) {
    forall r :: r in rows ==>
      r.id >= 1 && Tables.Key(Tables.Orders, r.id) in db && db[Tables.Key(Tables.Orders, r.id)].stamp == r.at
  }

  /** After a completed archival run, and until the year ends, the two databases are
      separated, if the archive held only prior-year orders when the history began:
      the reads above then need no further hypothesis. */
  lemma CompletedRunSeparates(c: Protocol.Config, yearStartMs: int, trace: seq<Protocol.State>,
                              actions: seq<Protocol.Action>, n: nat, id: nat, hot: seq<Row>, archive: seq<Row>)
    requires Protocol.IsRun(c, trace, actions) && Protocol.LaunchesFit(c, trace, actions) && n < |trace|
    requires Archival.Completed(trace[n], id)
    requires c.yearStart(trace[n].workers[id].launched) == yearStartMs * 1000 == c.yearStart(trace[n].now)
    requires forall k :: k in trace[0].archive && k.table == Tables.Orders ==> trace[0].archive[k].stamp < yearStartMs * 1000
    requires ListsOrders(hot, trace[n].hot) && ListsOrders(archive, trace[n].archive)
    ensures Separated(hot, archive, yearStartMs)
  {
    var cutoff, s := yearStartMs * 1000, trace[n];
    Archival.CompletedRunMovesEverything(c, trace, actions, n, id);
    Protocol.Reached(c, trace, actions, n);
    HotIsAfter(s.hot, cutoff, hot);
    ArchiveIsBefore(Protocol.Ever(c, trace, n), trace[0].archive, s.hot, s.archive, cutoff, archive);
  }

  lemma HotIsAfter(db: Tables.Db, cutoff: int, rows: seq<Row>)
    requires Tables.EligibleRows(db, cutoff) == map[] && ListsOrders(rows, db)
    ensures forall r :: r in rows ==> r.at >= cutoff
  {
    forall r | r in rows ensures r.at >= cutoff {
      assert Tables.Key(Tables.Orders, r.id) !in Tables.EligibleRows(db, cutoff);
    }
  }

  lemma ArchiveIsBefore(E: Tables.Db, A: Tables.Db, hot: Tables.Db, archive: Tables.Db, cutoff: int, rows: seq<Row>)
    requires Batches.TablesOk(cutoff, E, A, hot, archive) && Tables.EligibleRows(E, cutoff) == E
    requires forall k :: k in A && k.table == Tables.Orders ==> A[k].stamp < cutoff
    requires ListsOrders(rows, archive)
    ensures forall r :: r in rows ==> r.at < cutoff
  {
    forall r | r in rows ensures r.at < cutoff {
      var k := Tables.Key(Tables.Orders, r.id);
      if k in E { assert k in Tables.EligibleRows(E, cutoff) && archive[k] == Tables.Archived(E[k]); }
    }
  }

  /** Archived timestamps are whole milliseconds, so the cursor loses nothing of them:
      unlike in hot, a walk over archived orders always lists every one. */
  lemma ArchivedWalkIsComplete(c: Protocol.Config, trace: seq<Protocol.State>, actions: seq<Protocol.Action>, n: nat,
                               o: Order, rows: seq<Row>)
    requires Protocol.IsRun(c, trace, actions) && Protocol.LaunchesFit(c, trace, actions) && n < |trace|
    requires forall k :: k in trace[0].archive && k.table == Tables.Orders ==> trace[0].archive[k].stamp % 1000 == 0
    requires ListsOrders(rows, trace[n].archive) && DistinctIds(rows)
    ensures WalkListsAll(o, rows)
  {
    Protocol.Reached(c, trace, actions, n);
    forall r | r in rows ensures r.at % 1000 == 0 {
      var k := Tables.Key(Tables.Orders, r.id);
      if k in Protocol.Ever(c, trace, n) { Copies.ArchivedIsSameIff(Protocol.Ever(c, trace, n)[k]); }
    }
    IdsFollowTimeIsEnough(o, rows);
  }
}
