/** The paged read of apps/api/src/candles/candles.service.ts: one page of a pool's candles after a
    cursor, and a client that follows the cursors to the end. */
module TicksPaging {
  import IntMath
  import opened OrderedMap
  import opened Sorting
  import opened Candles
  import opened Wrappers

  const TICKS_DEFAULT_LIMIT := 100
  const TICKS_MAX_LIMIT := 1000

  datatype Limit = Unset | Given(n: int)

  /** A cursor as it arrives: none or empty, not decodable to a date, or a period start. */
  datatype Cursor = NoCursor | Malformed | After(start: int)

  datatype TickError = InvalidLimit | InvalidCursor

  datatype Page = Page(data: Table, nextCursor: Cursor)

  /** A hundred unless the client asks for one to a thousand; anything else is refused. */
  function ResolveLimit(limit: Limit): (r: Result<int, TickError>)
    ensures r.Ok? ==> 1 <= r.value <= 1000
    ensures limit == Unset ==> r == Ok(100)
    ensures forall n: int :: limit == Given(n) ==> if 1 <= n <= 1000 then r == Ok(n) else r == Err(InvalidLimit)
  {
    match limit
    case Unset => Ok(TICKS_DEFAULT_LIMIT)
    case Given(n) => if n < 1 || n > TICKS_MAX_LIMIT then Err(InvalidLimit) else Ok(n)
  }

  /** The pool's candles of one interval after the cursor, in table order. */
  function Select(rows: Table, poolId: string, interval: Interval, cursor: Cursor): Table {
    if rows == [] then []
    else
      var last := rows[|rows| - 1];
      var before := Select(rows[..|rows| - 1], poolId, interval, cursor);
      if last.key.poolId == poolId && last.key.interval == interval
         && (cursor.After? ==> last.key.periodStart > cursor.start)
      then before + [last] else before
  }

  function SortByStart(rows: Table): Table {
    Sort(rows, (row: Entry<Key, Ohlcv>) => row.key.periodStart)
  }

  function Take(rows: Table, n: nat): Table {
    if |rows| <= n then rows else rows[..n]
  }

  /** The page cut from `limit + 1` rows, and the cursor that resumes after it. */
  function PageOf(found: Table, n: nat): Page
    requires n > 0
  {
    var hasMore := |found| > n;
    var page := if hasMore then found[..n] else found;
    Page(page, if hasMore && |page| > 0 then After(page[|page| - 1].key.periodStart) else NoCursor)
  }

  function GetTicks(rows: Table, poolId: string, interval: Interval, limit: Limit, cursor: Cursor): Result<Page, TickError> {
    match ResolveLimit(limit)
    case Err(e) => Err(e)
    case Ok(n) =>
      if cursor.Malformed? then Err(InvalidCursor)
      else Ok(PageOf(Take(SortByStart(Select(rows, poolId, interval, cursor)), n + 1), n))
  }

  /** Exactly which requests are refused: a limit out of range first, then a cursor that does not decode. */
  lemma TicksRefusedIff(rows: Table, poolId: string, interval: Interval, limit: Limit, cursor: Cursor)
    ensures var r := GetTicks(rows, poolId, interval, limit, cursor);
            && (r == Err(InvalidLimit) <==> limit.Given? && (limit.n < 1 || limit.n > 1000))
            && (r == Err(InvalidCursor) <==> (limit.Given? ==> 1 <= limit.n <= 1000) && cursor == Malformed)
  {
  }

  // ----- one page of the whole series --------------------------------------------

  /** Every candle of the pool and interval, ascending: what the pages should add up to. */
  function Series(rows: Table, poolId: string, interval: Interval): Table {
    SortByStart(Select(rows, poolId, interval, NoCursor))
  }

  ghost predicate StrictlyAscending(rows: Table) {
    forall i, j :: 0 <= i < j < |rows| ==> rows[i].key.periodStart < rows[j].key.periodStart
  }

  ghost predicate Selected(row: Entry<Key, Ohlcv>, poolId: string, interval: Interval, cursor: Cursor) {
    row.key.poolId == poolId && row.key.interval == interval && (cursor.After? ==> row.key.periodStart > cursor.start)
  }

  lemma {:induction false} SelectMembers(rows: Table, poolId: string, interval: Interval, cursor: Cursor)
    ensures forall b :: b in Select(rows, poolId, interval, cursor) <==> b in rows && Selected(b, poolId, interval, cursor)
  {
    if rows != [] {
      SelectMembers(rows[..|rows| - 1], poolId, interval, cursor);
      assert rows == rows[..|rows| - 1] + [rows[|rows| - 1]];
    }
  }

  lemma UniqueLast(rows: Table, row: Entry<Key, Ohlcv>)
    requires UniqueKeys(rows) && rows != [] && row in rows[..|rows| - 1]
    ensures row.key != rows[|rows| - 1].key
  {
    var j :| 0 <= j < |rows| - 1 && rows[..|rows| - 1][j] == row;
    assert rows[j].key != rows[|rows| - 1].key;
  }

  lemma {:induction false} SelectUnique(rows: Table, poolId: string, interval: Interval, cursor: Cursor)
    requires UniqueKeys(rows)
    ensures UniqueKeys(Select(rows, poolId, interval, cursor))
  {
    if rows != [] {
      var before := rows[..|rows| - 1];
      SelectUnique(before, poolId, interval, cursor);
      SelectMembers(before, poolId, interval, cursor);
      var f := Select(before, poolId, interval, cursor);
      forall i | 0 <= i < |f| ensures f[i].key != rows[|rows| - 1].key {
        assert f[i] in f;
        UniqueLast(rows, f[i]);
      }
    }
  }

  /** Sorting the selected rows of one pool and interval gives a strictly ascending list of them. */
  lemma SortedSelection(rows: Table, poolId: string, interval: Interval, cursor: Cursor)
    requires UniqueKeys(rows)
    ensures var s := SortByStart(Select(rows, poolId, interval, cursor));
            && StrictlyAscending(s)
            && forall b :: b in s <==> b in rows && Selected(b, poolId, interval, cursor)
  {
    var f, key := Select(rows, poolId, interval, cursor), (row: Entry<Key, Ohlcv>) => row.key.periodStart;
    var s := SortByStart(f);
    SelectMembers(rows, poolId, interval, cursor);
    SelectUnique(rows, poolId, interval, cursor);
    assert s == Sort(f, key);
    SortIsStableSort(f, key);
    assert forall b :: b in s <==> b in multiset(s);
    assert forall b :: b in f <==> b in multiset(f);
    forall i, j | 0 <= i < j < |f| ensures key(f[i]) != key(f[j]) {
      assert f[i] in f && f[j] in f;
      assert f[i].key == Key(poolId, interval, f[i].key.periodStart);
      assert f[j].key == Key(poolId, interval, f[j].key.periodStart);
    }
    DistinctKeysPermute(f, s, key);
    forall i, j | 0 <= i < j < |s| ensures s[i].key.periodStart < s[j].key.periodStart {
      assert key(s[i]) <= key(s[j]) && key(s[i]) != key(s[j]);
    }
  }

  lemma HeadIsMember(rows: Table)
    requires rows != []
    ensures rows[0] in rows
  {
  }

  lemma TailsSame(a: Table, b: Table)
    requires StrictlyAscending(a) && StrictlyAscending(b) && a != [] && b != [] && a[0] == b[0]
    requires forall x :: x in a <==> x in b
    ensures forall x :: x in a[1..] <==> x in b[1..]
  {
    assert a == [a[0]] + a[1..] && b == [b[0]] + b[1..];
    forall x | x in a[1..] ensures x in b[1..] {
      var i :| 0 <= i < |a| - 1 && a[1..][i] == x;
      assert a[i + 1] == x && x in b;
    }
    forall x | x in b[1..] ensures x in a[1..] {
      var i :| 0 <= i < |b| - 1 && b[1..][i] == x;
      assert b[i + 1] == x && x in a;
    }
  }

  /** Two strictly ascending lists with the same rows are the same list. */
  lemma {:induction false} AscendingUnique(a: Table, b: Table)
    requires StrictlyAscending(a) && StrictlyAscending(b)
    requires forall x :: x in a <==> x in b
    ensures a == b
  {
    if a == [] {
      if b != [] {
        HeadIsMember(b);
      }
    } else {
      assert a[0] in b;
      assert b != [];
      assert b[0] in a;
      var i :| 0 <= i < |b| && b[i] == a[0];
      var j :| 0 <= j < |a| && a[j] == b[0];
      assert i == 0 && j == 0;
      TailsSame(a, b);
      AscendingUnique(a[1..], b[1..]);
    }
  }

  /** The rows above element `k - 1` of an ascending list are its suffix. */
  lemma SuffixAfter(s: Table, k: nat, rest: Table)
    requires StrictlyAscending(s) && StrictlyAscending(rest) && 0 < k <= |s|
    requires forall x :: x in rest <==> x in s && x.key.periodStart > s[k - 1].key.periodStart
    ensures rest == s[k..]
  {
    forall x ensures x in rest <==> x in s[k..] {
      if x in rest {
        var i :| 0 <= i < |s| && s[i] == x;
        assert s[k..][i - k] == x;
      }
      if x in s[k..] {
        var i :| 0 <= i < |s| - k && s[k..][i] == x;
        assert s[k + i] == x;
      }
    }
    AscendingUnique(rest, s[k..]);
  }

  /** A cursor at element `k - 1` of the series selects exactly the elements from `k` on. */
  lemma CursorResumes(rows: Table, poolId: string, interval: Interval, k: nat)
    requires UniqueKeys(rows) && 0 < k <= |Series(rows, poolId, interval)|
    ensures var s := Series(rows, poolId, interval);
            SortByStart(Select(rows, poolId, interval, After(s[k - 1].key.periodStart))) == s[k..]
  {
    var s := Series(rows, poolId, interval);
    var c := After(s[k - 1].key.periodStart);
    SortedSelection(rows, poolId, interval, NoCursor);
    SortedSelection(rows, poolId, interval, c);
    SuffixAfter(s, k, SortByStart(Select(rows, poolId, interval, c)));
  }

  // ----- following the cursors ---------------------------------------------------

  /** The pages read from element `k` of the series on, `n` per page. */
  function PagesFrom(series: Table, k: nat, n: nat): (pages: seq<Table>)
    requires n > 0 && k <= |series|
    ensures pages != []
    decreases |series| - k
  {
    if |series| - k <= n then [series[k..]] else [series[k..k + n]] + PagesFrom(series, k + n, n)
  }

  function Concat(pages: seq<Table>): Table {
    if pages == [] then [] else pages[0] + Concat(pages[1..])
  }

  /** The cursor that resumes at element `k`. */
  function CursorAt(series: Table, k: nat): Cursor
    requires k <= |series|
  {
    if k == 0 then NoCursor else After(series[k - 1].key.periodStart)
  }

  lemma UnfoldPages(pages: seq<Table>, series: Table, k: nat, n: nat)
    requires n > 0 && k <= |series|
    ensures pages + PagesFrom(series, k, n) ==
            if |series| - k <= n then pages + [series[k..]]
            else (pages + [series[k..k + n]]) + PagesFrom(series, k + n, n)
  {
  }

  /** A page is the next `n` elements, with a cursor exactly when more remain. */
  ghost predicate IsNextPage(page: Page, series: Table, k: nat, n: nat)
    requires n > 0 && k <= |series|
  {
    page == if |series| - k <= n then Page(series[k..], NoCursor)
            else Page(series[k..k + n], CursorAt(series, k + n))
  }

  lemma CutPage(series: Table, k: nat, n: nat)
    requires n > 0 && k <= |series|
    ensures IsNextPage(PageOf(Take(series[k..], n + 1), n), series, k, n)
  {
    if |series| - k > n {
      assert Take(series[k..], n + 1)[..n] == series[k..k + n];
    }
  }

  /** A cursor at element `k` of the series, the first one included, selects the rest of it. */
  lemma RestSelected(rows: Table, poolId: string, interval: Interval, k: nat)
    requires UniqueKeys(rows) && k <= |Series(rows, poolId, interval)|
    ensures var s := Series(rows, poolId, interval); SortByStart(Select(rows, poolId, interval, CursorAt(s, k))) == s[k..]
  {
    if k > 0 {
      CursorResumes(rows, poolId, interval, k);
    }
  }

  lemma PageFromFound(rows: Table, poolId: string, interval: Interval, limit: Limit, cursor: Cursor, found: Table)
    requires ResolveLimit(limit).Ok? && !cursor.Malformed? && found == SortByStart(Select(rows, poolId, interval, cursor))
    ensures GetTicks(rows, poolId, interval, limit, cursor)
         == Ok(PageOf(Take(found, ResolveLimit(limit).value + 1), ResolveLimit(limit).value))
  {
  }

  lemma FoundIsPage(rows: Table, poolId: string, interval: Interval, limit: Limit, series: Table, k: nat)
    requires ResolveLimit(limit).Ok? && k <= |series|
    requires SortByStart(Select(rows, poolId, interval, CursorAt(series, k))) == series[k..]
    ensures var r := GetTicks(rows, poolId, interval, limit, CursorAt(series, k));
            r.Ok? && IsNextPage(r.value, series, k, ResolveLimit(limit).value)
  {
    PageFromFound(rows, poolId, interval, limit, CursorAt(series, k), series[k..]);
    CutPage(series, k, ResolveLimit(limit).value);
  }

  lemma PageIsNext(rows: Table, poolId: string, interval: Interval, limit: Limit, k: nat)
    requires UniqueKeys(rows) && ResolveLimit(limit).Ok? && k <= |Series(rows, poolId, interval)|
    ensures var s, n := Series(rows, poolId, interval), ResolveLimit(limit).value;
            var r := GetTicks(rows, poolId, interval, limit, CursorAt(s, k));
            r.Ok? && IsNextPage(r.value, s, k, n)
  {
    RestSelected(rows, poolId, interval, k);
    FoundIsPage(rows, poolId, interval, limit, Series(rows, poolId, interval), k);
  }

  /** The pages so far and those from element `k` on are all of them. */
  ghost predicate ReadUpTo(pages: seq<Table>, series: Table, k: nat, n: nat)
    requires n > 0 && k <= |series|
  {
    pages + PagesFrom(series, k, n) == PagesFrom(series, 0, n)
  }

  /** One more page: the last one when it carries no cursor, else its cursor resumes after it. */
  lemma OnePageOn(pages: seq<Table>, page: Page, series: Table, k: nat, n: nat)
    requires n > 0 && k <= |series| && ReadUpTo(pages, series, k, n) && IsNextPage(page, series, k, n)
    ensures page.nextCursor == NoCursor ==> pages + [page.data] == PagesFrom(series, 0, n)
    ensures page.nextCursor != NoCursor ==>
              && k + n <= |series| && page.nextCursor == CursorAt(series, k + n)
              && ReadUpTo(pages + [page.data], series, k + n, n)
  {
    UnfoldPages(pages, series, k, n);
  }

  /** One request of the client, whose cursor stands at element `k` of the series. */
  method ReadPage(rows: Table, poolId: string, interval: Interval, limit: Limit, cursor: Cursor, ghost k: nat)
    returns (page: Page)
    requires UniqueKeys(rows) && ResolveLimit(limit).Ok? && k <= |Series(rows, poolId, interval)|
    requires cursor == CursorAt(Series(rows, poolId, interval), k)
    ensures IsNextPage(page, Series(rows, poolId, interval), k, ResolveLimit(limit).value)
  {
    PageIsNext(rows, poolId, interval, limit, k);
    page := GetTicks(rows, poolId, interval, limit, cursor).value;
  }

  /** The client's loop: ask, keep the page, go on while there is a next cursor. */
  method FollowCursors(rows: Table, poolId: string, interval: Interval, limit: Limit) returns (pages: seq<Table>)
    requires UniqueKeys(rows) && ResolveLimit(limit).Ok?
    ensures pages == PagesFrom(Series(rows, poolId, interval), 0, ResolveLimit(limit).value)
  {
    ghost var n: nat := ResolveLimit(limit).value;
    ghost var series, k := Series(rows, poolId, interval), 0;
    pages := [];
    var cursor := NoCursor;
    while true
      invariant 0 <= k <= |series| && cursor == CursorAt(series, k) && ReadUpTo(pages, series, k, n)
      decreases |series| - k
    {
      var page := ReadPage(rows, poolId, interval, limit, cursor, k);
      OnePageOn(pages, page, series, k, n);
      pages := pages + [page.data];
      if page.nextCursor == NoCursor { return; }
      cursor := page.nextCursor;
      k := k + n;
    }
  }

  lemma OnePage(left: int, n: int)
    requires 0 < left <= n
    ensures (left + n - 1) / n == 1
  {
    IntMath.DivIff(left + n - 1, n, 1);
    IntMath.DivIff(left + n - 1, n, 2);
  }

  lemma OneMorePage(left: int, n: int)
    requires 0 < n
    ensures (left + n - 1) / n == (left - n + n - 1) / n + 1
  {
    IntMath.DivAdd(left - 1, 1, n);
  }

  /** The pages together are the series, and there are as many as the limit needs, at least one. */
  lemma {:induction false} PagesCover(series: Table, k: nat, n: nat)
    requires n > 0 && k <= |series|
    ensures Concat(PagesFrom(series, k, n)) == series[k..]
    ensures |PagesFrom(series, k, n)| == if |series| == k then 1 else (|series| - k + n - 1) / n
    decreases |series| - k
  {
    var left := |series| - k;
    if left <= n {
      assert Concat([series[k..]]) == series[k..] + Concat([]);
      if left > 0 {
        OnePage(left, n);
      }
    } else {
      PagesCover(series, k + n, n);
      var rest := PagesFrom(series, k + n, n);
      assert ([series[k..k + n]] + rest)[1..] == rest;
      assert series[k..k + n] + series[k + n..] == series[k..];
      OneMorePage(left, n);
    }
  }

  /** Every page but the last is full, and the last is not longer, nor empty unless it is the only one. */
  lemma {:induction false} PagesAreFull(series: Table, k: nat, n: nat)
    requires n > 0 && k <= |series|
    ensures var pages := PagesFrom(series, k, n);
            && pages != [] && |pages[|pages| - 1]| <= n && (pages[|pages| - 1] == [] ==> |pages| == 1)
            && forall i :: 0 <= i < |pages| - 1 ==> |pages[i]| == n
    decreases |series| - k
  {
    if |series| - k > n {
      PagesAreFull(series, k + n, n);
    }
  }

  lemma PagesOfWhole(series: Table, n: nat)
    requires n > 0
    ensures Concat(PagesFrom(series, 0, n)) == series
    ensures |PagesFrom(series, 0, n)| == if series == [] then 1 else (|series| + n - 1) / n
  {
    PagesCover(series, 0, n);
    assert series[0..] == series;
  }

  /** The table's candles of one pool and interval, each once, ascending. */
  ghost predicate IsSeries(all: Table, rows: Table, poolId: string, interval: Interval) {
    && StrictlyAscending(all)
    && forall row :: row in all <==> row in rows && row.key.poolId == poolId && row.key.interval == interval
  }

  lemma SeriesIsSelection(rows: Table, poolId: string, interval: Interval)
    requires UniqueKeys(rows)
    ensures IsSeries(Series(rows, poolId, interval), rows, poolId, interval)
  {
    SortedSelection(rows, poolId, interval, NoCursor);
  }

  lemma SameIsSeries(all: Table, rows: Table, poolId: string, interval: Interval)
    requires UniqueKeys(rows) && all == Series(rows, poolId, interval)
    ensures IsSeries(all, rows, poolId, interval)
  {
    SeriesIsSelection(rows, poolId, interval);
  }

  /** Over an unchanging table, the client sees every candle of its pool and interval exactly once,
      in strictly ascending order, in max(1, ceil(count / limit)) pages. */
  lemma EveryCandleOnce(rows: Table, poolId: string, interval: Interval, limit: Limit)
    requires UniqueKeys(rows) && ResolveLimit(limit).Ok?
    ensures var n, series := ResolveLimit(limit).value, Series(rows, poolId, interval);
            var pages := PagesFrom(series, 0, n);
            && Concat(pages) == series
            && IsSeries(Concat(pages), rows, poolId, interval)
            && |pages| == if series == [] then 1 else (|series| + n - 1) / n
  {
    var n, series := ResolveLimit(limit).value, Series(rows, poolId, interval);
    PagesOfWhole(series, n);
    SameIsSeries(Concat(PagesFrom(series, 0, n)), rows, poolId, interval);
  }
}
