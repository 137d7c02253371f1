/** The candle processor of apps/api/src/candles/candles.service.ts: candles folded from swaps, or
    for one-hour candles from the five-minute rows already written. Prices and volumes are exact
    numbers; the swaps table is listed in its total order. */
module Candles {
  import IntMath
  import opened OrderedMap
  import opened Sorting
  import opened Wrappers

  datatype Interval = OneMinute | FiveMinutes | OneHour | OneDay

  function IntervalMs(interval: Interval): (ms: int)
    ensures ms > 0
  {
    match interval
    case OneMinute => 60_000
    case FiveMinutes => FIVE
    case OneHour => HOUR
    case OneDay => 86_400_000
  }

  const FIVE := 300_000
  const HOUR := 3_600_000

  /** A start of one of the interval's windows. */
  predicate IsStart(t: int, interval: Interval) {
    match interval
    case OneMinute => t % 60_000 == 0
    case FiveMinutes => t % FIVE == 0
    case OneHour => t % HOUR == 0
    case OneDay => t % 86_400_000 == 0
  }

  datatype GapPolicy = Strict | FillPolicy

  datatype Ohlcv = Ohlcv(open: real, high: real, low: real, close: real, volumeUsd: real)

  datatype Swap = Swap(poolId: string, createdAt: int, price: real, amount0: real)

  datatype Key = Key(poolId: string, interval: Interval, periodStart: int)

  type Table = seq<Entry<Key, Ohlcv>>

  /** One argument list of `accumulate`: a pool and a candle. */
  type Item = Entry<string, Ohlcv>

  datatype Written = Written(count: nat) | GapDetected

  // ----- accumulating ------------------------------------------------------------

  function Max(a: real, b: real): real {
    if a < b then b else a
  }

  function Min(a: real, b: real): real {
    if b < a then b else a
  }

  /** The in-place update of an existing candle. */
  function Extend(existing: Ohlcv, c: Ohlcv): Ohlcv {
    Ohlcv(existing.open, Max(existing.high, c.high), Min(existing.low, c.low), c.close,
          existing.volumeUsd + c.volumeUsd)
  }

  function Accumulate(byPool: seq<Item>, poolId: string, c: Ohlcv): seq<Item> {
    match Get(byPool, poolId)
    case None => Set(byPool, poolId, c)
    case Some(existing) => Set(byPool, poolId, Extend(existing, c))
  }

  function AccumulateAll(items: seq<Item>): seq<Item> {
    if items == [] then []
    else
      var last := items[|items| - 1];
      Accumulate(AccumulateAll(items[..|items| - 1]), last.key, last.value)
  }

  // ----- one pool's candle -------------------------------------------------------

  function Join(a: Option<Ohlcv>, b: Option<Ohlcv>): Option<Ohlcv> {
    if a.None? then b else if b.None? then a else Some(Extend(a.value, b.value))
  }

  /** The candle of pool `p` over a list of items. */
  function CandleOf(items: seq<Item>, p: string): Option<Ohlcv> {
    if items == [] then None
    else
      var last := items[|items| - 1];
      var before := CandleOf(items[..|items| - 1], p);
      if last.key == p then Join(before, Some(last.value)) else before
  }

  lemma JoinAssociative(a: Option<Ohlcv>, b: Option<Ohlcv>, c: Option<Ohlcv>)
    ensures Join(Join(a, b), c) == Join(a, Join(b, c))
  {
  }

  lemma {:induction false} CandleOfConcat(a: seq<Item>, b: seq<Item>, p: string)
    ensures CandleOf(a + b, p) == Join(CandleOf(a, p), CandleOf(b, p))
  {
    if b == [] {
      assert a + b == a;
    } else {
      var n := |b| - 1;
      assert (a + b)[..|a + b| - 1] == a + b[..n];
      CandleOfConcat(a, b[..n], p);
      JoinAssociative(CandleOf(a, p), CandleOf(b[..n], p), Some(b[n].value));
    }
  }

  lemma CandleOfSnoc(items: seq<Item>, last: Item, p: string)
    ensures CandleOf(items + [last], p)
         == if last.key == p then Join(CandleOf(items, p), Some(last.value)) else CandleOf(items, p)
  {
    assert (items + [last])[..|items|] == items;
  }

  /** The shared map holds exactly each pool's own candle. */
  lemma {:induction false} AccumulateAllByPool(items: seq<Item>)
    ensures UniqueKeys(AccumulateAll(items))
    ensures forall p :: Get(AccumulateAll(items), p) == CandleOf(items, p)
  {
    if items != [] {
      var n := |items| - 1;
      var last, before := items[n], AccumulateAll(items[..n]);
      AccumulateAllByPool(items[..n]);
      var c := Join(CandleOf(items[..n], last.key), Some(last.value)).value;
      assert AccumulateAll(items) == Set(before, last.key, c);
      SetKeepsOthers(before, last.key, c);
      forall p ensures Get(AccumulateAll(items), p) == CandleOf(items, p) {
        GetAfterSet(before, last.key, c, p);
      }
    }
  }

  // ----- swaps -------------------------------------------------------------------

  function SwapCandle(s: Swap): Ohlcv {
    Ohlcv(s.price, s.price, s.price, s.price, Abs(s.amount0))
  }

  /** The swaps of a half-open window, in table order, as items. */
  function SwapItems(swaps: seq<Swap>, lo: int, hi: int): seq<Item> {
    if swaps == [] then []
    else
      var last := swaps[|swaps| - 1];
      var before := SwapItems(swaps[..|swaps| - 1], lo, hi);
      if lo <= last.createdAt < hi then before + [Entry(last.poolId, SwapCandle(last))] else before
  }

  ghost predicate Ordered(swaps: seq<Swap>) {
    forall i, j :: 0 <= i < j < |swaps| ==> swaps[i].createdAt <= swaps[j].createdAt
  }

  /** What the swaps of `[lo, hi)` say about pool `p`. */
  function Direct(swaps: seq<Swap>, lo: int, hi: int, p: string): Option<Ohlcv> {
    CandleOf(SwapItems(swaps, lo, hi), p)
  }

  lemma {:induction false} NoneLater(swaps: seq<Swap>, lo: int, hi: int)
    requires forall i :: 0 <= i < |swaps| ==> swaps[i].createdAt < lo
    ensures SwapItems(swaps, lo, hi) == []
  {
    if swaps != [] {
      NoneLater(swaps[..|swaps| - 1], lo, hi);
    }
  }

  lemma {:induction false} WindowSplits(swaps: seq<Swap>, lo: int, mid: int, hi: int)
    requires Ordered(swaps) && lo <= mid <= hi
    ensures SwapItems(swaps, lo, hi) == SwapItems(swaps, lo, mid) + SwapItems(swaps, mid, hi)
  {
    if swaps != [] {
      var before, last := swaps[..|swaps| - 1], swaps[|swaps| - 1];
      WindowSplits(before, lo, mid, hi);
      if last.createdAt < mid {
        NoneLater(before, mid, hi);
      }
    }
  }

  lemma DirectSplits(swaps: seq<Swap>, lo: int, mid: int, hi: int, p: string)
    requires Ordered(swaps) && lo <= mid <= hi
    ensures Direct(swaps, lo, hi, p) == Join(Direct(swaps, lo, mid, p), Direct(swaps, mid, hi, p))
  {
    WindowSplits(swaps, lo, mid, hi);
    CandleOfConcat(SwapItems(swaps, lo, mid), SwapItems(swaps, mid, hi), p);
  }

  /** The swaps of one pool in a window, in order. */
  function PoolSwaps(swaps: seq<Swap>, lo: int, hi: int, p: string): seq<Swap> {
    if swaps == [] then []
    else
      var last := swaps[|swaps| - 1];
      var before := PoolSwaps(swaps[..|swaps| - 1], lo, hi, p);
      if lo <= last.createdAt < hi && last.poolId == p then before + [last] else before
  }

  /** They are the pool's swaps of the half-open window, each once, as the table lists them; `at` gives
      their places. */
  lemma {:induction false} PoolSwapsInOrder(swaps: seq<Swap>, lo: int, hi: int, p: string) returns (at: seq<nat>)
    ensures var own := PoolSwaps(swaps, lo, hi, p);
            && |at| == |own|
            && (forall i :: 0 <= i < |at| ==> at[i] < |swaps| && own[i] == swaps[at[i]])
            && (forall i, k :: 0 <= i < k < |at| ==> at[i] < at[k])
            && (forall k :: 0 <= k < |swaps| ==> (k in at <==> lo <= swaps[k].createdAt < hi && swaps[k].poolId == p))
  {
    at := [];
    if swaps != [] {
      var n := |swaps| - 1;
      at := PoolSwapsInOrder(swaps[..n], lo, hi, p);
      assert forall k :: k in at ==> k < n;
      assert forall k :: k in at + [n] <==> k in at || k == n;
      if lo <= swaps[n].createdAt < hi && swaps[n].poolId == p {
        at := at + [n];
      }
    }
  }

  function TotalVolume(swaps: seq<Swap>): real {
    if swaps == [] then 0.0 else TotalVolume(swaps[..|swaps| - 1]) + Abs(swaps[|swaps| - 1].amount0)
  }

  ghost predicate IsCandleOf(c: Ohlcv, own: seq<Swap>) {
    && own != []
    && c.open == own[0].price && c.close == own[|own| - 1].price
    && (forall i :: 0 <= i < |own| ==> c.low <= own[i].price <= c.high)
    && (exists i :: 0 <= i < |own| && own[i].price == c.high)
    && (exists i :: 0 <= i < |own| && own[i].price == c.low)
    && c.volumeUsd == TotalVolume(own)
  }

  lemma IsCandleOfSnoc(c: Ohlcv, own: seq<Swap>, s: Swap)
    requires own != [] ==> IsCandleOf(c, own)
    ensures IsCandleOf(if own == [] then SwapCandle(s) else Extend(c, SwapCandle(s)), own + [s])
  {
    var all := own + [s];
    assert all[|own|] == s && all[..|own|] == own;
    if own != [] {
      var h :| 0 <= h < |own| && own[h].price == c.high;
      var l :| 0 <= l < |own| && own[l].price == c.low;
      assert all[h] == own[h] && all[l] == own[l];
      assert forall i :: 0 <= i < |own| ==> all[i] == own[i];
    }
  }

  ghost predicate Summarises(c: Option<Ohlcv>, own: seq<Swap>) {
    (c.Some? <==> own != []) && (c.Some? ==> IsCandleOf(c.value, own))
  }

  lemma SummariseOneMore(c: Option<Ohlcv>, own: seq<Swap>, s: Swap)
    requires Summarises(c, own)
    ensures Summarises(Join(c, Some(SwapCandle(s))), own + [s])
  {
    IsCandleOfSnoc(if c.Some? then c.value else SwapCandle(s), own, s);
  }

  /** A pool's candle opens at its first swap, closes at its last, spans its prices tightly and
      sums its volume; a pool without swaps in the window has none. */
  lemma {:induction false} DirectSummarisesSwaps(swaps: seq<Swap>, lo: int, hi: int, p: string)
    ensures Summarises(Direct(swaps, lo, hi, p), PoolSwaps(swaps, lo, hi, p))
  {
    if swaps != [] {
      var before, last := swaps[..|swaps| - 1], swaps[|swaps| - 1];
      DirectSummarisesSwaps(before, lo, hi, p);
      if lo <= last.createdAt < hi {
        CandleOfSnoc(SwapItems(before, lo, hi), Entry(last.poolId, SwapCandle(last)), p);
        if last.poolId == p {
          SummariseOneMore(Direct(before, lo, hi, p), PoolSwaps(before, lo, hi, p), last);
        }
      }
    }
  }

  // ----- one-hour candles from five-minute rows ----------------------------------

  function Matches(row: Entry<Key, Ohlcv>, interval: Interval, lo: int, hi: int): bool {
    row.key.interval == interval && lo <= row.key.periodStart < hi
  }

  function FilterRows(rows: Table, interval: Interval, lo: int, hi: int): Table {
    if rows == [] then []
    else
      var last := rows[|rows| - 1];
      FilterRows(rows[..|rows| - 1], interval, lo, hi) + (if Matches(last, interval, lo, hi) then [last] else [])
  }

  /** `priceCandle.findMany` for one interval and window, ordered by period start. */
  function FindBuckets(rows: Table, interval: Interval, lo: int, hi: int): Table {
    Sort(FilterRows(rows, interval, lo, hi), (row: Entry<Key, Ohlcv>) => row.key.periodStart)
  }

  function BucketItem(b: Entry<Key, Ohlcv>): Item {
    Entry(b.key.poolId, b.value)
  }

  function BucketItems(buckets: Table): seq<Item> {
    seq(|buckets|, i requires 0 <= i < |buckets| => BucketItem(buckets[i]))
  }

  ghost predicate ByStart(buckets: Table) {
    forall i, j :: 0 <= i < j < |buckets| ==> buckets[i].key.periodStart <= buckets[j].key.periodStart
  }

  /** Buckets of one interval whose starts lie on the five-minute grid of `base`. */
  ghost predicate OnGrid(buckets: Table, base: int) {
    forall b :: b in buckets ==> b.key.interval == FiveMinutes && (b.key.periodStart - base) % FIVE == 0
  }

  /** The buckets starting before `t`, as items. */
  function ItemsBefore(buckets: Table, t: int): seq<Item> {
    if buckets == [] then []
    else
      var last := buckets[|buckets| - 1];
      ItemsBefore(buckets[..|buckets| - 1], t) + (if last.key.periodStart < t then [BucketItem(last)] else [])
  }

  lemma {:induction false} GetSnoc(m: Table, e: Entry<Key, Ohlcv>, k: Key)
    ensures Get(m + [e], k) == if Get(m, k).Some? then Get(m, k) else if e.key == k then Some(e.value) else None
  {
    if m != [] {
      assert (m + [e])[1..] == m[1..] + [e];
      GetSnoc(m[1..], e, k);
    }
  }

  lemma {:induction false} NothingAt(buckets: Table, k: Key)
    requires forall b :: b in buckets ==> b.key != k
    ensures Get(buckets, k) == None
  {
    if buckets != [] {
      assert buckets == [buckets[0]] + buckets[1..];
      NothingAt(buckets[1..], k);
    }
  }

  lemma GridNeighbours(a: int, t: int, base: int)
    requires (a - base) % FIVE == 0 && (t - base) % FIVE == 0 && t <= a < t + FIVE
    ensures a == t
  {
  }

  lemma LastAtOrBefore(before: Table, last: Entry<Key, Ohlcv>, k: Key)
    requires ByStart(before + [last]) && UniqueKeys(before + [last])
    requires last.key.periodStart < k.periodStart || last.key == k
    ensures Get(before, k) == None
  {
    var all := before + [last];
    forall b | b in before ensures b.key != k {
      var i :| 0 <= i < |before| && before[i] == b;
      assert all[i] == b && all[|before|] == last;
    }
    NothingAt(before, k);
  }

  /** Moving the bound from `t` over one grid point adds at most the pool's bucket at `t`. */
  ghost predicate BoundMoves(buckets: Table, t: int, p: string) {
    CandleOf(ItemsBefore(buckets, t + FIVE), p)
      == Join(CandleOf(ItemsBefore(buckets, t), p), Get(buckets, Key(p, FiveMinutes, t)))
  }

  lemma SplitLast(buckets: Table, base: int)
    requires buckets != [] && ByStart(buckets) && UniqueKeys(buckets) && OnGrid(buckets, base)
    ensures var before, last := buckets[..|buckets| - 1], buckets[|buckets| - 1];
            && buckets == before + [last]
            && ByStart(before) && UniqueKeys(before) && OnGrid(before, base)
            && last.key.interval == FiveMinutes && (last.key.periodStart - base) % FIVE == 0
  {
    var n := |buckets| - 1;
    assert buckets[n] in buckets;
    forall b | b in buckets[..n] ensures b in buckets {
    }
  }

  lemma ItemsBeforeSnoc(before: Table, last: Entry<Key, Ohlcv>, t: int)
    ensures ItemsBefore(before + [last], t)
         == if last.key.periodStart < t then ItemsBefore(before, t) + [BucketItem(last)] else ItemsBefore(before, t)
  {
    assert (before + [last])[..|before|] == before;
  }

  lemma AppendEarlierBucket(before: Table, last: Entry<Key, Ohlcv>, t: int, p: string)
    requires ByStart(before + [last]) && UniqueKeys(before + [last]) && BoundMoves(before, t, p)
    requires last.key.periodStart < t
    ensures BoundMoves(before + [last], t, p)
  {
    LastAtOrBefore(before, last, Key(p, FiveMinutes, t));
    GetSnoc(before, last, Key(p, FiveMinutes, t));
    ItemsBeforeSnoc(before, last, t);
    ItemsBeforeSnoc(before, last, t + FIVE);
    CandleOfSnoc(ItemsBefore(before, t), BucketItem(last), p);
    CandleOfSnoc(ItemsBefore(before, t + FIVE), BucketItem(last), p);
  }

  lemma AppendCurrentBucket(before: Table, last: Entry<Key, Ohlcv>, t: int, p: string)
    requires ByStart(before + [last]) && UniqueKeys(before + [last]) && BoundMoves(before, t, p)
    requires last.key.interval == FiveMinutes && last.key.periodStart == t
    ensures BoundMoves(before + [last], t, p)
  {
    if last.key.poolId == p {
      LastAtOrBefore(before, last, Key(p, FiveMinutes, t));
    }
    GetSnoc(before, last, Key(p, FiveMinutes, t));
    ItemsBeforeSnoc(before, last, t);
    ItemsBeforeSnoc(before, last, t + FIVE);
    CandleOfSnoc(ItemsBefore(before, t + FIVE), BucketItem(last), p);
  }

  lemma AppendBucket(before: Table, last: Entry<Key, Ohlcv>, base: int, t: int, p: string)
    requires ByStart(before + [last]) && UniqueKeys(before + [last])
    requires last.key.interval == FiveMinutes && (last.key.periodStart - base) % FIVE == 0 && (t - base) % FIVE == 0
    requires BoundMoves(before, t, p)
    ensures BoundMoves(before + [last], t, p)
  {
    if last.key.periodStart < t {
      AppendEarlierBucket(before, last, t, p);
    } else if last.key.periodStart < t + FIVE {
      GridNeighbours(last.key.periodStart, t, base);
      AppendCurrentBucket(before, last, t, p);
    } else {
      GetSnoc(before, last, Key(p, FiveMinutes, t));
      ItemsBeforeSnoc(before, last, t);
      ItemsBeforeSnoc(before, last, t + FIVE);
    }
  }

  lemma {:induction false} ItemsBeforeStep(buckets: Table, base: int, t: int, p: string)
    requires ByStart(buckets) && UniqueKeys(buckets) && OnGrid(buckets, base) && (t - base) % FIVE == 0
    ensures BoundMoves(buckets, t, p)
  {
    if buckets != [] {
      var before, last := buckets[..|buckets| - 1], buckets[|buckets| - 1];
      SplitLast(buckets, base);
      ItemsBeforeStep(before, base, t, p);
      AppendBucket(before, last, base, t, p);
    }
  }

  /** The five-minute rows of an hour are exactly the candles of its twelve windows. */
  ghost predicate FiveMinuteRowsComplete(rows: Table, swaps: seq<Swap>, h: int) {
    forall p: string, t: int :: h <= t < h + HOUR ==>
      Get(rows, Key(p, FiveMinutes, t)) == if (t - h) % FIVE == 0 then Direct(swaps, t, t + FIVE, p) else None
  }

  /** The buckets answered for an hour: those rows, each once, ascending by start. */
  ghost predicate AnswersHour(buckets: Table, rows: Table, h: int) {
    && ByStart(buckets) && UniqueKeys(buckets)
    && forall b :: b in buckets <==> b in rows && Matches(b, FiveMinutes, h, h + HOUR)
  }

  lemma WindowStart(h: int, k: nat)
    requires k < 12
    ensures (h + k * FIVE - h) % FIVE == 0 && h <= h + k * FIVE < h + HOUR
  {
  }

  lemma {:induction false} EmptyWindow(swaps: seq<Swap>, h: int)
    ensures SwapItems(swaps, h, h) == []
  {
    if swaps != [] {
      EmptyWindow(swaps[..|swaps| - 1], h);
    }
  }

  lemma {:induction false} NoneBefore(buckets: Table, h: int)
    requires forall b :: b in buckets ==> h <= b.key.periodStart
    ensures ItemsBefore(buckets, h) == []
  {
    if buckets != [] {
      assert buckets[|buckets| - 1] in buckets;
      NoneBefore(buckets[..|buckets| - 1], h);
    }
  }

  /** The rows before `t` and the swaps before `t` fold to the same candle. */
  ghost predicate AgreeUpTo(buckets: Table, swaps: seq<Swap>, h: int, t: int, p: string) {
    CandleOf(ItemsBefore(buckets, t), p) == Direct(swaps, h, t, p)
  }

  lemma HourStart(buckets: Table, rows: Table, swaps: seq<Swap>, h: int, p: string)
    requires AnswersHour(buckets, rows, h)
    ensures AgreeUpTo(buckets, swaps, h, h, p)
  {
    EmptyWindow(swaps, h);
    NoneBefore(buckets, h);
  }

  lemma SameRow(buckets: Table, rows: Table, h: int, k: Key)
    requires AnswersHour(buckets, rows, h) && UniqueKeys(rows)
    requires k.interval == FiveMinutes && h <= k.periodStart < h + HOUR
    ensures Get(buckets, k) == Get(rows, k)
  {
    GetIffPresent(buckets, k);
    GetIffPresent(rows, k);
    assert Get(rows, k).Some? ==> Entry(k, Get(rows, k).value) in buckets;
    assert Get(buckets, k).Some? ==> Entry(k, Get(buckets, k).value) in rows;
  }

  lemma WindowRow(buckets: Table, rows: Table, swaps: seq<Swap>, h: int, t: int, p: string)
    requires AnswersHour(buckets, rows, h) && UniqueKeys(rows) && FiveMinuteRowsComplete(rows, swaps, h)
    requires h <= t < h + HOUR && (t - h) % FIVE == 0
    ensures Get(buckets, Key(p, FiveMinutes, t)) == Direct(swaps, t, t + FIVE, p)
  {
    SameRow(buckets, rows, h, Key(p, FiveMinutes, t));
  }

  /** One more window adds the same to both. */
  lemma HourStep(buckets: Table, rows: Table, swaps: seq<Swap>, h: int, t: int, p: string)
    requires AnswersHour(buckets, rows, h) && OnGrid(buckets, h) && UniqueKeys(rows)
    requires Ordered(swaps) && FiveMinuteRowsComplete(rows, swaps, h)
    requires h <= t < h + HOUR && (t - h) % FIVE == 0
    requires AgreeUpTo(buckets, swaps, h, t, p)
    ensures AgreeUpTo(buckets, swaps, h, t + FIVE, p)
  {
    WindowRow(buckets, rows, swaps, h, t, p);
    ItemsBeforeStep(buckets, h, t, p);
    DirectSplits(swaps, h, t, t + FIVE, p);
  }

  lemma {:induction false} HourByWindows(buckets: Table, rows: Table, swaps: seq<Swap>, h: int, k: nat, p: string)
    requires AnswersHour(buckets, rows, h) && OnGrid(buckets, h) && UniqueKeys(rows)
    requires Ordered(swaps) && FiveMinuteRowsComplete(rows, swaps, h)
    requires k <= 12
    ensures AgreeUpTo(buckets, swaps, h, h + k * FIVE, p)
  {
    if k == 0 {
      HourStart(buckets, rows, swaps, h, p);
    } else {
      HourByWindows(buckets, rows, swaps, h, k - 1, p);
      WindowStart(h, k - 1);
      var t := h + (k - 1) * FIVE;
      HourStep(buckets, rows, swaps, h, t, p);
      assert t + FIVE == h + k * FIVE;
    }
  }

  lemma {:induction false} AllBefore(buckets: Table, t: int)
    requires forall b :: b in buckets ==> b.key.periodStart < t
    ensures ItemsBefore(buckets, t) == BucketItems(buckets)
  {
    if buckets != [] {
      assert buckets[|buckets| - 1] in buckets;
      AllBefore(buckets[..|buckets| - 1], t);
    }
  }

  /** For every swap history and pool, folding the five-minute rows of an hour gives the candle
      folded straight from the hour's swaps, windows without a swap included. */
  lemma HourFromFiveMinutes(buckets: Table, rows: Table, swaps: seq<Swap>, h: int, p: string)
    requires AnswersHour(buckets, rows, h) && UniqueKeys(rows)
    requires Ordered(swaps) && FiveMinuteRowsComplete(rows, swaps, h)
    ensures Get(AccumulateAll(BucketItems(buckets)), p) == Direct(swaps, h, h + HOUR, p)
  {
    forall b | b in buckets ensures b.key.interval == FiveMinutes && (b.key.periodStart - h) % FIVE == 0 {
      GetIffPresent(rows, b.key);
      assert b == Entry(b.key, b.value);
      assert b.key == Key(b.key.poolId, FiveMinutes, b.key.periodStart);
    }
    HourByWindows(buckets, rows, swaps, h, 12, p);
    AllBefore(buckets, h + HOUR);
    AccumulateAllByPool(BucketItems(buckets));
  }

  // ----- the query answers -------------------------------------------------------

  lemma {:induction false} FilterRowsMembers(rows: Table, interval: Interval, lo: int, hi: int)
    requires UniqueKeys(rows)
    ensures UniqueKeys(FilterRows(rows, interval, lo, hi))
    ensures forall b :: b in FilterRows(rows, interval, lo, hi) <==> b in rows && Matches(b, interval, lo, hi)
  {
    if rows != [] {
      var before, last := rows[..|rows| - 1], rows[|rows| - 1];
      FilterRowsMembers(before, interval, lo, hi);
      assert rows == before + [last];
      var f := FilterRows(before, interval, lo, hi);
      forall i | 0 <= i < |f| ensures f[i].key != last.key {
        assert f[i] in f;
        var j :| 0 <= j < |before| && before[j] == f[i];
        assert rows[j].key != rows[|rows| - 1].key;
      }
    }
  }

  lemma UniqueKeysPermute(xs: Table, ys: Table)
    requires multiset(xs) == multiset(ys) && UniqueKeys(xs)
    ensures UniqueKeys(ys)
  {
    var key := (e: Entry<Key, Ohlcv>) => e.key;
    assert DistinctKeys(xs, key);
    DistinctKeysPermute(xs, ys, key);
    forall i, j | 0 <= i < j < |ys| ensures ys[i].key != ys[j].key {
      assert key(ys[i]) != key(ys[j]);
    }
  }

  lemma FindBucketsSorts(rows: Table, interval: Interval, lo: int, hi: int)
    ensures ByStart(FindBuckets(rows, interval, lo, hi))
    ensures multiset(FindBuckets(rows, interval, lo, hi)) == multiset(FilterRows(rows, interval, lo, hi))
  {
    var key := (row: Entry<Key, Ohlcv>) => row.key.periodStart;
    var f, buckets := FilterRows(rows, interval, lo, hi), FindBuckets(rows, interval, lo, hi);
    assert buckets == Sort(f, key);
    SortIsStableSort(f, key);
    forall i, j | 0 <= i < j < |buckets| ensures buckets[i].key.periodStart <= buckets[j].key.periodStart {
      assert key(buckets[i]) <= key(buckets[j]);
    }
  }

  lemma SameMembers(xs: Table, ys: Table)
    requires multiset(xs) == multiset(ys)
    ensures forall b :: b in xs <==> b in ys
  {
    assert forall b :: b in xs <==> b in multiset(xs);
    assert forall b :: b in ys <==> b in multiset(ys);
  }

  lemma FindBucketsAnswersHour(rows: Table, h: int)
    requires UniqueKeys(rows)
    ensures AnswersHour(FindBuckets(rows, FiveMinutes, h, h + HOUR), rows, h)
  {
    var f := FilterRows(rows, FiveMinutes, h, h + HOUR);
    FilterRowsMembers(rows, FiveMinutes, h, h + HOUR);
    FindBucketsSorts(rows, FiveMinutes, h, h + HOUR);
    UniqueKeysPermute(f, FindBuckets(rows, FiveMinutes, h, h + HOUR));
    SameMembers(f, FindBuckets(rows, FiveMinutes, h, h + HOUR));
  }

  // ----- writing -----------------------------------------------------------------

  /** The candles of one period, per pool. */
  function ByPool(rows: Table, swaps: seq<Swap>, interval: Interval, periodStart: int): seq<Item> {
    AccumulateAll(if interval == OneHour then BucketItems(FindBuckets(rows, FiveMinutes, periodStart, periodStart + HOUR))
                  else SwapItems(swaps, periodStart, periodStart + IntervalMs(interval)))
  }

  function UpsertAll(rows: Table, interval: Interval, periodStart: int, byPool: seq<Item>): Table {
    if byPool == [] then rows
    else
      var last := byPool[|byPool| - 1];
      Set(UpsertAll(rows, interval, periodStart, byPool[..|byPool| - 1]), Key(last.key, interval, periodStart), last.value)
  }

  lemma {:induction false} ItemSnoc(m: seq<Item>, e: Item, p: string)
    requires UniqueKeys(m + [e])
    ensures Get(m + [e], p) == if e.key == p then Some(e.value) else Get(m, p)
  {
    if m != [] {
      assert (m + [e])[1..] == m[1..] + [e];
      assert m[0].key != e.key by {
        assert (m + [e])[0] == m[0] && (m + [e])[|m|] == e;
      }
      ItemSnoc(m[1..], e, p);
    }
  }

  lemma {:induction false} UpsertAllRows(rows: Table, interval: Interval, periodStart: int, byPool: seq<Item>, k: Key)
    requires UniqueKeys(rows) && UniqueKeys(byPool)
    ensures UniqueKeys(UpsertAll(rows, interval, periodStart, byPool))
    ensures Get(UpsertAll(rows, interval, periodStart, byPool), k)
         == if k.interval == interval && k.periodStart == periodStart && Get(byPool, k.poolId).Some?
            then Get(byPool, k.poolId) else Get(rows, k)
  {
    if byPool != [] {
      var before, last := byPool[..|byPool| - 1], byPool[|byPool| - 1];
      var key, sofar := Key(last.key, interval, periodStart), UpsertAll(rows, interval, periodStart, before);
      UpsertAllRows(rows, interval, periodStart, before, k);
      SetKeepsOthers(sofar, key, last.value);
      GetAfterSet(sofar, key, last.value, k);
      assert byPool == before + [last];
      ItemSnoc(before, last, k.poolId);
    }
  }

  // ----- what the table should hold ----------------------------------------------

  /** Every row is the candle of its own grid window. */
  ghost predicate Sound(rows: Table, swaps: seq<Swap>) {
    forall k: Key :: Get(rows, k).Some? ==>
      && IsStart(k.periodStart, k.interval)
      && Get(rows, k) == Direct(swaps, k.periodStart, k.periodStart + IntervalMs(k.interval), k.poolId)
  }

  /** One window of one interval is fully written. */
  ghost predicate WindowDone(rows: Table, swaps: seq<Swap>, interval: Interval, t: int) {
    forall p: string :: Get(rows, Key(p, interval, t)) == Direct(swaps, t, t + IntervalMs(interval), p)
  }

  /** Every window before `to` is fully written. */
  ghost predicate DoneBefore(rows: Table, swaps: seq<Swap>, interval: Interval, to: int) {
    forall t: int :: t < to && IsStart(t, interval) ==> WindowDone(rows, swaps, interval, t)
  }

  /** No window that was fully written has been spoilt. */
  ghost predicate KeepsDone(rows: Table, after: Table, swaps: seq<Swap>) {
    forall i, t :: WindowDone(rows, swaps, i, t) ==> WindowDone(after, swaps, i, t)
  }

  lemma KeepsDoneTransitive(a: Table, b: Table, c: Table, swaps: seq<Swap>)
    requires KeepsDone(a, b, swaps) && KeepsDone(b, c, swaps)
    ensures KeepsDone(a, c, swaps)
  {
  }

  /** Outside the interval's windows before `to` the rows are the same. */
  ghost predicate OnlyBefore(rows: Table, after: Table, interval: Interval, to: int) {
    forall k: Key :: k.interval != interval || k.periodStart >= to ==> Get(after, k) == Get(rows, k)
  }

  lemma OnlyBeforeTransitive(a: Table, b: Table, c: Table, interval: Interval, mid: int, to: int)
    requires OnlyBefore(a, b, interval, to) && OnlyBefore(b, c, interval, mid) && mid <= to
    ensures OnlyBefore(a, c, interval, to)
  {
  }

  /** Only windows of the interval before `to` have changed, and none that was done. */
  ghost predicate FilledOnly(rows: Table, after: Table, swaps: seq<Swap>, interval: Interval, to: int) {
    KeepsDone(rows, after, swaps) && OnlyBefore(rows, after, interval, to)
  }

  lemma FilledOnlyExtends(a: Table, b: Table, c: Table, swaps: seq<Swap>, interval: Interval, mid: int, to: int)
    requires FilledOnly(a, b, swaps, interval, to) && FilledOnly(b, c, swaps, interval, mid) && mid <= to
    ensures FilledOnly(a, c, swaps, interval, to)
  {
    KeepsDoneTransitive(a, b, c, swaps);
    OnlyBeforeTransitive(a, b, c, interval, mid, to);
  }

  lemma GridOfHour(h: int, t: int)
    requires h % HOUR == 0
    ensures (t - h) % FIVE == 0 <==> t % FIVE == 0
  {
  }

  lemma RowInHour(rows: Table, swaps: seq<Swap>, h: int, p: string, t: int)
    requires Sound(rows, swaps) && h % HOUR == 0 && DoneBefore(rows, swaps, FiveMinutes, h + HOUR) && t < h + HOUR
    ensures Get(rows, Key(p, FiveMinutes, t)) == if (t - h) % FIVE == 0 then Direct(swaps, t, t + FIVE, p) else None
  {
    GridOfHour(h, t);
    if t % FIVE == 0 {
      assert WindowDone(rows, swaps, FiveMinutes, t);
    }
  }

  lemma HourRowsComplete(rows: Table, swaps: seq<Swap>, h: int)
    requires Sound(rows, swaps) && h % HOUR == 0 && DoneBefore(rows, swaps, FiveMinutes, h + HOUR)
    ensures FiveMinuteRowsComplete(rows, swaps, h)
  {
    forall p: string, t: int | h <= t < h + HOUR
      ensures Get(rows, Key(p, FiveMinutes, t)) == if (t - h) % FIVE == 0 then Direct(swaps, t, t + FIVE, p) else None
    {
      RowInHour(rows, swaps, h, p, t);
    }
  }

  /** `after` differs from `rows` in one window only, which now holds its direct candles. */
  ghost predicate OneWindowChanged(rows: Table, after: Table, swaps: seq<Swap>, interval: Interval, periodStart: int) {
    forall k: Key :: Get(after, k) ==
      if k.interval == interval && k.periodStart == periodStart
      then Direct(swaps, periodStart, periodStart + IntervalMs(interval), k.poolId) else Get(rows, k)
  }

  lemma UpsertChangesOneWindow(rows: Table, byPool: seq<Item>, swaps: seq<Swap>, interval: Interval, periodStart: int)
    requires UniqueKeys(rows) && Sound(rows, swaps) && UniqueKeys(byPool)
    requires forall p :: Get(byPool, p) == Direct(swaps, periodStart, periodStart + IntervalMs(interval), p)
    ensures var after := UpsertAll(rows, interval, periodStart, byPool);
            UniqueKeys(after) && OneWindowChanged(rows, after, swaps, interval, periodStart)
  {
    forall k: Key ensures Get(UpsertAll(rows, interval, periodStart, byPool), k) ==
      if k.interval == interval && k.periodStart == periodStart
      then Direct(swaps, periodStart, periodStart + IntervalMs(interval), k.poolId) else Get(rows, k)
    {
      UpsertAllRows(rows, interval, periodStart, byPool, k);
    }
    UpsertAllRows(rows, interval, periodStart, byPool, Key("", interval, periodStart));
  }

  lemma PeriodCandles(rows: Table, swaps: seq<Swap>, interval: Interval, periodStart: int)
    requires UniqueKeys(rows) && Ordered(swaps) && Sound(rows, swaps) && IsStart(periodStart, interval)
    requires interval == OneHour ==> DoneBefore(rows, swaps, FiveMinutes, periodStart + HOUR)
    ensures var byPool := ByPool(rows, swaps, interval, periodStart);
            && UniqueKeys(byPool)
            && forall p :: Get(byPool, p) == Direct(swaps, periodStart, periodStart + IntervalMs(interval), p)
  {
    if interval == OneHour {
      var buckets := FindBuckets(rows, FiveMinutes, periodStart, periodStart + HOUR);
      HourRowsComplete(rows, swaps, periodStart);
      FindBucketsAnswersHour(rows, periodStart);
      AccumulateAllByPool(BucketItems(buckets));
      forall p ensures Get(AccumulateAll(BucketItems(buckets)), p) == Direct(swaps, periodStart, periodStart + HOUR, p) {
        HourFromFiveMinutes(buckets, rows, swaps, periodStart, p);
      }
    } else {
      AccumulateAllByPool(SwapItems(swaps, periodStart, periodStart + IntervalMs(interval)));
    }
  }

  lemma PeriodChangesOneWindow(rows: Table, swaps: seq<Swap>, interval: Interval, periodStart: int)
    requires UniqueKeys(rows) && Ordered(swaps) && Sound(rows, swaps) && IsStart(periodStart, interval)
    requires interval == OneHour ==> DoneBefore(rows, swaps, FiveMinutes, periodStart + HOUR)
    ensures var after := UpsertAll(rows, interval, periodStart, ByPool(rows, swaps, interval, periodStart));
            UniqueKeys(after) && OneWindowChanged(rows, after, swaps, interval, periodStart)
  {
    PeriodCandles(rows, swaps, interval, periodStart);
    UpsertChangesOneWindow(rows, ByPool(rows, swaps, interval, periodStart), swaps, interval, periodStart);
  }

  /** Writing one window leaves it done and disturbs nothing that was right. */
  lemma ChangeKeepsSound(rows: Table, after: Table, swaps: seq<Swap>, interval: Interval, periodStart: int)
    requires Sound(rows, swaps) && IsStart(periodStart, interval)
    requires OneWindowChanged(rows, after, swaps, interval, periodStart)
    ensures Sound(after, swaps) && WindowDone(after, swaps, interval, periodStart)
    ensures KeepsDone(rows, after, swaps)
  {
    forall i, t | WindowDone(rows, swaps, i, t) ensures WindowDone(after, swaps, i, t) {
      forall p: string ensures Get(after, Key(p, i, t)) == Direct(swaps, t, t + IntervalMs(i), p) {
        assert Get(rows, Key(p, i, t)) == Direct(swaps, t, t + IntervalMs(i), p);
      }
    }
  }

  // ----- the gap check -----------------------------------------------------------

  /** Some five-minute start of the window has no row at all, of any pool. */
  ghost predicate MissingStart(starts: seq<int>, lo: int, hi: int) {
    exists t :: lo <= t < hi && (t - lo) % FIVE == 0 && t !in starts
  }

  method AssertNoGap(presentStarts: seq<int>, windowStart: int, windowEnd: int, gapPolicy: GapPolicy) returns (gap: bool)
    ensures gap <==> gapPolicy == Strict && MissingStart(presentStarts, windowStart, windowEnd)
  {
    if gapPolicy == FillPolicy { return false; }
    var t := windowStart;
    while t < windowEnd
      invariant windowStart <= t && (t - windowStart) % FIVE == 0
      invariant forall u :: windowStart <= u < t && (u - windowStart) % FIVE == 0 ==> u in presentStarts
      decreases windowEnd - t
    {
      if t !in presentStarts { return true; }
      forall u | windowStart <= u < t + FIVE && (u - windowStart) % FIVE == 0 ensures u in presentStarts {
        if u >= t {
          GridNeighbours(u, t, windowStart);
        }
      }
      t := t + FIVE;
    }
    return false;
  }

  function Starts(buckets: Table): seq<int> {
    seq(|buckets|, i requires 0 <= i < |buckets| => buckets[i].key.periodStart)
  }

  ghost predicate NoSwapIn(swaps: seq<Swap>, lo: int, hi: int) {
    forall s :: s in swaps ==> !(lo <= s.createdAt < hi)
  }

  lemma {:induction false} NoSwapNoCandle(swaps: seq<Swap>, lo: int, hi: int)
    ensures NoSwapIn(swaps, lo, hi) <==> SwapItems(swaps, lo, hi) == []
  {
    if swaps != [] {
      NoSwapNoCandle(swaps[..|swaps| - 1], lo, hi);
      assert swaps == swaps[..|swaps| - 1] + [swaps[|swaps| - 1]];
    }
  }

  lemma SomeCandleIffSwaps(swaps: seq<Swap>, lo: int, hi: int)
    ensures (exists p :: Direct(swaps, lo, hi, p).Some?) <==> !NoSwapIn(swaps, lo, hi)
  {
    NoSwapNoCandle(swaps, lo, hi);
    var items := SwapItems(swaps, lo, hi);
    if items != [] {
      assert Direct(swaps, lo, hi, items[|items| - 1].key).Some?;
    } else {
      assert forall p :: Direct(swaps, lo, hi, p) == None;
    }
  }

  lemma StartPresentIff(rows: Table, swaps: seq<Swap>, h: int, t: int)
    requires UniqueKeys(rows) && FiveMinuteRowsComplete(rows, swaps, h)
    requires h <= t < h + HOUR && (t - h) % FIVE == 0
    ensures t in Starts(FindBuckets(rows, FiveMinutes, h, h + HOUR)) <==> !NoSwapIn(swaps, t, t + FIVE)
  {
    var buckets := FindBuckets(rows, FiveMinutes, h, h + HOUR);
    FindBucketsAnswersHour(rows, h);
    SomeCandleIffSwaps(swaps, t, t + FIVE);
    if t in Starts(buckets) {
      var i :| 0 <= i < |buckets| && buckets[i].key.periodStart == t;
      var k := buckets[i].key;
      assert buckets[i] in buckets && k == Key(k.poolId, FiveMinutes, t);
      GetIffPresent(rows, k);
      assert buckets[i] == Entry(k, buckets[i].value);
      assert Direct(swaps, t, t + FIVE, k.poolId).Some?;
    }
    var end := t + FIVE;
    if p: string :| Direct(swaps, t, end, p).Some? {
      var k := Key(p, FiveMinutes, t);
      assert Get(rows, k).Some?;
      GetIffPresent(rows, k);
      var row := Entry(k, Get(rows, k).value);
      assert row in buckets;
      var i :| 0 <= i < |buckets| && buckets[i] == row;
      assert Starts(buckets)[i] == t;
    }
  }

  /** A five-minute window of the hour in which no pool traded. */
  ghost predicate QuietWindow(swaps: seq<Swap>, h: int, t: int) {
    h <= t < h + HOUR && (t - h) % FIVE == 0 && NoSwapIn(swaps, t, t + FIVE)
  }

  ghost predicate QuietAt(swaps: seq<Swap>, from: int, to: int, t: int) {
    from <= t < to && t % FIVE == 0 && NoSwapIn(swaps, t, t + FIVE)
  }

  /** Some five-minute window of the stretch saw no swap. */
  ghost predicate QuietIn(swaps: seq<Swap>, from: int, to: int) {
    exists t :: QuietAt(swaps, from, to, t)
  }

  lemma QuietInSplits(swaps: seq<Swap>, from: int, mid: int, mid': int, to: int)
    requires from <= mid <= mid' <= to
    ensures QuietIn(swaps, from, mid') <==> QuietIn(swaps, from, mid) || QuietIn(swaps, mid, mid')
    ensures QuietIn(swaps, from, mid') ==> QuietIn(swaps, from, to)
  {
    if t :| QuietAt(swaps, from, mid', t) {
      assert QuietAt(swaps, from, to, t);
      assert QuietAt(swaps, from, mid, t) || QuietAt(swaps, mid, mid', t);
    }
    if t :| QuietAt(swaps, from, mid, t) {
      assert QuietAt(swaps, from, mid', t);
    }
    if t :| QuietAt(swaps, mid, mid', t) {
      assert QuietAt(swaps, from, mid', t);
    }
  }

  /** A strict run over the hours of a stretch meets a window without a swap. */
  ghost predicate Refuses(interval: Interval, gapPolicy: GapPolicy, swaps: seq<Swap>, from: int, to: int) {
    interval == OneHour && gapPolicy == Strict && QuietIn(swaps, from, to)
  }

  lemma RefusesSplits(interval: Interval, gapPolicy: GapPolicy, swaps: seq<Swap>, from: int, mid: int, mid': int, to: int)
    requires from <= mid <= mid' <= to
    ensures Refuses(interval, gapPolicy, swaps, from, mid')
            <==> Refuses(interval, gapPolicy, swaps, from, mid) || Refuses(interval, gapPolicy, swaps, mid, mid')
    ensures Refuses(interval, gapPolicy, swaps, from, mid') ==> Refuses(interval, gapPolicy, swaps, from, to)
  {
    QuietInSplits(swaps, from, mid, mid', to);
  }

  /** The windows nest: sixty seconds a minute, five minutes, twelve of those an hour, a day. */
  lemma IntervalsNest()
    ensures IntervalMs(OneMinute) == 60 * 1000 && IntervalMs(FiveMinutes) == 5 * IntervalMs(OneMinute)
    ensures IntervalMs(OneHour) == 12 * IntervalMs(FiveMinutes) && IntervalMs(OneDay) == 24 * IntervalMs(OneHour)
  {
  }

  lemma StartIff(t: int, interval: Interval)
    ensures IsStart(t, interval) <==> t / IntervalMs(interval) * IntervalMs(interval) == t
  {
    match interval
    case OneMinute =>
    case FiveMinutes =>
    case OneHour =>
    case OneDay =>
  }

  lemma FloorToGrid(x: int, interval: Interval)
    ensures var ms := IntervalMs(interval); IsStart(x / ms * ms, interval) && x / ms * ms <= x < x / ms * ms + ms
  {
    var ms := IntervalMs(interval);
    IntMath.DivExact(x / ms, ms);
    StartIff(x / ms * ms, interval);
    IntMath.DivIff(x, ms, x / ms);
    IntMath.DivIff(x, ms, x / ms + 1);
  }

  /** `Math.floor(time / ms) * ms`. */
  function PeriodOf(time: int, interval: Interval): (start: int)
    ensures IsStart(start, interval) && start <= time < start + IntervalMs(interval)
  {
    FloorToGrid(time, interval);
    time / IntervalMs(interval) * IntervalMs(interval)
  }

  /** Some five-minute window between the first swap's hour and `to` saw no swap. */
  ghost predicate QuietHours(swaps: seq<Swap>, to: int) {
    swaps != [] && QuietIn(swaps, PeriodOf(swaps[0].createdAt, OneHour), to)
  }

  /** Under the strict policy a complete hour is refused exactly when one of its five-minute
      windows saw no swap in any pool. */
  lemma StrictRefusesQuietWindow(rows: Table, swaps: seq<Swap>, h: int)
    requires UniqueKeys(rows) && FiveMinuteRowsComplete(rows, swaps, h)
    ensures MissingStart(Starts(FindBuckets(rows, FiveMinutes, h, h + HOUR)), h, h + HOUR)
            <==> exists t :: QuietWindow(swaps, h, t)
  {
    var starts := Starts(FindBuckets(rows, FiveMinutes, h, h + HOUR));
    if MissingStart(starts, h, h + HOUR) {
      var t :| h <= t < h + HOUR && (t - h) % FIVE == 0 && t !in starts;
      StartPresentIff(rows, swaps, h, t);
      assert QuietWindow(swaps, h, t);
    }
    if t :| QuietWindow(swaps, h, t) {
      StartPresentIff(rows, swaps, h, t);
      assert t !in starts;
    }
  }

  lemma StrictRefusesQuietHour(rows: Table, swaps: seq<Swap>, h: int)
    requires UniqueKeys(rows) && Sound(rows, swaps) && h % HOUR == 0 && DoneBefore(rows, swaps, FiveMinutes, h + HOUR)
    ensures MissingStart(Starts(FindBuckets(rows, FiveMinutes, h, h + HOUR)), h, h + HOUR) <==> QuietIn(swaps, h, h + HOUR)
  {
    HourRowsComplete(rows, swaps, h);
    StrictRefusesQuietWindow(rows, swaps, h);
    if t :| QuietWindow(swaps, h, t) {
      GridOfHour(h, t);
      assert QuietAt(swaps, h, h + HOUR, t);
    }
    var end := h + HOUR;
    if t :| QuietAt(swaps, h, end, t) {
      GridOfHour(h, t);
      assert QuietWindow(swaps, h, t);
    }
  }

  /** What the gap check of one period refuses. */
  ghost predicate PeriodRefused(rows: Table, interval: Interval, gapPolicy: GapPolicy, t: int) {
    && interval == OneHour && gapPolicy == Strict
    && MissingStart(Starts(FindBuckets(rows, FiveMinutes, t, t + HOUR)), t, t + HOUR)
  }

  lemma RefusedIffQuiet(rows: Table, swaps: seq<Swap>, interval: Interval, gapPolicy: GapPolicy, t: int)
    requires UniqueKeys(rows) && Sound(rows, swaps) && IsStart(t, interval)
    requires interval == OneHour ==> DoneBefore(rows, swaps, FiveMinutes, t + HOUR)
    ensures PeriodRefused(rows, interval, gapPolicy, t) <==> Refuses(interval, gapPolicy, swaps, t, t + IntervalMs(interval))
  {
    if interval == OneHour {
      StrictRefusesQuietHour(rows, swaps, t);
    }
  }

  // ----- the service -------------------------------------------------------------

  /** The start of the last complete period at `now`. */
  function LastPeriodStart(interval: Interval, now: int): (start: int)
    ensures IsStart(start, interval) && start + IntervalMs(interval) <= now < start + 2 * IntervalMs(interval)
  {
    PeriodOf(now - IntervalMs(interval), interval)
  }

  lemma NextStart(t: int, interval: Interval)
    requires IsStart(t, interval)
    ensures IsStart(t + IntervalMs(interval), interval)
  {
    StartIff(t, interval);
    StartIff(t + IntervalMs(interval), interval);
    IntMath.DivAdd(t, 1, IntervalMs(interval));
  }

  lemma GridGap(t: int, from: int, interval: Interval)
    requires t < from && IsStart(t, interval) && IsStart(from, interval)
    ensures t + IntervalMs(interval) <= from
  {
    var ms := IntervalMs(interval);
    StartIff(t, interval);
    StartIff(from, interval);
    IntMath.CancelFactor(from / ms, t / ms, ms);
    IntMath.MulMonotone(t / ms + 1, from / ms, ms);
  }

  /** Before the first swap there is nothing to write. */
  lemma NothingBefore(rows: Table, swaps: seq<Swap>, interval: Interval, from: int)
    requires Sound(rows, swaps) && forall s :: s in swaps ==> from <= s.createdAt
    requires IsStart(from, interval)
    ensures DoneBefore(rows, swaps, interval, from)
  {
    var ms := IntervalMs(interval);
    forall t: int | t < from && IsStart(t, interval) ensures WindowDone(rows, swaps, interval, t) {
      GridGap(t, from, interval);
      NoSwapNoCandle(swaps, t, t + ms);
      forall p: string ensures Get(rows, Key(p, interval, t)) == Direct(swaps, t, t + ms, p) {
        assert Direct(swaps, t, t + ms, p) == None;
      }
    }
  }

  lemma NothingBeforeFirstSwap(rows: Table, swaps: seq<Swap>, interval: Interval)
    requires Sound(rows, swaps) && Ordered(swaps) && swaps != []
    ensures DoneBefore(rows, swaps, interval, PeriodOf(swaps[0].createdAt, interval))
  {
    NothingBefore(rows, swaps, interval, PeriodOf(swaps[0].createdAt, interval));
  }

  /** Work done for the five-minute series stays done while hours are written. */
  lemma StillDone(start: Table, rows: Table, swaps: seq<Swap>, last: int, to: int)
    requires DoneBefore(start, swaps, FiveMinutes, last) && to <= last
    requires KeepsDone(start, rows, swaps)
    ensures DoneBefore(rows, swaps, FiveMinutes, to)
  {
  }

  lemma OneMoreDone(before: Table, after: Table, swaps: seq<Swap>, interval: Interval, t: int)
    requires IsStart(t, interval) && DoneBefore(before, swaps, interval, t)
    requires WindowDone(after, swaps, interval, t)
    requires KeepsDone(before, after, swaps)
    ensures DoneBefore(after, swaps, interval, t + IntervalMs(interval))
  {
    var ms := IntervalMs(interval);
    forall u: int | u < t + ms && IsStart(u, interval) ensures WindowDone(after, swaps, interval, u) {
      if u > t {
        GridGap(t, u, interval);
      }
    }
  }

  lemma OneWindowIsBefore(rows: Table, after: Table, swaps: seq<Swap>, interval: Interval, t: int)
    requires OneWindowChanged(rows, after, swaps, interval, t)
    ensures OnlyBefore(rows, after, interval, t + IntervalMs(interval))
  {
  }

  /** After one period's candles are written the series is done one window further. */
  lemma PeriodIsDone(rows: Table, swaps: seq<Swap>, interval: Interval, t: int)
    requires UniqueKeys(rows) && Ordered(swaps) && Sound(rows, swaps) && IsStart(t, interval)
    requires interval == OneHour ==> DoneBefore(rows, swaps, FiveMinutes, t + HOUR)
    requires DoneBefore(rows, swaps, interval, t)
    ensures var after := UpsertAll(rows, interval, t, ByPool(rows, swaps, interval, t));
            && UniqueKeys(after) && Sound(after, swaps)
            && DoneBefore(after, swaps, interval, t + IntervalMs(interval))
            && FilledOnly(rows, after, swaps, interval, t + IntervalMs(interval))
  {
    var after := UpsertAll(rows, interval, t, ByPool(rows, swaps, interval, t));
    PeriodChangesOneWindow(rows, swaps, interval, t);
    ChangeKeepsSound(rows, after, swaps, interval, t);
    OneMoreDone(rows, after, swaps, interval, t);
    OneWindowIsBefore(rows, after, swaps, interval, t);
  }

  method FoldBuckets(buckets: Table) returns (byPool: seq<Item>)
    ensures byPool == AccumulateAll(BucketItems(buckets))
  {
    byPool := [];
    for i := 0 to |buckets|
      invariant byPool == AccumulateAll(BucketItems(buckets)[..i])
    {
      assert BucketItems(buckets)[..i + 1][..i] == BucketItems(buckets)[..i];
      byPool := Accumulate(byPool, buckets[i].key.poolId, buckets[i].value);
    }
    assert BucketItems(buckets)[..|buckets|] == BucketItems(buckets);
  }

  method FoldSwaps(swaps: seq<Swap>, lo: int, hi: int) returns (byPool: seq<Item>)
    ensures byPool == AccumulateAll(SwapItems(swaps, lo, hi))
  {
    byPool := [];
    for i := 0 to |swaps|
      invariant byPool == AccumulateAll(SwapItems(swaps[..i], lo, hi))
    {
      assert swaps[..i + 1][..i] == swaps[..i];
      if lo <= swaps[i].createdAt < hi {
        ghost var items := SwapItems(swaps[..i], lo, hi);
        assert (items + [Entry(swaps[i].poolId, SwapCandle(swaps[i]))])[..|items|] == items;
        byPool := Accumulate(byPool, swaps[i].poolId, SwapCandle(swaps[i]));
      }
    }
    assert swaps[..|swaps|] == swaps;
  }

  class CandlesService {
    var swaps: seq<Swap>
    var rows: Table

    ghost predicate Valid()
      reads this
    {
      UniqueKeys(rows) && Ordered(swaps)
    }

    /** Folds one period and upserts its candles, or refuses and writes nothing. */
    method AggregatePeriod(interval: Interval, periodStart: int, gapPolicy: GapPolicy) returns (r: Written)
      modifies this`rows
      ensures r == GapDetected <==> PeriodRefused(old(rows), interval, gapPolicy, periodStart)
      ensures r == GapDetected ==> rows == old(rows)
      ensures r != GapDetected ==>
                && r.count == |ByPool(old(rows), swaps, interval, periodStart)|
                && rows == UpsertAll(old(rows), interval, periodStart, ByPool(old(rows), swaps, interval, periodStart))
    {
      var periodEnd := periodStart + IntervalMs(interval);
      var byPool;
      if interval == OneHour {
        var buckets := FindBuckets(rows, FiveMinutes, periodStart, periodEnd);
        var gap := AssertNoGap(Starts(buckets), periodStart, periodEnd, gapPolicy);
        if gap { return GapDetected; }
        byPool := FoldBuckets(buckets);
      } else {
        byPool := FoldSwaps(swaps, periodStart, periodEnd);
      }
      UpsertCandles(interval, periodStart, byPool);
      return Written(|byPool|);
    }

    method UpsertCandles(interval: Interval, periodStart: int, byPool: seq<Item>)
      modifies this`rows
      ensures rows == UpsertAll(old(rows), interval, periodStart, byPool)
    {
      for i := 0 to |byPool|
        invariant rows == UpsertAll(old(rows), interval, periodStart, byPool[..i])
      {
        assert byPool[..i + 1][..i] == byPool[..i];
        rows := Set(rows, Key(byPool[i].key, interval, periodStart), byPool[i].value);
      }
      assert byPool[..|byPool|] == byPool;
    }

    /** One turn of the backfill loop. */
    method BackfillPeriod(interval: Interval, periodStart: int, gapPolicy: GapPolicy) returns (r: Written)
      requires Valid() && Sound(rows, swaps) && IsStart(periodStart, interval)
      requires interval == OneHour ==> DoneBefore(rows, swaps, FiveMinutes, periodStart + HOUR)
      requires DoneBefore(rows, swaps, interval, periodStart)
      modifies this`rows
      ensures Valid() && Sound(rows, swaps)
      ensures r == GapDetected <==> Refuses(interval, gapPolicy, swaps, periodStart, periodStart + IntervalMs(interval))
      ensures r != GapDetected ==> DoneBefore(rows, swaps, interval, periodStart + IntervalMs(interval))
      ensures FilledOnly(old(rows), rows, swaps, interval, periodStart + IntervalMs(interval))
    {
      ghost var before := rows;
      r := AggregatePeriod(interval, periodStart, gapPolicy);
      RefusedIffQuiet(before, swaps, interval, gapPolicy, periodStart);
      if r.GapDetected? { return; }
      PeriodIsDone(before, swaps, interval, periodStart);
    }

    /** Every period from the first swap's up to, but not including, the last complete one, whose
        rows stay as they were. With the five-minute series done, the one-hour series comes out
        exactly as if folded from swaps, unless a strict run meets a window without a swap. */
    method Backfill(interval: Interval, now: int, gapPolicy: GapPolicy) returns (r: Written)
      requires Valid() && Sound(rows, swaps)
      requires interval == OneHour ==> DoneBefore(rows, swaps, FiveMinutes, LastPeriodStart(OneHour, now))
      modifies this`rows
      ensures Valid() && Sound(rows, swaps)
      ensures r == GapDetected <==>
                interval == OneHour && gapPolicy == Strict && QuietHours(swaps, LastPeriodStart(OneHour, now))
      ensures r != GapDetected ==> DoneBefore(rows, swaps, interval, LastPeriodStart(interval, now))
      ensures FilledOnly(old(rows), rows, swaps, interval, LastPeriodStart(interval, now))
    {
      var last := LastPeriodStart(interval, now);
      if swaps == [] {
        NothingBefore(rows, swaps, interval, last);
        return Written(0);
      }
      NothingBeforeFirstSwap(rows, swaps, interval);
      r := BackfillFrom(interval, PeriodOf(swaps[0].createdAt, interval), last, gapPolicy);
    }

    /** The backfill loop. */
    method BackfillFrom(interval: Interval, first: int, last: int, gapPolicy: GapPolicy) returns (r: Written)
      requires Valid() && Sound(rows, swaps) && IsStart(first, interval) && IsStart(last, interval)
      requires interval == OneHour ==> DoneBefore(rows, swaps, FiveMinutes, last)
      requires DoneBefore(rows, swaps, interval, first)
      modifies this`rows
      ensures Valid() && Sound(rows, swaps)
      ensures r == GapDetected <==> Refuses(interval, gapPolicy, swaps, first, last)
      ensures r != GapDetected ==> DoneBefore(rows, swaps, interval, last)
      ensures FilledOnly(old(rows), rows, swaps, interval, last)
    {
      var ms := IntervalMs(interval);
      var periodStart := first;
      var written: nat := 0;
      while periodStart < last
        invariant Valid() && Sound(rows, swaps) && IsStart(periodStart, interval) && first <= periodStart
        invariant DoneBefore(rows, swaps, interval, periodStart)
        invariant FilledOnly(old(rows), rows, swaps, interval, last)
        invariant periodStart <= last || periodStart == first
        invariant !Refuses(interval, gapPolicy, swaps, first, periodStart)
        decreases last - periodStart
      {
        GridGap(periodStart, last, interval);
        NextStart(periodStart, interval);
        if interval == OneHour {
          StillDone(old(rows), rows, swaps, last, periodStart + HOUR);
        }
        ghost var before := rows;
        r := BackfillPeriod(interval, periodStart, gapPolicy);
        FilledOnlyExtends(old(rows), before, rows, swaps, interval, periodStart + ms, last);
        RefusesSplits(interval, gapPolicy, swaps, first, periodStart, periodStart + ms, last);
        if r.GapDetected? { return; }
        written := written + r.count;
        periodStart := periodStart + ms;
      }
      return Written(written);
    }
  }

  lemma LastHourIsEarlier(now: int)
    ensures LastPeriodStart(OneHour, now) <= LastPeriodStart(FiveMinutes, now)
  {
  }

  /** Backfilling five minutes and then hours, at one time: the five-minute series is always
      finished, and so is the one-hour series unless the policy is strict and some five-minute
      window between the first swap's hour and the last complete hour saw no swap. */
  method BackfillFiveMinutesThenHours(service: CandlesService, now: int, gapPolicy: GapPolicy) returns (refused: bool)
    requires service.Valid() && service.rows == []
    modifies service`rows
    ensures DoneBefore(service.rows, service.swaps, FiveMinutes, LastPeriodStart(FiveMinutes, now))
    ensures refused <==> gapPolicy == Strict && QuietHours(service.swaps, LastPeriodStart(OneHour, now))
    ensures !refused ==> DoneBefore(service.rows, service.swaps, OneHour, LastPeriodStart(OneHour, now))
  {
    var first := service.Backfill(FiveMinutes, now, gapPolicy);
    LastHourIsEarlier(now);
    ghost var between := service.rows;
    var second := service.Backfill(OneHour, now, gapPolicy);
    StillDone(between, service.rows, service.swaps, LastPeriodStart(FiveMinutes, now), LastPeriodStart(FiveMinutes, now));
    refused := second == GapDetected;
  }
}
