/** The chart series of apps/web/hooks/usePriceCandles.ts: sanitising a fetched series, filling
    its gaps, and merging live candles into the filled series one at a time. */
module LiveCandles {
  import Candles
  import opened OrderedMap
  import opened Sorting

  datatype Interval = OneMinute | FiveMinutes | OneHour | OneDay

  function IntervalStep(interval: Interval): (step: int)
    ensures step > 0
  {
    match interval
    case OneMinute => 60
    case FiveMinutes => 300
    case OneHour => 3_600
    case OneDay => 86_400
  }

  /** The chart steps in seconds are the server's windows in milliseconds. */
  lemma StepsMatchServer()
    ensures 1000 * IntervalStep(OneMinute) == Candles.IntervalMs(Candles.OneMinute)
    ensures 1000 * IntervalStep(FiveMinutes) == Candles.IntervalMs(Candles.FiveMinutes)
    ensures 1000 * IntervalStep(OneHour) == Candles.IntervalMs(Candles.OneHour)
    ensures 1000 * IntervalStep(OneDay) == Candles.IntervalMs(Candles.OneDay)
  {
  }

  datatype Candle = Candle(time: int, open: real, high: real, low: real, close: real, volume: real, gap: bool)

  const WINDOW := 168

  // ----- sanitising --------------------------------------------------------------

  predicate ValidTime(time: int, now: int, step: int) {
    time > 0 && time <= now + step
  }

  /** The map from time to candle the loop builds: the last valid candle of each time wins. */
  function Seen(candles: seq<Candle>, now: int, step: int): seq<Entry<int, Candle>> {
    if candles == [] then []
    else
      var last := candles[|candles| - 1];
      var before := Seen(candles[..|candles| - 1], now, step);
      if ValidTime(last.time, now, step) then Set(before, last.time, last) else before
  }

  function Values(seen: seq<Entry<int, Candle>>): seq<Candle> {
    seq(|seen|, i requires 0 <= i < |seen| => seen[i].value)
  }

  function SortByTime(candles: seq<Candle>): seq<Candle> {
    Sort(candles, (c: Candle) => c.time)
  }

  function Sanitized(candles: seq<Candle>, interval: Interval, now: int): seq<Candle> {
    SortByTime(Values(Seen(candles, now, IntervalStep(interval))))
  }

  method Sanitize(candles: seq<Candle>, interval: Interval, now: int) returns (r: seq<Candle>)
    ensures r == Sanitized(candles, interval, now)
  {
    var step := IntervalStep(interval);
    var seen: seq<Entry<int, Candle>> := [];
    for i := 0 to |candles|
      invariant seen == Seen(candles[..i], now, step)
    {
      assert candles[..i + 1][..i] == candles[..i];
      if !ValidTime(candles[i].time, now, step) { continue; }
      seen := Set(seen, candles[i].time, candles[i]);
    }
    assert candles[..|candles|] == candles;
    r := SortByTime(Values(seen));
  }

  ghost predicate Ascending(candles: seq<Candle>) {
    forall i, j :: 0 <= i < j < |candles| ==> candles[i].time < candles[j].time
  }

  /** `c` is the last candle of its time, and its time is acceptable. */
  ghost predicate LastOfItsTime(candles: seq<Candle>, c: Candle, now: int, step: int) {
    && 0 < c.time <= now + step
    && exists i :: 0 <= i < |candles| && candles[i] == c
                   && forall j :: i < j < |candles| ==> candles[j].time != c.time
  }

  lemma LastOfSnoc(before: seq<Candle>, last: Candle, d: Candle, now: int, step: int)
    ensures LastOfItsTime(before + [last], d, now, step)
            <==> 0 < d.time <= now + step
                 && (d == last || (d.time != last.time && LastOfItsTime(before, d, now, step)))
  {
    var all := before + [last];
    if LastOfItsTime(all, d, now, step) {
      var i :| 0 <= i < |all| && all[i] == d && forall j :: i < j < |all| ==> all[j].time != d.time;
      if i < |before| {
        assert all[|before|] == last;
        assert before[i] == d && forall j :: i < j < |before| ==> before[j] == all[j];
      }
    }
    if d == last {
      assert all[|before|] == d;
    } else if d.time != last.time && LastOfItsTime(before, d, now, step) {
      var i :| 0 <= i < |before| && before[i] == d && forall j :: i < j < |before| ==> before[j].time != d.time;
      assert all[i] == d;
    }
  }

  lemma {:induction false} SeenKeepsLast(candles: seq<Candle>, now: int, step: int)
    ensures UniqueKeys(Seen(candles, now, step))
    ensures forall t, d :: Entry(t, d) in Seen(candles, now, step)
                           <==> t == d.time && LastOfItsTime(candles, d, now, step)
  {
    if candles != [] {
      var n := |candles| - 1;
      var last, before := candles[n], Seen(candles[..n], now, step);
      SeenKeepsLast(candles[..n], now, step);
      SetKeepsOthers(before, last.time, last);
      assert candles == candles[..n] + [last];
      forall t, d ensures Entry(t, d) in Seen(candles, now, step)
                          <==> t == d.time && LastOfItsTime(candles, d, now, step) {
        LastOfSnoc(candles[..n], last, d, now, step);
      }
    }
  }

  lemma SortedValues(values: seq<Candle>, r: seq<Candle>)
    requires DistinctKeys(values, (c: Candle) => c.time) && r == SortByTime(values)
    ensures Ascending(r) && forall d :: d in r <==> d in values
  {
    var key := (c: Candle) => c.time;
    assert r == Sort(values, key);
    SortIsStableSort(values, key);
    DistinctKeysPermute(values, r, key);
    assert forall d :: d in r <==> d in multiset(r);
    assert forall d :: d in values <==> d in multiset(values);
    forall i, j | 0 <= i < j < |r| ensures r[i].time < r[j].time {
      assert key(r[i]) <= key(r[j]) && key(r[i]) != key(r[j]);
    }
  }

  /** Sanitising gives a strictly ascending series of exactly the last valid candle of each time. */
  lemma SanitizedIsLastPerTime(candles: seq<Candle>, interval: Interval, now: int)
    ensures Ascending(Sanitized(candles, interval, now))
    ensures forall d :: d in Sanitized(candles, interval, now)
                        <==> LastOfItsTime(candles, d, now, IntervalStep(interval))
  {
    var step := IntervalStep(interval);
    var seen, key := Seen(candles, now, step), (c: Candle) => c.time;
    var values := Values(seen);
    var r := SortByTime(values);
    SeenKeepsLast(candles, now, step);
    forall d ensures d in values <==> LastOfItsTime(candles, d, now, step) {
      if d in values {
        var i :| 0 <= i < |seen| && seen[i].value == d;
        assert Entry(seen[i].key, d) in seen;
      }
      if Entry(d.time, d) in seen {
        var i :| 0 <= i < |seen| && seen[i] == Entry(d.time, d);
        assert values[i] == d;
      }
    }
    forall i, j | 0 <= i < j < |values| ensures key(values[i]) != key(values[j]) {
      assert Entry(seen[i].key, values[i]) in seen && Entry(seen[j].key, values[j]) in seen;
    }
    SortedValues(values, r);
  }

  // ----- filling gaps ------------------------------------------------------------

  function GapCandle(previous: Candle, time: int): Candle {
    Candle(time, previous.close, previous.close, previous.close, previous.close, 0.0, true)
  }

  /** Synthetic candles at `t`, `t + step`, ... before `end`. */
  function GapsFrom(previous: Candle, t: int, end: int, step: int): seq<Candle>
    requires step > 0
    decreases end - t
  {
    if t >= end then [] else [GapCandle(previous, t)] + GapsFrom(previous, t + step, end, step)
  }

  function Fill(candles: seq<Candle>, step: int): seq<Candle>
    requires step > 0
  {
    if |candles| < 2 then candles
    else [candles[0]] + GapsFrom(candles[0], candles[0].time + step, candles[1].time, step) + Fill(candles[1..], step)
  }

  function FillGaps(candles: seq<Candle>, interval: Interval, enabled: bool): seq<Candle> {
    if !enabled then candles else Fill(candles, IntervalStep(interval))
  }

  /** The inner loop: one gap candle for every missing step. */
  method PushGaps(series: seq<Candle>, current: Candle, end: int, step: int) returns (result: seq<Candle>)
    requires step > 0
    ensures result == series + GapsFrom(current, current.time + step, end, step)
  {
    result := series;
    var t := current.time + step;
    while t < end
      invariant result + GapsFrom(current, t, end, step) == series + GapsFrom(current, current.time + step, end, step)
      decreases end - t
    {
      result := result + [GapCandle(current, t)];
      t := t + step;
    }
  }

  /** What one iteration of the outer loop pushes. */
  function Stretch(candles: seq<Candle>, i: nat, step: int): seq<Candle>
    requires step > 0 && i < |candles|
  {
    if i == |candles| - 1 then [candles[i]]
    else [candles[i]] + GapsFrom(candles[i], candles[i].time + step, candles[i + 1].time, step)
  }

  lemma FillStretch(candles: seq<Candle>, i: nat, step: int)
    requires step > 0 && i < |candles|
    ensures Fill(candles[i..], step) == Stretch(candles, i, step) + Fill(candles[i + 1..], step)
  {
    if i < |candles| - 1 {
      assert candles[i..][1..] == candles[i + 1..];
    }
  }

  lemma Associate(a: seq<Candle>, b: seq<Candle>, c: seq<Candle>)
    ensures a + (b + c) == a + b + c
  {
  }

  lemma FillFrom(done: seq<Candle>, candles: seq<Candle>, i: nat, step: int)
    requires step > 0 && i < |candles|
    ensures done + Fill(candles[i..], step)
         == (if i == |candles| - 1 then done + [candles[i]]
             else done + [candles[i]] + GapsFrom(candles[i], candles[i].time + step, candles[i + 1].time, step))
            + Fill(candles[i + 1..], step)
  {
    FillStretch(candles, i, step);
    Associate(done, Stretch(candles, i, step), Fill(candles[i + 1..], step));
    if i < |candles| - 1 {
      Associate(done, [candles[i]], GapsFrom(candles[i], candles[i].time + step, candles[i + 1].time, step));
    }
  }

  method FillGapsLoop(candles: seq<Candle>, interval: Interval, enabled: bool) returns (result: seq<Candle>)
    ensures result == FillGaps(candles, interval, enabled)
  {
    if !enabled || |candles| < 2 { return candles; }
    var step := IntervalStep(interval);
    result := [];
    for i := 0 to |candles|
      invariant result + Fill(candles[i..], step) == Fill(candles, step)
    {
      FillFrom(result, candles, i, step);
      result := result + [candles[i]];
      if i < |candles| - 1 {
        result := PushGaps(result, candles[i], candles[i + 1].time, step);
      }
    }
  }

  // ----- merging -----------------------------------------------------------------

  function Reals(candles: seq<Candle>): seq<Candle> {
    if candles == [] then []
    else Reals(candles[..|candles| - 1]) + (if candles[|candles| - 1].gap then [] else [candles[|candles| - 1]])
  }

  function LastOf(candles: seq<Candle>, n: nat): seq<Candle> {
    if |candles| <= n then candles else candles[|candles| - n..]
  }

  /** Keep the series while it has at most 168 real candles, else rebuild it from the last 168. */
  function CutToWindow(withGap: seq<Candle>, interval: Interval, enabled: bool): seq<Candle> {
    var realCandles := Reals(withGap);
    if |realCandles| <= WINDOW then withGap
    else FillGaps(realCandles[|realCandles| - WINDOW..], interval, enabled)
  }

  function MergeLiveCandle(prev: seq<Candle>, incoming: Candle, interval: Interval, enabled: bool): seq<Candle> {
    if prev == [] then [incoming]
    else
      var last := prev[|prev| - 1];
      if incoming.time < last.time then prev
      else if incoming.time == last.time then prev[..|prev| - 1] + [incoming]
      else CutToWindow(FillGaps(prev + [incoming], interval, enabled), interval, enabled)
  }

  /** The same update on real candles alone: ignore, replace, or append and cut. */
  function MergeReal(reals: seq<Candle>, c: Candle): seq<Candle> {
    if reals == [] then [c]
    else
      var last := reals[|reals| - 1];
      if c.time < last.time then reals
      else if c.time == last.time then reals[..|reals| - 1] + [c]
      else LastOf(reals + [c], WINDOW)
  }

  ghost predicate AllReal(candles: seq<Candle>) {
    forall i :: 0 <= i < |candles| ==> !candles[i].gap
  }

  /** Neighbours are at most one step apart. */
  ghost predicate Dense(candles: seq<Candle>, step: int) {
    forall i :: 0 <= i < |candles| - 1 ==> candles[i + 1].time <= candles[i].time + step
  }

  lemma {:induction false} FillOfDense(candles: seq<Candle>, step: int)
    requires step > 0 && Dense(candles, step)
    ensures Fill(candles, step) == candles
  {
    if |candles| >= 2 {
      var rest := candles[1..];
      FillOfDense(rest, step);
    }
  }

  lemma {:induction false} FillSnoc(candles: seq<Candle>, c: Candle, step: int)
    requires step > 0 && candles != []
    ensures var last := candles[|candles| - 1];
            Fill(candles + [c], step) == Fill(candles, step) + GapsFrom(last, last.time + step, c.time, step) + [c]
  {
    var all := candles + [c];
    if |candles| == 1 {
      assert all[1..] == [c];
    } else {
      assert all[1..] == candles[1..] + [c];
      FillSnoc(candles[1..], c, step);
    }
  }

  lemma JoinDense(a: seq<Candle>, b: seq<Candle>, step: int)
    requires Dense(a, step) && Dense(b, step)
    requires a != [] && (b != [] ==> b[0].time <= a[|a| - 1].time + step)
    ensures Dense(a + b, step)
  {
  }

  /** Gap candles step from `t` up to the last place before `end`. */
  lemma {:induction false} GapsTimes(previous: Candle, t: int, end: int, step: int)
    requires step > 0
    ensures var g := GapsFrom(previous, t, end, step);
            && (forall i :: 0 <= i < |g| ==> g[i].gap && t <= g[i].time < end)
            && (g != [] ==> g[0].time == t && end <= g[|g| - 1].time + step)
            && (g == [] ==> end <= t)
            && Dense(g, step) && Ascending(g)
    decreases end - t
  {
    if t < end {
      GapsTimes(previous, t + step, end, step);
      JoinDense([GapCandle(previous, t)], GapsFrom(previous, t + step, end, step), step);
    }
  }

  /** A filled series starts and ends where the real one does, and is dense. */
  lemma {:induction false} FillEndsAndDensity(candles: seq<Candle>, step: int)
    requires step > 0 && candles != []
    ensures var f := Fill(candles, step);
            && f != [] && f[0] == candles[0] && f[|f| - 1] == candles[|candles| - 1] && Dense(f, step)
  {
    if |candles| >= 2 {
      var gaps := GapsFrom(candles[0], candles[0].time + step, candles[1].time, step);
      FillEndsAndDensity(candles[1..], step);
      var rest := Fill(candles[1..], step);
      GapsTimes(candles[0], candles[0].time + step, candles[1].time, step);
      JoinDense([candles[0]], gaps, step);
      JoinDense([candles[0]] + gaps, rest, step);
    }
  }

  lemma {:induction false} RealsConcat(a: seq<Candle>, b: seq<Candle>)
    ensures Reals(a + b) == Reals(a) + Reals(b)
  {
    if b == [] {
      assert a + b == a;
    } else {
      assert (a + b)[..|a + b| - 1] == a + b[..|b| - 1];
      RealsConcat(a, b[..|b| - 1]);
    }
  }

  lemma {:induction false} RealsOfGaps(gaps: seq<Candle>)
    requires forall i :: 0 <= i < |gaps| ==> gaps[i].gap
    ensures Reals(gaps) == []
  {
    if gaps != [] {
      RealsOfGaps(gaps[..|gaps| - 1]);
    }
  }

  lemma RealsOfOne(c: Candle)
    ensures Reals([c]) == if c.gap then [] else [c]
  {
    assert [c][..0] == [];
  }

  lemma RealsOfStretch(c: Candle, gaps: seq<Candle>, rest: seq<Candle>)
    requires !c.gap && forall i :: 0 <= i < |gaps| ==> gaps[i].gap
    ensures Reals([c] + gaps + rest) == [c] + Reals(rest)
  {
    RealsOfGaps(gaps);
    RealsOfOne(c);
    RealsConcat([c], gaps);
    assert Reals([c] + gaps) == [c];
    RealsConcat([c] + gaps, rest);
  }

  /** Dropping the gaps of a filled series gives back the real one. */
  lemma {:induction false} RealsOfFill(candles: seq<Candle>, step: int)
    requires step > 0 && AllReal(candles)
    ensures Reals(Fill(candles, step)) == candles
  {
    if |candles| >= 2 {
      RealsOfFill(candles[1..], step);
      GapsTimes(candles[0], candles[0].time + step, candles[1].time, step);
      RealsOfStretch(candles[0], GapsFrom(candles[0], candles[0].time + step, candles[1].time, step),
                     Fill(candles[1..], step));
      assert candles == [candles[0]] + candles[1..];
    } else if |candles| == 1 {
      RealsOfOne(candles[0]);
      assert candles == [candles[0]];
    }
  }

  lemma JoinAscending(a: seq<Candle>, b: seq<Candle>)
    requires Ascending(a) && Ascending(b) && a != []
    requires b != [] ==> a[|a| - 1].time < b[0].time
    ensures Ascending(a + b)
  {
    forall i, j | 0 <= i < |a| && 0 <= j < |b| ensures a[i].time < b[j].time {
      assert a[i].time <= a[|a| - 1].time && b[0].time <= b[j].time;
    }
  }

  /** Filling keeps a series strictly ascending. */
  lemma {:induction false} FillAscending(candles: seq<Candle>, step: int)
    requires step > 0 && Ascending(candles)
    ensures Ascending(Fill(candles, step))
  {
    if |candles| >= 2 {
      FillAscending(candles[1..], step);
      FillEndsAndDensity(candles[1..], step);
      var gaps := GapsFrom(candles[0], candles[0].time + step, candles[1].time, step);
      GapsTimes(candles[0], candles[0].time + step, candles[1].time, step);
      JoinAscending([candles[0]], gaps);
      JoinAscending([candles[0]] + gaps, Fill(candles[1..], step));
    }
  }

  // ----- merging refines recomputation -------------------------------------------

  lemma DenseSnoc(f: seq<Candle>, c: Candle, step: int)
    requires step > 0 && f != [] && Dense(f, step)
    ensures var last := f[|f| - 1];
            Fill(f + [c], step) == f + GapsFrom(last, last.time + step, c.time, step) + [c]
  {
    FillOfDense(f, step);
    FillSnoc(f, c, step);
  }

  /** Filling a filled series with one more real candle is filling the real series with it. */
  lemma RefillAppends(reals: seq<Candle>, c: Candle, step: int)
    requires step > 0 && reals != []
    ensures Fill(Fill(reals, step) + [c], step) == Fill(reals + [c], step)
  {
    FillEndsAndDensity(reals, step);
    DenseSnoc(Fill(reals, step), c, step);
    FillSnoc(reals, c, step);
  }

  /** Replacing the last real candle at the same time replaces the last of the filled series. */
  lemma RefillReplaces(reals: seq<Candle>, c: Candle, step: int)
    requires step > 0 && reals != [] && c.time == reals[|reals| - 1].time
    ensures var f := Fill(reals, step);
            f != [] && f[..|f| - 1] + [c] == Fill(reals[..|reals| - 1] + [c], step)
  {
    var n := |reals| - 1;
    var before, last, f := reals[..n], reals[n], Fill(reals, step);
    assert reals == before + [last];
    if n > 0 {
      FillSnoc(before, last, step);
      FillSnoc(before, c, step);
    }
  }

  lemma CutOfFilled(reals: seq<Candle>, interval: Interval)
    requires AllReal(reals)
    ensures CutToWindow(Fill(reals, IntervalStep(interval)), interval, true)
         == Fill(LastOf(reals, WINDOW), IntervalStep(interval))
  {
    RealsOfFill(reals, IntervalStep(interval));
  }

  lemma MergeAppends(reals: seq<Candle>, c: Candle, interval: Interval)
    requires AllReal(reals) && !c.gap && reals != [] && c.time > reals[|reals| - 1].time
    ensures MergeLiveCandle(Fill(reals, IntervalStep(interval)), c, interval, true)
         == Fill(LastOf(reals + [c], WINDOW), IntervalStep(interval))
  {
    var step := IntervalStep(interval);
    FillEndsAndDensity(reals, step);
    RefillAppends(reals, c, step);
    CutOfFilled(reals + [c], interval);
  }

  lemma {:induction false} RealsOfAllReal(candles: seq<Candle>)
    requires AllReal(candles)
    ensures Reals(candles) == candles
  {
    if candles != [] {
      var before, last := candles[..|candles| - 1], candles[|candles| - 1];
      assert candles == before + [last];
      RealsOfAllReal(before);
    }
  }

  /** Merging one live candle into the filled series is filling the updated real series. */
  lemma MergeRefinesRecompute(reals: seq<Candle>, c: Candle, interval: Interval, enabled: bool)
    requires AllReal(reals) && !c.gap
    ensures MergeLiveCandle(FillGaps(reals, interval, enabled), c, interval, enabled)
         == FillGaps(MergeReal(reals, c), interval, enabled)
  {
    var step := IntervalStep(interval);
    if reals != [] && enabled {
      FillEndsAndDensity(reals, step);
      if c.time == reals[|reals| - 1].time {
        RefillReplaces(reals, c, step);
      } else if c.time > reals[|reals| - 1].time {
        MergeAppends(reals, c, interval);
      }
    } else if reals != [] && c.time > reals[|reals| - 1].time {
      RealsOfAllReal(reals + [c]);
    }
  }

  // ----- what a gap candle shows -------------------------------------------------

  /** The candle at `i` is synthetic: one step after its neighbour, without volume, and flat at the
      close of the real candle at `k`, the last one before it. */
  ghost predicate FlatGap(f: seq<Candle>, i: nat, k: nat, step: int)
    requires k < i < |f|
  {
    && !f[k].gap && (forall j :: k < j <= i ==> f[j].gap)
    && f[i].time == f[i - 1].time + step && f[i].volume == 0.0
    && f[i].open == f[k].close && f[i].high == f[k].close && f[i].low == f[k].close && f[i].close == f[k].close
  }

  ghost predicate GapsFlat(f: seq<Candle>, step: int) {
    forall i :: 0 <= i < |f| && f[i].gap ==> exists k :: 0 <= k < i && FlatGap(f, i, k, step)
  }

  /** Candles flat at one close, a step apart from `t` on. */
  ghost predicate FlatRun(gaps: seq<Candle>, close: real, t: int, step: int) {
    forall i :: 0 <= i < |gaps| ==>
      gaps[i] == Candle(gaps[i].time, close, close, close, close, 0.0, true)
      && gaps[i].time == (if i == 0 then t else gaps[i - 1].time + step)
  }

  lemma {:induction false} GapsFromFlat(previous: Candle, t: int, end: int, step: int)
    requires step > 0
    ensures FlatRun(GapsFrom(previous, t, end, step), previous.close, t, step)
    decreases end - t
  {
    if t < end {
      GapsFromFlat(previous, t + step, end, step);
      var rest := GapsFrom(previous, t + step, end, step);
      var g := [GapCandle(previous, t)] + rest;
      forall i | 0 <= i < |g|
        ensures g[i] == Candle(g[i].time, previous.close, previous.close, previous.close, previous.close, 0.0, true)
                && g[i].time == (if i == 0 then t else g[i - 1].time + step)
      {
        if i > 0 {
          assert g[i] == rest[i - 1] && (i > 1 ==> g[i - 1] == rest[i - 2]);
        }
      }
    }
  }

  lemma FlatInFirst(c: Candle, gaps: seq<Candle>, f: seq<Candle>, i: nat, step: int)
    requires !c.gap && FlatRun(gaps, c.close, c.time + step, step) && 0 < i <= |gaps| < |f| && f[..|gaps| + 1] == [c] + gaps
    ensures FlatGap(f, i, 0, step)
  {
    assert forall j :: 0 <= j <= |gaps| ==> f[j] == ([c] + gaps)[j];
    assert f[0] == c && f[i] == gaps[i - 1] && f[i - 1] == (if i == 1 then c else gaps[i - 2]);
    assert gaps[i - 1].time == (if i - 1 == 0 then c.time + step else gaps[i - 1 - 1].time + step);
  }

  lemma FlatInRest(f: seq<Candle>, rest: seq<Candle>, n: nat, i: nat, k: nat, step: int)
    requires n <= |f| && f[n..] == rest && k < i < |rest| && FlatGap(rest, i, k, step)
    ensures FlatGap(f, i + n, k + n, step)
  {
    assert forall j :: 0 <= j < |rest| ==> f[n + j] == rest[j];
    forall j | k + n < j <= i + n ensures f[j].gap {
      assert f[j] == rest[j - n];
    }
  }

  lemma GapsFlatAt(f: seq<Candle>, i: nat, step: int) returns (k: nat)
    requires GapsFlat(f, step) && i < |f| && f[i].gap
    ensures k < i && FlatGap(f, i, k, step)
  {
    k :| 0 <= k < i && FlatGap(f, i, k, step);
  }

  lemma Parts(a: seq<Candle>, b: seq<Candle>)
    ensures (a + b)[..|a|] == a && (a + b)[|a|..] == b
  {
  }

  lemma PrependGapFlat(c: Candle, gaps: seq<Candle>, rest: seq<Candle>, i: nat, j: nat, step: int) returns (k: nat)
    requires !c.gap && FlatRun(gaps, c.close, c.time + step, step) && rest != [] && 0 < i < |gaps| + 1 + |rest|
    requires i > |gaps| ==> j < i - |gaps| - 1 && FlatGap(rest, i - |gaps| - 1, j, step)
    ensures k < i && FlatGap([c] + gaps + rest, i, k, step)
  {
    var first := [c] + gaps;
    Parts(first, rest);
    if i <= |gaps| {
      k := 0;
      FlatInFirst(c, gaps, first + rest, i, step);
    } else {
      k := j + |first|;
      FlatInRest(first + rest, rest, |first|, i - |first|, j, step);
    }
  }

  lemma PrependGapsFlat(c: Candle, gaps: seq<Candle>, rest: seq<Candle>, step: int)
    requires !c.gap && GapsFlat(rest, step) && rest != [] && FlatRun(gaps, c.close, c.time + step, step)
    ensures GapsFlat([c] + gaps + rest, step)
  {
    var f, n := [c] + gaps + rest, |gaps| + 1;
    forall i | 0 <= i < |f| && f[i].gap ensures exists k :: 0 <= k < i && FlatGap(f, i, k, step) {
      var j := 0;
      if i >= n {
        assert f[i] == rest[i - n];
        j := GapsFlatAt(rest, i - n, step);
      }
      var k := PrependGapFlat(c, gaps, rest, i, j, step);
    }
  }

  /** Every gap candle of a filled series is flat at the close of the last real candle before it. */
  lemma {:induction false} GapsAreFlat(candles: seq<Candle>, step: int)
    requires step > 0 && AllReal(candles)
    ensures GapsFlat(Fill(candles, step), step)
  {
    if |candles| >= 2 {
      GapsAreFlat(candles[1..], step);
      FillEndsAndDensity(candles[1..], step);
      GapsFromFlat(candles[0], candles[0].time + step, candles[1].time, step);
      PrependGapsFlat(candles[0], GapsFrom(candles[0], candles[0].time + step, candles[1].time, step),
                      Fill(candles[1..], step), step);
    }
  }

  // ----- what merging keeps ------------------------------------------------------

  lemma RealsOfFilled(reals: seq<Candle>, interval: Interval, enabled: bool)
    requires AllReal(reals)
    ensures Reals(FillGaps(reals, interval, enabled)) == reals
  {
    if enabled {
      RealsOfFill(reals, IntervalStep(interval));
    } else {
      RealsOfAllReal(reals);
    }
  }

  /** The last 168 of a series with one more candle at its end. */
  lemma LastWithOneMore(reals: seq<Candle>, c: Candle)
    ensures LastOf(reals + [c], 168) == (if |reals| < 168 then reals else reals[|reals| - 167..]) + [c]
  {
  }

  lemma MergeRealAllReal(reals: seq<Candle>, c: Candle)
    requires AllReal(reals) && !c.gap
    ensures AllReal(MergeReal(reals, c))
  {
  }

  /** A live candle older than the chart's last one changes nothing; at its time it takes its place;
      a newer one goes to the end, and the chart keeps its 168 newest real candles. */
  lemma MergeKeepsNewest(reals: seq<Candle>, c: Candle, interval: Interval, enabled: bool)
    requires AllReal(reals) && !c.gap
    ensures var merged := Reals(MergeLiveCandle(FillGaps(reals, interval, enabled), c, interval, enabled));
            if reals == [] then merged == [c]
            else if c.time < reals[|reals| - 1].time then merged == reals
            else if c.time == reals[|reals| - 1].time then merged == reals[..|reals| - 1] + [c]
            else merged == (if |reals| < 168 then reals else reals[|reals| - 167..]) + [c]
  {
    MergeRefinesRecompute(reals, c, interval, enabled);
    MergeRealAllReal(reals, c);
    RealsOfFilled(MergeReal(reals, c), interval, enabled);
    LastWithOneMore(reals, c);
  }

  // ----- whole runs --------------------------------------------------------------

  function RunLive(series: seq<Candle>, incoming: seq<Candle>, interval: Interval, enabled: bool): seq<Candle> {
    if incoming == [] then series
    else
      var n := |incoming| - 1;
      MergeLiveCandle(RunLive(series, incoming[..n], interval, enabled), incoming[n], interval, enabled)
  }

  function RunReal(reals: seq<Candle>, incoming: seq<Candle>): seq<Candle> {
    if incoming == [] then reals
    else MergeReal(RunReal(reals, incoming[..|incoming| - 1]), incoming[|incoming| - 1])
  }

  function Max(a: int, b: int): int {
    if a < b then b else a
  }

  lemma MergeRealKeepsShape(reals: seq<Candle>, c: Candle)
    requires AllReal(reals) && Ascending(reals) && !c.gap
    ensures var r := MergeReal(reals, c);
            && r != [] && AllReal(r) && Ascending(r) && |r| <= Max(|reals|, WINDOW)
  {
  }

  lemma {:induction false} RunRealKeepsShape(reals: seq<Candle>, incoming: seq<Candle>)
    requires AllReal(reals) && Ascending(reals) && AllReal(incoming)
    ensures var r := RunReal(reals, incoming);
            && AllReal(r) && Ascending(r) && |r| <= Max(|reals|, WINDOW)
            && (reals != [] || incoming != [] ==> r != [])
  {
    if incoming != [] {
      var n := |incoming| - 1;
      RunRealKeepsShape(reals, incoming[..n]);
      MergeRealKeepsShape(RunReal(reals, incoming[..n]), incoming[n]);
    }
  }

  lemma {:induction false} RunRefinesRecompute(reals: seq<Candle>, incoming: seq<Candle>, interval: Interval, enabled: bool)
    requires AllReal(reals) && Ascending(reals) && AllReal(incoming)
    ensures RunLive(FillGaps(reals, interval, enabled), incoming, interval, enabled)
         == FillGaps(RunReal(reals, incoming), interval, enabled)
  {
    if incoming != [] {
      var n := |incoming| - 1;
      RunRefinesRecompute(reals, incoming[..n], interval, enabled);
      RunRealKeepsShape(reals, incoming[..n]);
      MergeRefinesRecompute(RunReal(reals, incoming[..n]), incoming[n], interval, enabled);
    }
  }

  lemma AppendedIsNewest(all: seq<Candle>, c: Candle)
    requires Ascending(all + [c])
    ensures Ascending(all) && (all != [] ==> all[|all| - 1].time < c.time)
  {
    var more := all + [c];
    assert forall i :: 0 <= i < |all| ==> more[i] == all[i];
    assert more[|all|] == c;
  }

  /** One more candle newer than all before, after those that stayed. */
  lemma NewestStay(all: seq<Candle>, kept: seq<Candle>, c: Candle)
    requires all != [] && c.time > all[|all| - 1].time
    requires kept == all || kept == LastOf(all, 168)
    ensures MergeReal(kept, c) == LastOf(all + [c], 168)
  {
    assert kept[|kept| - 1] == all[|all| - 1];
    LastWithOneMore(all, c);
    LastWithOneMore(kept, c);
  }

  lemma RunSnoc(start: seq<Candle>, before: seq<Candle>, c: Candle)
    ensures RunReal(start, before + [c]) == MergeReal(RunReal(start, before), c)
  {
    assert (before + [c])[..|before|] == before;
  }

  /** Of candles each newer than all before, fetched ones first, the last 168 stay once one came live. */
  lemma {:induction false} NewerRunKeepsNewest(start: seq<Candle>, incoming: seq<Candle>)
    requires Ascending(start + incoming) && incoming != []
    ensures RunReal(start, incoming) == LastOf(start + incoming, 168)
  {
    var n := |incoming| - 1;
    var before, c := incoming[..n], incoming[n];
    var all := start + before;
    assert incoming == before + [c] && start + incoming == all + [c];
    RunSnoc(start, before, c);
    AppendedIsNewest(all, c);
    if n == 0 {
      assert all == start;
    } else {
      NewerRunKeepsNewest(start, before);
    }
    if all != [] {
      NewestStay(all, RunReal(start, before), c);
    }
  }

  /** From any fetched candles and over any run of live candles, the chart series is the filled
      real series: strictly ascending, neighbours at most one step apart while filling is on,
      ending in a real candle, and with its gaps dropped exactly the real series, whose length
      never exceeds the fetched one or 168. */
  lemma ChartSeriesInvariant(fetched: seq<Candle>, incoming: seq<Candle>, interval: Interval, now: int, enabled: bool)
    requires AllReal(fetched) && AllReal(incoming)
    ensures var start := Sanitized(fetched, interval, now);
            var series := RunLive(FillGaps(start, interval, enabled), incoming, interval, enabled);
            var reals := RunReal(start, incoming);
            && series == FillGaps(reals, interval, enabled)
            && Ascending(series)
            && (enabled ==> Dense(series, IntervalStep(interval)))
            && (series != [] ==> !series[|series| - 1].gap)
            && Reals(series) == reals
            && |reals| <= Max(|start|, 168)
            && (enabled ==> GapsFlat(series, IntervalStep(interval)))
            && (!enabled ==> AllReal(series))
  {
    var start := Sanitized(fetched, interval, now);
    SanitizedIsLastPerTime(fetched, interval, now);
    forall i | 0 <= i < |start| ensures !start[i].gap {
      assert start[i] in start;
    }
    RunRefinesRecompute(start, incoming, interval, enabled);
    RunRealKeepsShape(start, incoming);
    var reals := RunReal(start, incoming);
    if enabled {
      RealsOfFill(reals, IntervalStep(interval));
      FillAscending(reals, IntervalStep(interval));
      GapsAreFlat(reals, IntervalStep(interval));
      if reals != [] {
        FillEndsAndDensity(reals, IntervalStep(interval));
      }
    } else {
      RealsOfAllReal(reals);
    }
  }
}
