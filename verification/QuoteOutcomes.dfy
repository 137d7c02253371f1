/** What a swap quote is, told on the pool's own fields: the ticks visited in order of index, each
    crossed by a full move until the input is spent, the last one for the share that is left. */
module QuoteOutcomes {
  import opened IntMath
  import opened Sorting
  import opened Wrappers
  import opened SwapQuote

  /** `q` is `x / d`, rounded down. */
  predicate IsFloor(q: int, x: int, d: int) {
    q * d <= x < (q + 1) * d
  }

  lemma FloorIff(q: int, x: int, d: int)
    requires d > 0
    ensures IsFloor(q, x, d) <==> q == x / d
  {
    DivIff(x, d, q);
    DivIff(x, d, q + 1);
  }

  function Total(xs: seq<int>): int {
    if xs == [] then 0 else xs[0] + Total(xs[1..])
  }

  // ----- one walk ----------------------------------------------------------------

  /** The price before the `i`-th move. */
  function PriceAt(ticks: seq<Tick>, price: Price, i: nat): Price
    requires i <= |ticks|
  {
    if i == 0 then price else ticks[i - 1].sqrtPriceX96
  }

  predicate Ahead(from: int, to: int, down: bool) {
    if down then to <= from else from <= to
  }

  /** A full move between two prices takes its stretch of liquidity at the higher price and pays it
      at the lower one. */
  ghost predicate FullMove(from: Price, to: Price, liquidity: int, taken: int, paid: int) {
    var high, low := if from < to then to else from, if from < to then from else to;
    IsFloor(taken, liquidity * (high - low), high) && IsFloor(paid, liquidity * (high - low), low)
  }

  ghost predicate MoveAt(ticks: seq<Tick>, price: Price, liquidity: int, down: bool, taken: seq<int>, paid: seq<int>, i: nat)
    requires i < |ticks| && i < |taken| && i < |paid|
  {
    var from, to := PriceAt(ticks, price, i), PriceAt(ticks, price, i + 1);
    Ahead(from, to, down) && FullMove(from, to, liquidity, taken[i], paid[i])
  }

  ghost predicate Moves(ticks: seq<Tick>, price: Price, liquidity: int, down: bool, taken: seq<int>, paid: seq<int>, n: nat) {
    && |taken| == |paid| == n + 1 <= |ticks|
    && forall i :: 0 <= i <= n ==> MoveAt(ticks, price, liquidity, down, taken, paid, i)
  }

  /** The input `r` crosses `n` ticks and is spent on the way to the next: what it receives for the
      last move is its share of that move, and the price is where the last move crossed whole ended. */
  ghost predicate Spends(ticks: seq<Tick>, price: Price, liquidity: int, down: bool, r: int, out: int, limit: int,
                         taken: seq<int>, paid: seq<int>, n: nat) {
    && Moves(ticks, price, liquidity, down, taken, paid, n)
    && var rest := r - Total(taken[..n]);
       && 0 < rest <= taken[n]
       && IsFloor(out - Total(paid[..n]), paid[n] * rest, taken[n])
       && limit == PriceAt(ticks, price, if rest == taken[n] then n + 1 else n)
  }

  lemma MoveIsFull(price: Price, target: Price, liquidity: Amount, down: bool, taken: int, paid: int)
    requires Ahead(price, target, down)
    ensures FullMove(price, target, liquidity, taken, paid)
            <==> taken == FullIn(price, target, liquidity, down) && paid == FullOut(price, target, liquidity, down)
  {
    var high, low := if price < target then target else price, if price < target then price else target;
    FloorIff(taken, liquidity * (high - low), high);
    FloorIff(paid, liquidity * (high - low), low);
  }

  lemma TotalCons(x: int, xs: seq<int>)
    ensures Total([x] + xs) == x + Total(xs)
  {
    assert ([x] + xs)[1..] == xs;
  }

  /** The moves of a walk are the first one and those of the walk from there. */
  lemma MovesCons(ticks: seq<Tick>, price: Price, liquidity: int, down: bool, taken: seq<int>, paid: seq<int>, n: nat)
    requires n > 0 && |taken| == |paid| == n + 1 <= |ticks|
    ensures Moves(ticks, price, liquidity, down, taken, paid, n)
            <==> MoveAt(ticks, price, liquidity, down, taken, paid, 0)
                 && Moves(ticks[1..], ticks[0].sqrtPriceX96, liquidity, down, taken[1..], paid[1..], n - 1)
  {
    var next := ticks[0].sqrtPriceX96;
    if Moves(ticks, price, liquidity, down, taken, paid, n) {
      forall i | 0 <= i <= n - 1 ensures MoveAt(ticks[1..], next, liquidity, down, taken[1..], paid[1..], i) {
        assert MoveAt(ticks, price, liquidity, down, taken, paid, i + 1);
      }
    }
    if MoveAt(ticks, price, liquidity, down, taken, paid, 0) && Moves(ticks[1..], next, liquidity, down, taken[1..], paid[1..], n - 1) {
      forall i | 0 <= i <= n ensures MoveAt(ticks, price, liquidity, down, taken, paid, i) {
        if i > 0 {
          assert MoveAt(ticks[1..], next, liquidity, down, taken[1..], paid[1..], i - 1);
        }
      }
    }
  }

  lemma SpendsCons(ticks: seq<Tick>, price: Price, liquidity: int, down: bool, r: int, out: int, limit: int,
                   taken: seq<int>, paid: seq<int>, n: nat)
    requires n > 0 && |taken| == |paid| == n + 1 <= |ticks|
    ensures Spends(ticks, price, liquidity, down, r, out, limit, taken, paid, n)
            <==> MoveAt(ticks, price, liquidity, down, taken, paid, 0)
                 && Spends(ticks[1..], ticks[0].sqrtPriceX96, liquidity, down, r - taken[0], out - paid[0], limit,
                           taken[1..], paid[1..], n - 1)
  {
    MovesCons(ticks, price, liquidity, down, taken, paid, n);
    assert taken[..n][1..] == taken[1..][..n - 1] && paid[..n][1..] == paid[1..][..n - 1];
  }

  /** The last move of a walk. */
  lemma LastMove(ticks: seq<Tick>, price: Price, liquidity: Amount, down: bool, r: Amount, out: int, limit: int, taken: int, paid: int)
    requires ticks != []
    ensures Spends(ticks, price, liquidity, down, r, out, limit, [taken], [paid], 0)
            <==> && Ahead(price, ticks[0].sqrtPriceX96, down)
                 && taken == FullIn(price, ticks[0].sqrtPriceX96, liquidity, down)
                 && paid == FullOut(price, ticks[0].sqrtPriceX96, liquidity, down)
                 && r <= taken && out == paid * r / taken
                 && limit == if r == taken then ticks[0].sqrtPriceX96 else price
  {
    var target := ticks[0].sqrtPriceX96;
    assert [taken][..0] == [] && [paid][..0] == [];
    if Ahead(price, target, down) {
      MoveIsFull(price, target, liquidity, down, taken, paid);
    }
    if r <= taken {
      FloorIff(out, paid * r, taken);
    }
    assert Moves(ticks, price, liquidity, down, [taken], [paid], 0) <==> MoveAt(ticks, price, liquidity, down, [taken], [paid], 0);
  }

  lemma WholeShare(out: int, r: Amount)
    ensures out * r / r == out
  {
    DivExact(out, r);
  }

  /** The last step of a walk, which spends all that is left. */
  lemma LastStepSpends(ticks: seq<Tick>, price: Price, liquidity: Amount, r: Amount, down: bool)
    requires ticks != [] && ComputeSwapStep(price, ticks[0].sqrtPriceX96, liquidity, r, down).amountIn == r
    ensures var target := ticks[0].sqrtPriceX96;
            var s := ComputeSwapStep(price, target, liquidity, r, down);
            Spends(ticks, price, liquidity, down, r, s.amountOut, s.nextSqrtPrice,
                   [FullIn(price, target, liquidity, down)], [FullOut(price, target, liquidity, down)], 0)
  {
    var target := ticks[0].sqrtPriceX96;
    var s := ComputeSwapStep(price, target, liquidity, r, down);
    var fullIn, fullOut := FullIn(price, target, liquidity, down), FullOut(price, target, liquidity, down);
    StepAgainstCapacity(price, target, liquidity, r, down);
    WholeShare(fullOut, r);
    LastMove(ticks, price, liquidity, down, r, s.amountOut, s.nextSqrtPrice, fullIn, fullOut);
  }

  /** A full step before the moves of the rest of the walk. */
  lemma FullStepSpends(ticks: seq<Tick>, price: Price, liquidity: Amount, r: int, down: bool, out: int, limit: int,
                       taken: seq<int>, paid: seq<int>, n: nat)
    requires ticks != [] && Ahead(price, ticks[0].sqrtPriceX96, down)
    requires var target := ticks[0].sqrtPriceX96;
             Spends(ticks[1..], target, liquidity, down, r - FullIn(price, target, liquidity, down),
                    out - FullOut(price, target, liquidity, down), limit, taken, paid, n)
    ensures var target := ticks[0].sqrtPriceX96;
            Spends(ticks, price, liquidity, down, r, out, limit, [FullIn(price, target, liquidity, down)] + taken,
                   [FullOut(price, target, liquidity, down)] + paid, n + 1)
  {
    var target := ticks[0].sqrtPriceX96;
    var fullIn, fullOut := FullIn(price, target, liquidity, down), FullOut(price, target, liquidity, down);
    MoveIsFull(price, target, liquidity, down, fullIn, fullOut);
    assert ([fullIn] + taken)[1..] == taken && ([fullOut] + paid)[1..] == paid;
    SpendsCons(ticks, price, liquidity, down, r, out, limit, [fullIn] + taken, [fullOut] + paid, n + 1);
  }

  /** A walk that spends its input has such moves. */
  lemma {:induction false} WalkSpends(ticks: seq<Tick>, price: Price, liquidity: Amount, r: Amount, down: bool)
    returns (taken: seq<int>, paid: seq<int>, n: nat)
    requires WalkTicks(ticks, price, liquidity, r, down).remaining <= 0
    ensures var w := WalkTicks(ticks, price, liquidity, r, down);
            Spends(ticks, price, liquidity, down, r, w.totalOut, w.price, taken, paid, n)
    decreases |ticks|
  {
    var target := ticks[0].sqrtPriceX96;
    var s := ComputeSwapStep(price, target, liquidity, r, down);
    var fullIn, fullOut := FullIn(price, target, liquidity, down), FullOut(price, target, liquidity, down);
    StepAgainstCapacity(price, target, liquidity, r, down);
    if s.reachedTarget && s.amountIn < r {
      var t, p, m := WalkSpends(ticks[1..], target, liquidity, r - s.amountIn, down);
      taken, paid, n := [fullIn] + t, [fullOut] + p, m + 1;
      MoveIsFull(price, target, liquidity, down, fullIn, fullOut);
      var w := WalkTicks(ticks, price, liquidity, r, down);
      assert taken[1..] == t && paid[1..] == p;
      SpendsCons(ticks, price, liquidity, down, r, w.totalOut, w.price, taken, paid, n);
    } else {
      taken, paid, n := [fullIn], [fullOut], 0;
      WholeShare(fullOut, r);
      LastMove(ticks, price, liquidity, down, r, s.amountOut, s.nextSqrtPrice, fullIn, fullOut);
    }
  }

  lemma {:induction false} SpendsPositive(ticks: seq<Tick>, price: Price, liquidity: Amount, down: bool, r: int, out: int,
                                          limit: int, taken: seq<int>, paid: seq<int>, n: nat)
    requires Spends(ticks, price, liquidity, down, r, out, limit, taken, paid, n)
    ensures r > 0
  {
    if n == 0 {
      assert taken[..0] == [];
    } else {
      SpendsCons(ticks, price, liquidity, down, r, out, limit, taken, paid, n);
      SpendsPositive(ticks[1..], ticks[0].sqrtPriceX96, liquidity, down, r - taken[0], out - paid[0], limit, taken[1..], paid[1..], n - 1);
      MoveIsFull(price, ticks[0].sqrtPriceX96, liquidity, down, taken[0], paid[0]);
      FullStepPays(price, ticks[0].sqrtPriceX96, liquidity, down);
    }
  }

  /** And such moves are what the walk does. */
  lemma {:induction false} SpendsWalks(ticks: seq<Tick>, price: Price, liquidity: Amount, down: bool, r: Amount, out: int,
                                       limit: int, taken: seq<int>, paid: seq<int>, n: nat)
    requires Spends(ticks, price, liquidity, down, r, out, limit, taken, paid, n)
    ensures var w := WalkTicks(ticks, price, liquidity, r, down); w.remaining <= 0 && w.totalOut == out && w.price == limit
    decreases n
  {
    var target := ticks[0].sqrtPriceX96;
    StepAgainstCapacity(price, target, liquidity, r, down);
    FullStepPays(price, if Ahead(price, target, down) then target else price, liquidity, down);
    if n == 0 {
      assert taken == [taken[0]] && paid == [paid[0]];
      LastMove(ticks, price, liquidity, down, r, out, limit, taken[0], paid[0]);
      WholeShare(paid[0], r);
    } else {
      SpendsCons(ticks, price, liquidity, down, r, out, limit, taken, paid, n);
      SpendsPositive(ticks[1..], target, liquidity, down, r - taken[0], out - paid[0], limit, taken[1..], paid[1..], n - 1);
      MoveIsFull(price, target, liquidity, down, taken[0], paid[0]);
      SpendsWalks(ticks[1..], target, liquidity, down, r - taken[0], out - paid[0], limit, taken[1..], paid[1..], n - 1);
    }
  }

  // ----- the quote ---------------------------------------------------------------

  function Index(t: Tick): int {
    t.index
  }

  ghost predicate SameTies(path: seq<Tick>, ticks: seq<Tick>, key: Tick -> int) {
    forall k :: WithKey(path, key, k) == WithKey(ticks, key, k)
  }

  /** The pool's ticks in visiting order: from the highest index down for token0 input, from the
      lowest up for token1 input, ticks of one index as the pool lists them. */
  ghost predicate VisitingOrder(pool: Pool, tokenIn: string, path: seq<Tick>) {
    && SameTies(path, pool.ticks, Index)
    && forall i, j :: 0 <= i < j < |path| ==>
         if tokenIn == pool.token0 then path[i].index >= path[j].index else path[i].index <= path[j].index
  }

  /** Ranks that are the index, or its negation. */
  ghost predicate Ranks(key: Tick -> int, down: bool) {
    forall t :: key(t) == if down then -t.index else t.index
  }

  lemma {:induction false} TiesByRank(ticks: seq<Tick>, key: Tick -> int, down: bool, k: int)
    requires Ranks(key, down)
    ensures WithKey(ticks, key, k) == WithKey(ticks, Index, if down then -k else k)
  {
    if ticks != [] {
      TiesByRank(ticks[..|ticks| - 1], key, down, k);
    }
  }

  lemma TiesIff(path: seq<Tick>, ticks: seq<Tick>, key: Tick -> int, down: bool)
    requires Ranks(key, down)
    ensures SameTies(path, ticks, Index) <==> SameTies(path, ticks, key)
  {
    if SameTies(path, ticks, Index) {
      forall k ensures WithKey(path, key, k) == WithKey(ticks, key, k) {
        TiesByRank(path, key, down, k);
        TiesByRank(ticks, key, down, k);
      }
    }
    if SameTies(path, ticks, key) {
      forall k ensures WithKey(path, Index, k) == WithKey(ticks, Index, k) {
        TiesByRank(path, key, down, if down then -k else k);
        TiesByRank(ticks, key, down, if down then -k else k);
      }
    }
  }

  lemma VisitingOrderIsLadder(pool: Pool, tokenIn: string, path: seq<Tick>)
    ensures VisitingOrder(pool, tokenIn, path) <==> path == Ladder(pool.ticks, tokenIn == pool.token0)
  {
    var down := tokenIn == pool.token0;
    var key := (t: Tick) => if down then -t.index else t.index;
    var ladder := Ladder(pool.ticks, down);
    assert ladder == Sort(pool.ticks, key);
    SortIsStableSort(pool.ticks, key);
    TiesIff(path, pool.ticks, key, down);
    assert SameTies(ladder, pool.ticks, key);
    if VisitingOrder(pool, tokenIn, path) {
      StableSortUnique(path, ladder, key);
    }
    if path == ladder {
      forall i, j | 0 <= i < j < |path| ensures if down then path[i].index >= path[j].index else path[i].index <= path[j].index {
        assert key(path[i]) <= key(path[j]);
      }
    }
  }

  /** What the input leaves to be swapped, `fee` being the tier's share of it rounded down. */
  ghost predicate Valid(pool: Pool, tokenIn: string, amountIn: int, slippage: int) {
    && 0 <= slippage <= 10_000 && pool.feeTier > 0 && amountIn > 0 && pool.liquidity > 0
    && (tokenIn == pool.token0 || tokenIn == pool.token1)
  }

  /** The quote accounts for the input: the fee, and moves down from the pool's price for token0
      input or up for token1 input that spend the rest. */
  ghost predicate Account(pool: Pool, tokenIn: string, amountIn: int, slippage: int, q: Quote,
                          path: seq<Tick>, taken: seq<int>, paid: seq<int>, n: nat) {
    && VisitingOrder(pool, tokenIn, path)
    && IsFloor(q.fee, amountIn * pool.feeTier, 1_000_000)
    && Spends(path, pool.sqrtPriceX96, pool.liquidity, tokenIn == pool.token0, amountIn - q.fee,
              q.amountOut, q.sqrtPriceLimitX96, taken, paid, n)
    && IsFloor(q.minimumReceived, q.amountOut * (10_000 - slippage), 10_000)
  }

  lemma AccountOfQuote(pool: Pool, tokenIn: string, amountIn: int, slippage: int, q: Quote)
    returns (path: seq<Tick>, taken: seq<int>, paid: seq<int>, n: nat)
    requires GetQuote(pool, tokenIn, amountIn, slippage) == Ok(q)
    ensures Valid(pool, tokenIn, amountIn, slippage) && Account(pool, tokenIn, amountIn, slippage, q, path, taken, paid, n)
  {
    path := Ladder(pool.ticks, tokenIn == pool.token0);
    VisitingOrderIsLadder(pool, tokenIn, path);
    FloorIff(q.fee, amountIn * pool.feeTier, 1_000_000);
    FloorIff(q.minimumReceived, q.amountOut * (10_000 - slippage), 10_000);
    taken, paid, n := WalkSpends(path, pool.sqrtPriceX96, pool.liquidity, amountIn - q.fee, tokenIn == pool.token0);
  }

  lemma QuoteOfAccount(pool: Pool, tokenIn: string, amountIn: int, slippage: int, q: Quote,
                       path: seq<Tick>, taken: seq<int>, paid: seq<int>, n: nat)
    requires Valid(pool, tokenIn, amountIn, slippage) && Account(pool, tokenIn, amountIn, slippage, q, path, taken, paid, n)
    ensures GetQuote(pool, tokenIn, amountIn, slippage) == Ok(q)
  {
    var down, price, r := tokenIn == pool.token0, pool.sqrtPriceX96, amountIn - q.fee;
    VisitingOrderIsLadder(pool, tokenIn, path);
    FloorIff(q.fee, amountIn * pool.feeTier, 1_000_000);
    FloorIff(q.minimumReceived, q.amountOut * (10_000 - slippage), 10_000);
    SpendsPositive(path, price, pool.liquidity, down, r, q.amountOut, q.sqrtPriceLimitX96, taken, paid, n);
    SpendsWalks(path, price, pool.liquidity, down, r, q.amountOut, q.sqrtPriceLimitX96, taken, paid, n);
    WalkSpendsIffFits(path, price, pool.liquidity, r, down);
  }

  /** A quote is returned if and only if the request is valid and the quote accounts for its input. */
  lemma QuoteIffAccount(pool: Pool, tokenIn: string, amountIn: int, slippage: int, q: Quote)
    ensures GetQuote(pool, tokenIn, amountIn, slippage) == Ok(q)
            <==> Valid(pool, tokenIn, amountIn, slippage)
                 && exists path, taken, paid, n :: Account(pool, tokenIn, amountIn, slippage, q, path, taken, paid, n)
  {
    if GetQuote(pool, tokenIn, amountIn, slippage) == Ok(q) {
      var path, taken, paid, n := AccountOfQuote(pool, tokenIn, amountIn, slippage, q);
    }
    if Valid(pool, tokenIn, amountIn, slippage) {
      if path, taken, paid, n :| Account(pool, tokenIn, amountIn, slippage, q, path, taken, paid, n) {
        QuoteOfAccount(pool, tokenIn, amountIn, slippage, q, path, taken, paid, n);
      }
    }
  }

  /** Token0 input never raises the price and token1 input never lowers it. */
  lemma PriceMovesWithToken(pool: Pool, tokenIn: string, amountIn: int, slippage: int)
    requires GetQuote(pool, tokenIn, amountIn, slippage).Ok?
    ensures var q := GetQuote(pool, tokenIn, amountIn, slippage).value;
            if tokenIn == pool.token0 then q.sqrtPriceLimitX96 <= pool.sqrtPriceX96
            else tokenIn == pool.token1 && q.sqrtPriceLimitX96 >= pool.sqrtPriceX96
  {
    QuoteAccountsForEverything(pool, tokenIn, amountIn, slippage);
  }

  /** The first tick on the way absorbs the whole input: the quote is its share of one full move. */
  lemma FirstTickAbsorbs(pool: Pool, tokenIn: string, amountIn: int, slippage: int, q: Quote,
                         path: seq<Tick>, taken: int, paid: int)
    requires Valid(pool, tokenIn, amountIn, slippage) && VisitingOrder(pool, tokenIn, path) && path != []
    requires Ahead(pool.sqrtPriceX96, path[0].sqrtPriceX96, tokenIn == pool.token0)
    requires FullMove(pool.sqrtPriceX96, path[0].sqrtPriceX96, pool.liquidity, taken, paid)
    requires IsFloor(q.fee, amountIn * pool.feeTier, 1_000_000) && 0 < amountIn - q.fee <= taken
    requires IsFloor(q.amountOut, paid * (amountIn - q.fee), taken)
    requires IsFloor(q.minimumReceived, q.amountOut * (10_000 - slippage), 10_000)
    requires q.sqrtPriceLimitX96 == if amountIn - q.fee == taken then path[0].sqrtPriceX96 else pool.sqrtPriceX96
    ensures GetQuote(pool, tokenIn, amountIn, slippage) == Ok(q)
  {
    assert [taken][..0] == [] && [paid][..0] == [];
    assert MoveAt(path, pool.sqrtPriceX96, pool.liquidity, tokenIn == pool.token0, [taken], [paid], 0);
    QuoteOfAccount(pool, tokenIn, amountIn, slippage, q, path, [taken], [paid], 0);
  }

  /** Every refusal: the checks in the order the request meets them, then an input the fee uses up,
      then one that no account can spend. */
  lemma WhyRefused(pool: Pool, tokenIn: string, amountIn: int, slippage: int, fee: int)
    requires IsFloor(fee, amountIn * pool.feeTier, 1_000_000)
    ensures var r := GetQuote(pool, tokenIn, amountIn, slippage);
            if slippage < 0 || slippage > 10_000 then r == Err(BadSlippage)
            else if pool.feeTier <= 0 then r == Err(BadFeeTier)
            else if amountIn <= 0 then r == Err(NonPositiveAmount)
            else if tokenIn != pool.token0 && tokenIn != pool.token1 then r == Err(BadDirection)
            else if pool.liquidity <= 0 || amountIn - fee <= 0 then r == Err(ZeroLiquidity)
            else r.Ok? || r == Err(ExceedsLiquidity)
  {
    FloorIff(fee, amountIn * pool.feeTier, 1_000_000);
    if Valid(pool, tokenIn, amountIn, slippage) && amountIn - fee > 0 {
      WalkSpendsIffFits(Ladder(pool.ticks, tokenIn == pool.token0), pool.sqrtPriceX96, pool.liquidity,
                        amountIn - fee, tokenIn == pool.token0);
    }
  }
}
