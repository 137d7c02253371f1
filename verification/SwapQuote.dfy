/** The local swap simulation of packages/sdk/src/quote.ts: one integer step against a
    tick, the loop over the sorted tick ladder, and the fee, failure and slippage rules
    around it. Liquidity stays constant along the ladder, as in the source. */
module SwapQuote {
  import opened IntMath
  import opened Sorting
  import opened Wrappers

  type Price = x: int | x > 0 witness 1
  type Amount = x: int | x > 0 witness 1

  datatype Tick = Tick(index: int, sqrtPriceX96: Price)

  datatype Pool = Pool(token0: string, token1: string, sqrtPriceX96: Price, liquidity: int,
                       feeTier: int, ticks: seq<Tick>)

  datatype StepResult = StepResult(amountIn: nat, amountOut: nat, nextSqrtPrice: Price, reachedTarget: bool)

  datatype QuoteError =
    | BadSlippage | BadFeeTier | NonPositiveAmount | BadDirection | ZeroLiquidity | ExceedsLiquidity

  datatype Quote = Quote(amountOut: int, fee: int, minimumReceived: int, sqrtPriceLimitX96: Price)

  // ----- one step ----------------------------------------------------------------

  /** The price a step aims for: the target when it lies in the swap direction, else no move. */
  function StepTarget(current: Price, target: Price, zeroForOne: bool): Price {
    if zeroForOne then (if target < current then target else current)
    else (if target > current then target else current)
  }

  /** Input and output of moving the price all the way to `next`. */
  function FullIn(current: Price, next: Price, liquidity: Amount, zeroForOne: bool): int {
    if zeroForOne then (liquidity * (current - next)) / current
    else (liquidity * (next - current)) / next
  }

  function FullOut(current: Price, next: Price, liquidity: Amount, zeroForOne: bool): int {
    if zeroForOne then (liquidity * (current - next)) / next
    else (liquidity * (next - current)) / current
  }

  ghost predicate InDirection(from: int, to: int, zeroForOne: bool) {
    if zeroForOne then to <= from else from <= to
  }

  /** Moving to a price in the swap direction takes nothing negative and pays at least what it takes. */
  lemma FullStepPays(current: Price, next: Price, liquidity: Amount, zeroForOne: bool)
    requires InDirection(current, next, zeroForOne)
    ensures 0 <= FullIn(current, next, liquidity, zeroForOne) <= FullOut(current, next, liquidity, zeroForOne)
  {
    var d := if zeroForOne then current - next else next - current;
    MulMonotone(0, d, liquidity);
    assert liquidity * d == d * liquidity;
    if zeroForOne {
      DivAntitone(liquidity * d, next, current);
    } else {
      DivAntitone(liquidity * d, current, next);
    }
  }

  lemma QuotientRemainder(a: int, b: int)
    requires b > 0
    ensures 0 <= a - a / b * b < b
  {
    DivIff(a, b, a / b);
    DivIff(a, b, a / b + 1);
  }

  /** A full step trades at the ratio of the two prices up to rounding, and the move back over
      the same stretch in the other direction takes and pays the same amounts again. */
  lemma FullStepRate(current: Price, next: Price, liquidity: Amount, zeroForOne: bool)
    requires InDirection(current, next, zeroForOne)
    ensures var high := if zeroForOne then current else next;
            var low := if zeroForOne then next else current;
            -high < FullIn(current, next, liquidity, zeroForOne) * high
                    - FullOut(current, next, liquidity, zeroForOne) * low < low
    ensures FullIn(next, current, liquidity, !zeroForOne) == FullIn(current, next, liquidity, zeroForOne)
    ensures FullOut(next, current, liquidity, !zeroForOne) == FullOut(current, next, liquidity, zeroForOne)
  {
    var high := if zeroForOne then current else next;
    var low := if zeroForOne then next else current;
    var a := liquidity * (high - low);
    QuotientRemainder(a, high);
    QuotientRemainder(a, low);
  }

  /** A pro-rata share of `out` for `r` out of `whole`. */
  lemma ShareBounds(out: int, r: int, whole: int)
    requires 0 < r <= whole <= out
    ensures r <= (out * r) / whole <= out
  {
    MulMonotone(whole, out, r);
    assert r * whole == whole * r && out * r >= whole * r;
    DivIff(out * r, whole, r);
    MulMonotone(r, whole, out);
    assert r * out == out * r && whole * out == out * whole;
    assert (out + 1) * whole == out * whole + whole;
    DivAtMost(out * r, whole, out);
  }

  /** One step never takes more than remains, pays at least what it takes, moves only in the
      swap direction and never past its target, and either spends everything or gets there. */
  function ComputeSwapStep(current: Price, target: Price, liquidity: Amount, remaining: Amount, zeroForOne: bool)
    : (s: StepResult)
    ensures s.amountIn <= remaining && s.amountIn <= s.amountOut
    ensures InDirection(current, s.nextSqrtPrice, zeroForOne)
    ensures InDirection(s.nextSqrtPrice, StepTarget(current, target, zeroForOne), zeroForOne)
    ensures s.reachedTarget ==> s.nextSqrtPrice == target
    ensures s.amountIn == remaining || s.nextSqrtPrice == StepTarget(current, target, zeroForOne)
    ensures !s.reachedTarget && s.amountIn < remaining ==> !InDirection(current, target, zeroForOne)
  {
    var next := StepTarget(current, target, zeroForOne);
    FullStepPays(current, next, liquidity, zeroForOne);
    var amountIn := FullIn(current, next, liquidity, zeroForOne);
    var amountOut := FullOut(current, next, liquidity, zeroForOne);
    if amountIn > remaining then
      ShareBounds(amountOut, remaining, amountIn);
      StepResult(remaining, (amountOut * remaining) / amountIn, current, false)
    else
      StepResult(amountIn, amountOut, next, next == target)
  }

  /** A step that stops early pays for its input at the rate of the full step, rounded down. */
  lemma PartialStepRate(current: Price, target: Price, liquidity: Amount, remaining: Amount, zeroForOne: bool)
    requires FullIn(current, StepTarget(current, target, zeroForOne), liquidity, zeroForOne) > remaining
    ensures var next := StepTarget(current, target, zeroForOne);
            var fullIn, fullOut := FullIn(current, next, liquidity, zeroForOne), FullOut(current, next, liquidity, zeroForOne);
            var s := ComputeSwapStep(current, target, liquidity, remaining, zeroForOne);
            s.amountIn == remaining && 0 <= fullOut * remaining - s.amountOut * fullIn < fullIn
  {
    var next := StepTarget(current, target, zeroForOne);
    QuotientRemainder(FullOut(current, next, liquidity, zeroForOne) * remaining, FullIn(current, next, liquidity, zeroForOne));
  }

  // ----- the loop over the ladder ------------------------------------------------

  datatype Walk = Walk(steps: seq<StepResult>, remaining: int, totalOut: int, price: Price)

  /** What the loop does from `price` with `remaining` input left. */
  function WalkTicks(ticks: seq<Tick>, price: Price, liquidity: Amount, remaining: int, zeroForOne: bool): Walk {
    if ticks == [] || remaining <= 0 then Walk([], remaining, 0, price)
    else
      var s := ComputeSwapStep(price, ticks[0].sqrtPriceX96, liquidity, remaining, zeroForOne);
      if !s.reachedTarget then Walk([s], remaining - s.amountIn, s.amountOut, s.nextSqrtPrice)
      else
        var rest := WalkTicks(ticks[1..], s.nextSqrtPrice, liquidity, remaining - s.amountIn, zeroForOne);
        Walk([s] + rest.steps, rest.remaining, s.amountOut + rest.totalOut, rest.price)
  }

  /** The most input the ladder can absorb: full steps up to the first tick on the wrong side. */
  function Capacity(ticks: seq<Tick>, price: Price, liquidity: Amount, zeroForOne: bool): int {
    if ticks == [] then 0
    else
      var target := ticks[0].sqrtPriceX96;
      if StepTarget(price, target, zeroForOne) != target then 0
      else FullIn(price, target, liquidity, zeroForOne) + Capacity(ticks[1..], target, liquidity, zeroForOne)
  }

  lemma {:induction false} CapacityNonNegative(ticks: seq<Tick>, price: Price, liquidity: Amount, zeroForOne: bool)
    ensures Capacity(ticks, price, liquidity, zeroForOne) >= 0
  {
    if ticks != [] {
      var target := ticks[0].sqrtPriceX96;
      if StepTarget(price, target, zeroForOne) == target {
        FullStepPays(price, target, liquidity, zeroForOne);
        CapacityNonNegative(ticks[1..], target, liquidity, zeroForOne);
      }
    }
  }

  /** A step against a tick ahead takes the full input or everything left; a tick behind takes nothing. */
  lemma StepAgainstCapacity(price: Price, target: Price, liquidity: Amount, remaining: Amount, zeroForOne: bool)
    ensures var s := ComputeSwapStep(price, target, liquidity, remaining, zeroForOne);
            var ahead := StepTarget(price, target, zeroForOne) == target;
            var fullIn := FullIn(price, target, liquidity, zeroForOne);
            && (!ahead ==> s.amountIn == 0 && s.amountOut == 0 && !s.reachedTarget)
            && (ahead ==> fullIn >= 0 && s.reachedTarget == (fullIn <= remaining))
            && (s.reachedTarget ==> s.amountIn == fullIn)
  {
    var next := StepTarget(price, target, zeroForOne);
    FullStepPays(price, next, liquidity, zeroForOne);
    assert liquidity * 0 == 0;
    assert 0 / price == 0;
  }

  /** The walk spends everything exactly when the input fits the ladder, and pays at least what it spends. */
  lemma {:induction false} WalkSpendsIffFits(ticks: seq<Tick>, price: Price, liquidity: Amount, remaining: nat, zeroForOne: bool)
    ensures var w := WalkTicks(ticks, price, liquidity, remaining, zeroForOne);
            && (w.remaining <= 0 <==> remaining <= Capacity(ticks, price, liquidity, zeroForOne))
            && 0 <= w.remaining <= remaining
            && w.totalOut >= remaining - w.remaining
    decreases |ticks|
  {
    CapacityNonNegative(ticks, price, liquidity, zeroForOne);
    if ticks != [] && remaining > 0 {
      var target := ticks[0].sqrtPriceX96;
      var s := ComputeSwapStep(price, target, liquidity, remaining, zeroForOne);
      StepAgainstCapacity(price, target, liquidity, remaining, zeroForOne);
      if s.reachedTarget {
        WalkSpendsIffFits(ticks[1..], target, liquidity, remaining - s.amountIn, zeroForOne);
      } else {
        CapacityNonNegative(ticks[1..], target, liquidity, zeroForOne);
      }
    }
  }

  lemma ShareMonotone(out: nat, r: nat, r': nat, whole: Amount)
    requires r <= r'
    ensures (out * r) / whole <= (out * r') / whole
  {
    MulMonotone(r, r', out);
    assert r * out == out * r && r' * out == out * r';
    DivMonotone(out * r, out * r', whole);
  }

  /** Against one tick, a larger input pays no less; once the smaller one arrives, both take the same step. */
  lemma StepMonotone(price: Price, target: Price, liquidity: Amount, r: Amount, r': Amount, zeroForOne: bool)
    requires r <= r'
    ensures var s := ComputeSwapStep(price, target, liquidity, r, zeroForOne);
            var s' := ComputeSwapStep(price, target, liquidity, r', zeroForOne);
            s.amountOut <= s'.amountOut && (s.reachedTarget ==> s' == s)
  {
    var next := StepTarget(price, target, zeroForOne);
    var fullIn := FullIn(price, next, liquidity, zeroForOne);
    var fullOut := FullOut(price, next, liquidity, zeroForOne);
    FullStepPays(price, next, liquidity, zeroForOne);
    if fullIn > r' {
      ShareMonotone(fullOut, r, r', fullIn);
    } else if fullIn > r {
      ShareBounds(fullOut, r, fullIn);
    }
  }

  lemma WalkTakesStep(ticks: seq<Tick>, price: Price, liquidity: Amount, r: Amount, zeroForOne: bool)
    requires ticks != []
    ensures var s := ComputeSwapStep(price, ticks[0].sqrtPriceX96, liquidity, r, zeroForOne);
            var out := WalkTicks(ticks, price, liquidity, r, zeroForOne).totalOut;
            && out >= s.amountOut
            && (!s.reachedTarget ==> out == s.amountOut)
            && (s.reachedTarget ==>
                  out == s.amountOut
                         + WalkTicks(ticks[1..], s.nextSqrtPrice, liquidity, r - s.amountIn, zeroForOne).totalOut)
  {
    var s := ComputeSwapStep(price, ticks[0].sqrtPriceX96, liquidity, r, zeroForOne);
    if s.reachedTarget {
      WalkSpendsIffFits(ticks[1..], s.nextSqrtPrice, liquidity, r - s.amountIn, zeroForOne);
    }
  }

  /** A larger input never buys less, along any ladder. */
  lemma {:induction false} WalkMonotone(ticks: seq<Tick>, price: Price, liquidity: Amount, r: nat, r': nat, zeroForOne: bool)
    requires r <= r'
    ensures WalkTicks(ticks, price, liquidity, r, zeroForOne).totalOut
         <= WalkTicks(ticks, price, liquidity, r', zeroForOne).totalOut
    decreases |ticks|
  {
    if ticks == [] || r == 0 {
      WalkSpendsIffFits(ticks, price, liquidity, r', zeroForOne);
    } else {
      WalkTakesStep(ticks, price, liquidity, r, zeroForOne);
      WalkTakesStep(ticks, price, liquidity, r', zeroForOne);
      StepMonotone(price, ticks[0].sqrtPriceX96, liquidity, r, r', zeroForOne);
      var s := ComputeSwapStep(price, ticks[0].sqrtPriceX96, liquidity, r, zeroForOne);
      if s.reachedTarget {
        WalkMonotone(ticks[1..], s.nextSqrtPrice, liquidity, r - s.amountIn, r' - s.amountIn, zeroForOne);
      }
    }
  }

  ghost function SumIn(steps: seq<StepResult>): int {
    if steps == [] then 0 else steps[0].amountIn + SumIn(steps[1..])
  }

  ghost function SumOut(steps: seq<StepResult>): int {
    if steps == [] then 0 else steps[0].amountOut + SumOut(steps[1..])
  }

  /** The price before step `i` of a walk starting at `price`. */
  ghost function PriceBefore(steps: seq<StepResult>, price: Price, i: nat): Price
    requires i <= |steps|
  {
    if i == 0 then price else steps[i - 1].nextSqrtPrice
  }

  /** Step `i` moves in the swap direction and stops at or before the tick it was aimed at. */
  ghost predicate StepStaysShort(ticks: seq<Tick>, steps: seq<StepResult>, price: Price, zeroForOne: bool, i: nat)
    requires i < |steps| <= |ticks|
  {
    && InDirection(PriceBefore(steps, price, i), steps[i].nextSqrtPrice, zeroForOne)
    && InDirection(steps[i].nextSqrtPrice, ticks[i].sqrtPriceX96, zeroForOne)
  }

  ghost predicate Conserved(w: Walk, price: Price, remaining: int, zeroForOne: bool) {
    && SumIn(w.steps) + w.remaining == remaining
    && SumOut(w.steps) == w.totalOut
    && w.price == PriceBefore(w.steps, price, |w.steps|)
    && InDirection(price, w.price, zeroForOne)
  }

  lemma PrependConserved(s: StepResult, rest: Walk, price: Price, remaining: int, zeroForOne: bool)
    requires Conserved(rest, s.nextSqrtPrice, remaining - s.amountIn, zeroForOne)
    requires InDirection(price, s.nextSqrtPrice, zeroForOne)
    ensures Conserved(Walk([s] + rest.steps, rest.remaining, s.amountOut + rest.totalOut, rest.price),
                      price, remaining, zeroForOne)
  {
    assert ([s] + rest.steps)[1..] == rest.steps;
  }

  /** Nothing is lost between the steps of a walk. */
  lemma {:induction false} WalkConserves(ticks: seq<Tick>, price: Price, liquidity: Amount, remaining: int, zeroForOne: bool)
    ensures Conserved(WalkTicks(ticks, price, liquidity, remaining, zeroForOne), price, remaining, zeroForOne)
    decreases |ticks|
  {
    if ticks != [] && remaining > 0 {
      var s := ComputeSwapStep(price, ticks[0].sqrtPriceX96, liquidity, remaining, zeroForOne);
      if s.reachedTarget {
        var rest := WalkTicks(ticks[1..], s.nextSqrtPrice, liquidity, remaining - s.amountIn, zeroForOne);
        WalkConserves(ticks[1..], s.nextSqrtPrice, liquidity, remaining - s.amountIn, zeroForOne);
        PrependConserved(s, rest, price, remaining, zeroForOne);
      } else {
        PrependConserved(s, Walk([], remaining - s.amountIn, 0, s.nextSqrtPrice), price, remaining, zeroForOne);
        assert [s] + [] == [s];
      }
    }
  }

  ghost predicate StaysShort(ticks: seq<Tick>, steps: seq<StepResult>, price: Price, zeroForOne: bool) {
    && |steps| <= |ticks|
    && forall i :: 0 <= i < |steps| ==> StepStaysShort(ticks, steps, price, zeroForOne, i)
  }

  lemma PrependStaysShort(ticks: seq<Tick>, s: StepResult, rest: seq<StepResult>, price: Price, zeroForOne: bool)
    requires ticks != [] && StaysShort(ticks[1..], rest, s.nextSqrtPrice, zeroForOne)
    requires InDirection(price, s.nextSqrtPrice, zeroForOne)
    requires InDirection(s.nextSqrtPrice, ticks[0].sqrtPriceX96, zeroForOne)
    ensures StaysShort(ticks, [s] + rest, price, zeroForOne)
  {
    var steps := [s] + rest;
    forall i | 0 <= i < |steps| ensures StepStaysShort(ticks, steps, price, zeroForOne, i) {
      if i > 0 {
        assert StepStaysShort(ticks[1..], rest, s.nextSqrtPrice, zeroForOne, i - 1);
      }
    }
  }

  lemma SpentStepStaysShort(price: Price, target: Price, liquidity: Amount, remaining: Amount, zeroForOne: bool)
    requires ComputeSwapStep(price, target, liquidity, remaining, zeroForOne).amountIn == remaining
    ensures InDirection(ComputeSwapStep(price, target, liquidity, remaining, zeroForOne).nextSqrtPrice, target, zeroForOne)
  {
    assert liquidity * 0 == 0;
    assert 0 / price == 0;
  }

  /** A walk that spends its whole input never passes a tick it visited. */
  lemma {:induction false} WalkStaysShort(ticks: seq<Tick>, price: Price, liquidity: Amount, remaining: int, zeroForOne: bool)
    requires WalkTicks(ticks, price, liquidity, remaining, zeroForOne).remaining <= 0
    ensures StaysShort(ticks, WalkTicks(ticks, price, liquidity, remaining, zeroForOne).steps, price, zeroForOne)
    decreases |ticks|
  {
    if ticks != [] && remaining > 0 {
      var s := ComputeSwapStep(price, ticks[0].sqrtPriceX96, liquidity, remaining, zeroForOne);
      if s.reachedTarget {
        WalkStaysShort(ticks[1..], s.nextSqrtPrice, liquidity, remaining - s.amountIn, zeroForOne);
        PrependStaysShort(ticks, s,
          WalkTicks(ticks[1..], s.nextSqrtPrice, liquidity, remaining - s.amountIn, zeroForOne).steps, price, zeroForOne);
      } else {
        SpentStepStaysShort(price, ticks[0].sqrtPriceX96, liquidity, remaining, zeroForOne);
        PrependStaysShort(ticks, s, [], price, zeroForOne);
        assert [s] + [] == [s];
      }
    }
  }

  // ----- the quote ---------------------------------------------------------------

  /** Ticks in visiting order: descending index for token0 input, ascending for token1 input. */
  function Ladder(ticks: seq<Tick>, zeroForOne: bool): seq<Tick> {
    Sort(ticks, (t: Tick) => if zeroForOne then -t.index else t.index)
  }

  function FeeOf(amountIn: int, feeTier: int): int {
    (amountIn * feeTier) / 1_000_000
  }

  function Direction(pool: Pool, tokenIn: string): Result<bool, QuoteError> {
    if tokenIn == pool.token0 then Ok(true)
    else if tokenIn == pool.token1 then Ok(false)
    else Err(BadDirection)
  }

  function QuoteWalk(pool: Pool, tokenIn: string, amountIn: int): Walk
    requires Direction(pool, tokenIn).Ok? && pool.liquidity > 0
  {
    var zeroForOne := Direction(pool, tokenIn).value;
    WalkTicks(Ladder(pool.ticks, zeroForOne), pool.sqrtPriceX96, pool.liquidity,
              amountIn - FeeOf(amountIn, pool.feeTier), zeroForOne)
  }

  /** The quote as a function of the finished walk. */
  function GetQuote(pool: Pool, tokenIn: string, amountIn: int, slippage: int): Result<Quote, QuoteError> {
    if slippage < 0 || slippage > 10_000 then Err(BadSlippage)
    else if pool.feeTier <= 0 then Err(BadFeeTier)
    else if amountIn <= 0 then Err(NonPositiveAmount)
    else if Direction(pool, tokenIn).Err? then Err(Direction(pool, tokenIn).error)
    else if pool.liquidity <= 0 then Err(ZeroLiquidity)
    else
      var w := QuoteWalk(pool, tokenIn, amountIn);
      if w.remaining > 0 then Err(ExceedsLiquidity)
      else if w.totalOut <= 0 then Err(ZeroLiquidity)
      else Ok(Quote(w.totalOut, FeeOf(amountIn, pool.feeTier),
                    (w.totalOut * (10_000 - slippage)) / 10_000, w.price))
  }

  /** The source's loop: remaining input, output and price updated tick by tick. */
  method WalkLadder(sortedTicks: seq<Tick>, start: Price, liquidity: Amount, amountIn: int, zeroForOne: bool)
    returns (remainingIn: int, totalOut: int, sqrtPrice: Price)
    ensures var w := WalkTicks(sortedTicks, start, liquidity, amountIn, zeroForOne);
            remainingIn == w.remaining && totalOut == w.totalOut && sqrtPrice == w.price
  {
    remainingIn, totalOut, sqrtPrice := amountIn, 0, start;
    ghost var whole := WalkTicks(sortedTicks, start, liquidity, amountIn, zeroForOne);
    for i := 0 to |sortedTicks|
      invariant var w := WalkTicks(sortedTicks[i..], sqrtPrice, liquidity, remainingIn, zeroForOne);
                && w.remaining == whole.remaining
                && totalOut + w.totalOut == whole.totalOut
                && w.price == whole.price
    {
      if remainingIn <= 0 { break; }
      var step := ComputeSwapStep(sqrtPrice, sortedTicks[i].sqrtPriceX96, liquidity, remainingIn, zeroForOne);
      assert sortedTicks[i..][1..] == sortedTicks[i + 1..];
      totalOut := totalOut + step.amountOut;
      remainingIn := remainingIn - step.amountIn;
      sqrtPrice := step.nextSqrtPrice;
      if !step.reachedTarget { break; }
    }
  }

  method GetSwapQuote(pool: Pool, tokenIn: string, amountIn: int, slippage: int) returns (r: Result<Quote, QuoteError>)
    ensures r == GetQuote(pool, tokenIn, amountIn, slippage)
  {
    if slippage < 0 || slippage > 10_000 { return Err(BadSlippage); }
    if pool.feeTier <= 0 { return Err(BadFeeTier); }
    if amountIn <= 0 { return Err(NonPositiveAmount); }
    var direction := Direction(pool, tokenIn);
    if direction.Err? { return Err(direction.error); }
    var zeroForOne := direction.value;
    if pool.liquidity <= 0 { return Err(ZeroLiquidity); }
    var feeAmount := (amountIn * pool.feeTier) / 1_000_000;
    var sortedTicks := Ladder(pool.ticks, zeroForOne);
    var remainingIn, totalOut, sqrtPrice :=
      WalkLadder(sortedTicks, pool.sqrtPriceX96, pool.liquidity, amountIn - feeAmount, zeroForOne);
    if remainingIn > 0 { return Err(ExceedsLiquidity); }
    if totalOut <= 0 { return Err(ZeroLiquidity); }
    var minimumReceived := (totalOut * (10_000 - slippage)) / 10_000;
    return Ok(Quote(totalOut, feeAmount, minimumReceived, sqrtPrice));
  }

  // ----- what a quote promises ---------------------------------------------------

  predicate ValidRequest(pool: Pool, tokenIn: string, amountIn: int, slippage: int) {
    && 0 <= slippage <= 10_000 && pool.feeTier > 0 && amountIn > 0
    && Direction(pool, tokenIn).Ok? && pool.liquidity > 0
  }

  function AfterFee(pool: Pool, amountIn: int): int {
    amountIn - FeeOf(amountIn, pool.feeTier)
  }

  /** A quote succeeds exactly for valid requests whose after-fee input is positive and fits the ladder. */
  lemma QuoteSucceedsIff(pool: Pool, tokenIn: string, amountIn: int, slippage: int)
    ensures GetQuote(pool, tokenIn, amountIn, slippage).Ok? <==>
            && ValidRequest(pool, tokenIn, amountIn, slippage)
            && var zeroForOne := Direction(pool, tokenIn).value;
               0 < AfterFee(pool, amountIn)
                 <= Capacity(Ladder(pool.ticks, zeroForOne), pool.sqrtPriceX96, pool.liquidity, zeroForOne)
  {
    if ValidRequest(pool, tokenIn, amountIn, slippage) {
      var zeroForOne := Direction(pool, tokenIn).value;
      if AfterFee(pool, amountIn) > 0 {
        WalkSpendsIffFits(Ladder(pool.ticks, zeroForOne), pool.sqrtPriceX96, pool.liquidity,
                          AfterFee(pool, amountIn), zeroForOne);
      }
    }
  }

  /** Fees below one hundred percent leave more of a larger input; larger fees leave nothing. */
  lemma AfterFeeMonotone(pool: Pool, a: int, b: int)
    requires 0 < a <= b && pool.feeTier > 0 && AfterFee(pool, b) > 0
    ensures AfterFee(pool, a) <= AfterFee(pool, b)
  {
    var f, m := pool.feeTier, 1_000_000;
    if f >= m {
      MulMonotone(m, f, b);
      DivIff(b * f, m, b);
    } else {
      MulMonotone(f, m, b - a);
      assert (b - a) * f == f * (b - a) && b * f == a * f + (b - a) * f;
      DivMonotone(b * f, a * f + (b - a) * m, m);
      DivAdd(a * f, b - a, m);
    }
  }

  /** If some input can be quoted, so can every smaller one that leaves something after the fee,
      and it never receives more. */
  lemma QuoteMonotone(pool: Pool, tokenIn: string, a: int, b: int, slippage: int)
    requires 0 < a <= b && AfterFee(pool, a) > 0
    requires GetQuote(pool, tokenIn, b, slippage).Ok?
    ensures GetQuote(pool, tokenIn, a, slippage).Ok?
    ensures GetQuote(pool, tokenIn, a, slippage).value.amountOut
         <= GetQuote(pool, tokenIn, b, slippage).value.amountOut
    ensures GetQuote(pool, tokenIn, a, slippage).value.minimumReceived
         <= GetQuote(pool, tokenIn, b, slippage).value.minimumReceived
  {
    QuoteSucceedsIff(pool, tokenIn, a, slippage);
    QuoteSucceedsIff(pool, tokenIn, b, slippage);
    AfterFeeMonotone(pool, a, b);
    var zeroForOne := Direction(pool, tokenIn).value;
    WalkMonotone(Ladder(pool.ticks, zeroForOne), pool.sqrtPriceX96, pool.liquidity,
                 AfterFee(pool, a), AfterFee(pool, b), zeroForOne);
    var outA, outB := QuoteWalk(pool, tokenIn, a).totalOut, QuoteWalk(pool, tokenIn, b).totalOut;
    MulMonotone(outA, outB, 10_000 - slippage);
    DivMonotone(outA * (10_000 - slippage), outB * (10_000 - slippage), 10_000);
  }

  lemma MinimumReceivedBounds(out: nat, slippage: int)
    requires 0 <= slippage <= 10_000
    ensures var m := (out * (10_000 - slippage)) / 10_000;
            0 <= m <= out && m * 10_000 <= out * (10_000 - slippage) < (m + 1) * 10_000
  {
    var keep := 10_000 - slippage;
    MulMonotone(keep, 10_000, out);
    MulMonotone(0, keep, out);
    assert keep * out == out * keep;
  }

  /** On success the fee and the steps' inputs add up to the input, the steps' outputs to the
      output, the price only moves in the swap direction and stops short of each visited tick,
      and slippage only lowers the floor: by exactly the requested share, rounded down. */
  lemma QuoteAccountsForEverything(pool: Pool, tokenIn: string, amountIn: int, slippage: int)
    requires GetQuote(pool, tokenIn, amountIn, slippage).Ok?
    ensures var q := GetQuote(pool, tokenIn, amountIn, slippage).value;
            var w := QuoteWalk(pool, tokenIn, amountIn);
            var zeroForOne := Direction(pool, tokenIn).value;
            && q.fee + SumIn(w.steps) == amountIn
            && q.fee * 1_000_000 <= amountIn * pool.feeTier < (q.fee + 1) * 1_000_000
            && q.amountOut == SumOut(w.steps) >= SumIn(w.steps) > 0
            && InDirection(pool.sqrtPriceX96, q.sqrtPriceLimitX96, zeroForOne)
            && StaysShort(Ladder(pool.ticks, zeroForOne), w.steps, pool.sqrtPriceX96, zeroForOne)
            && q.sqrtPriceLimitX96 == PriceBefore(w.steps, pool.sqrtPriceX96, |w.steps|)
            && 0 <= q.minimumReceived <= q.amountOut
            && q.minimumReceived * 10_000 <= q.amountOut * (10_000 - slippage)
                                          < (q.minimumReceived + 1) * 10_000
  {
    QuoteSucceedsIff(pool, tokenIn, amountIn, slippage);
    var zeroForOne := Direction(pool, tokenIn).value;
    var ladder, price, r := Ladder(pool.ticks, zeroForOne), pool.sqrtPriceX96, AfterFee(pool, amountIn);
    WalkSpendsIffFits(ladder, price, pool.liquidity, r, zeroForOne);
    WalkConserves(ladder, price, pool.liquidity, r, zeroForOne);
    WalkStaysShort(ladder, price, pool.liquidity, r, zeroForOne);
    var out := QuoteWalk(pool, tokenIn, amountIn).totalOut;
    MinimumReceivedBounds(out, slippage);
  }

  lemma LadderIgnoresOrder(xs: seq<Tick>, ys: seq<Tick>, zeroForOne: bool)
    requires multiset(xs) == multiset(ys)
    requires DistinctKeys(xs, (t: Tick) => t.index)
    ensures Ladder(xs, zeroForOne) == Ladder(ys, zeroForOne)
  {
    var index := (t: Tick) => t.index;
    var key := (t: Tick) => if zeroForOne then -t.index else t.index;
    forall i, j | 0 <= i < j < |xs| ensures key(xs[i]) != key(xs[j]) {
      assert index(xs[i]) != index(xs[j]);
    }
    SortIgnoresArrangement(xs, ys, key);
  }

  /** The order in which the pool lists its ticks does not change a quote. */
  lemma QuoteIgnoresTickOrder(pool: Pool, ticks: seq<Tick>, tokenIn: string, amountIn: int, slippage: int)
    requires multiset(ticks) == multiset(pool.ticks)
    requires DistinctKeys(pool.ticks, (t: Tick) => t.index)
    ensures GetQuote(pool.(ticks := ticks), tokenIn, amountIn, slippage)
         == GetQuote(pool, tokenIn, amountIn, slippage)
  {
    LadderIgnoresOrder(pool.ticks, ticks, true);
    LadderIgnoresOrder(pool.ticks, ticks, false);
    assert Direction(pool.(ticks := ticks), tokenIn) == Direction(pool, tokenIn);
  }
}
