/** The Q64.96 position arithmetic of packages/sdk/src/position-math.ts: amounts of a
    position, liquidity of a deposit, burns, and the linear tick/price map. */
module PositionMath {
  import opened IntMath
  import opened Wrappers

  const Q96: int := 0x1_0000_0000_0000_0000_0000_0000
  const MIN_TICK := -887272
  const MAX_TICK := 887272

  type Price = x: int | x > 0 witness 1

  datatype Amounts = Amounts(amount0: int, amount1: int)

  datatype MathError = RangeError

  // ----- amounts and liquidity ---------------------------------------------------

  /** `(liquidity * Q96) / sqrtPrice`, the token0 coordinate of a price. */
  function Token0At(liquidity: nat, price: Price): int {
    (liquidity * Q96) / price
  }

  function Token1Over(liquidity: nat, low: Price, high: Price): int {
    (liquidity * (high - low)) / Q96
  }

  function GetAmountsForLiquidity(price: Price, lower: Price, upper: Price, liquidity: nat): Amounts {
    if liquidity == 0 then Amounts(0, 0)
    else if price <= lower then Amounts(Token0At(liquidity, lower) - Token0At(liquidity, upper), 0)
    else if price >= upper then Amounts(0, Token1Over(liquidity, lower, upper))
    else Amounts(Token0At(liquidity, lower) - Token0At(liquidity, price), Token1Over(liquidity, lower, price))
  }

  /** Liquidity bought by token0 over [low, high], and by token1 over [low, high]. */
  function Liquidity0(amount0: nat, low: Price, high: Price): int
    requires low < high
  {
    (amount0 * low * high) / (Q96 * (high - low))
  }

  function Liquidity1(amount1: nat, low: Price, high: Price): int
    requires low < high
  {
    (amount1 * Q96) / (high - low)
  }

  function GetLiquidityForAmounts(price: Price, lower: Price, upper: Price, amount0: nat, amount1: nat): int
    requires lower < upper
  {
    if price <= lower then Liquidity0(amount0, lower, upper)
    else if price >= upper then Liquidity1(amount1, lower, upper)
    else
      var liq0 := Liquidity0(amount0, price, upper);
      var liq1 := Liquidity1(amount1, lower, price);
      if liq0 < liq1 then liq0 else liq1
  }

  function GetAmountsDelta(price: Price, lower: Price, upper: Price, liquidityDelta: nat): Amounts {
    GetAmountsForLiquidity(price, lower, upper, liquidityDelta)
  }

  // ----- floors against exact values ---------------------------------------------

  lemma LiquidityNonNegative(price: Price, lower: Price, upper: Price, amount0: nat, amount1: nat)
    requires lower < upper
    ensures GetLiquidityForAmounts(price, lower, upper, amount0, amount1) >= 0
  {
    if price < upper {
      var low := if price <= lower then lower else price;
      assert amount0 * low >= 0;
      assert amount0 * low * upper >= 0;
      assert Q96 * (upper - low) > 0;
      DivIff(amount0 * low * upper, Q96 * (upper - low), 0);
    }
    if price > lower {
      var high := if price >= upper then upper else price;
      DivIff(amount1 * Q96, high - lower, 0);
    }
  }

  /** Before rounding, liquidity `m` over the part of the range above the price costs
      m * Q96 * (1/low - 1/upper) of token0, and below it m * (high - lower) / Q96 of token1. */
  predicate Affords(price: Price, lower: Price, upper: Price, amount0: nat, amount1: nat, m: nat)
    requires lower < upper
  {
    var low := if price <= lower then lower else price;
    var high := if price >= upper then upper else price;
    && (price < upper ==> m * (Q96 * (upper - low)) <= amount0 * low * upper)
    && (price > lower ==> m * (high - lower) <= amount1 * Q96)
  }

  /** The liquidity returned is the largest one the amounts can pay for. */
  lemma LargestAffordable(price: Price, lower: Price, upper: Price, amount0: nat, amount1: nat, m: nat)
    requires lower < upper
    ensures m <= GetLiquidityForAmounts(price, lower, upper, amount0, amount1)
            <==> Affords(price, lower, upper, amount0, amount1, m)
  {
    var low := if price <= lower then lower else price;
    var high := if price >= upper then upper else price;
    if price < upper {
      assert Q96 * (upper - low) > 0;
      DivIff(amount0 * low * upper, Q96 * (upper - low), m);
    }
    if price > lower {
      DivIff(amount1 * Q96, high - lower, m);
    }
  }

  /** `p <= x/b` and `x/c < q + 1` bound the exact difference of the two fractions. */
  lemma HalfBound(x: int, p: int, q: int, b: int, c: int)
    requires b > 0 && c > 0 && p * b <= x < (q + 1) * c
    ensures (p - q - 1) * (b * c) < x * (c - b)
  {
    MulMonotone(p * b, x, c);
    Regroup(p, b, c);
    MulMonotone(x + 1, (q + 1) * c, b);
    Regroup(q + 1, c, b);
    Commute(b, c);
    Distribute(p, q + 1, b * c);
    Distribute(x + 1, x, b);
    Distribute(c, b, x);
    Commute(c - b, x);
    Commute(c, x);
    Commute(b, x);
  }

  /** The difference of two floors stays within one unit of the exact difference. */
  lemma FloorDifferenceWithinOne(x: int, b: int, c: int)
    requires 0 < b && 0 < c
    ensures (x / b - x / c - 1) * (b * c) < x * (c - b)
  {
    DivIff(x, b, x / b);
    DivIff(x, c, x / c + 1);
    HalfBound(x, x / b, x / c, b, c);
  }

  /** If `x/b - x/c` is at most `n` as a fraction, so is the difference of the floors. */
  lemma FloorDifferenceAtMost(x: int, b: int, c: int, n: int)
    requires 0 < b && 0 < c && x * (c - b) <= n * (b * c)
    ensures x / b - x / c <= n
  {
    FloorDifferenceWithinOne(x, b, c);
    assert b * c > 0;
    CancelFactor(n, x / b - x / c - 1, b * c);
  }

  /** Above its range a position holds the exact worth of its range in token1, rounded down; in range
      that of the part below the price; below its range none. The unit is the 96th power of two. */
  lemma Token1Exact(price: Price, lower: Price, upper: Price, liquidity: nat, m: int)
    requires lower < upper
    ensures var amount1 := GetAmountsForLiquidity(price, lower, upper, liquidity).amount1;
            && (price <= lower ==> amount1 == 0)
            && (lower < price < upper ==>
                  (m <= amount1 <==> m * 79228162514264337593543950336 <= liquidity * (price - lower)))
            && (upper <= price ==>
                  (m <= amount1 <==> m * 79228162514264337593543950336 <= liquidity * (upper - lower)))
  {
    if price > lower {
      var high := if price >= upper then upper else price;
      assert liquidity == 0 ==> liquidity * (high - lower) == 0;
      DivIff(liquidity * (high - lower), Q96, m);
    }
  }

  /** The two floors of token0 stay within one unit of their exact difference, on both sides. */
  lemma FloorDifferenceClose(x: int, b: int, c: int)
    requires 0 < b && 0 < c
    ensures (x / b - x / c - 1) * (b * c) < x * (c - b) < (x / b - x / c + 1) * (b * c)
  {
    FloorDifferenceWithinOne(x, b, c);
    FloorDifferenceWithinOne(x, c, b);
    Commute(b, c);
    assert (x / c - x / b - 1) * (b * c) == -((x / b - x / c + 1) * (b * c));
    assert x * (b - c) == -(x * (c - b));
  }

  lemma ZeroBurn(price: Price, lower: Price, upper: Price)
    ensures Token0At(0, price) == 0 && Token1Over(0, lower, upper) == 0
  {
    assert 0 * Q96 == 0;
    assert 0 / price == 0;
  }

  /** Below its range a position holds liquidity * 2^96 * (1/lower - 1/upper) of token0, in range the
      code reads that over [lower, price], both within less than one unit; above its range none. */
  lemma Token0Exact(price: Price, lower: Price, upper: Price, liquidity: nat)
    requires lower < upper
    ensures var amount0 := GetAmountsForLiquidity(price, lower, upper, liquidity).amount0;
            && (upper <= price ==> amount0 == 0)
            && (price < upper ==>
                  var high := if price <= lower then upper else price;
                  (amount0 - 1) * (lower * high) < liquidity * 79228162514264337593543950336 * (high - lower)
                                                 < (amount0 + 1) * (lower * high))
  {
    if price < upper {
      var high := if price <= lower then upper else price;
      FloorDifferenceClose(liquidity * Q96, lower, high);
      ZeroBurn(lower, lower, upper);
      ZeroBurn(high, lower, upper);
      assert Q96 == 79228162514264337593543950336;
      assert liquidity == 0 ==> liquidity * Q96 * (high - lower) == 0;
      assert lower * high > 0;
    }
  }

  // ----- deposit, then withdraw --------------------------------------------------

  lemma Token0RoundTrip(amount0: nat, low: Price, high: Price)
    requires low < high
    ensures Liquidity0(amount0, low, high) >= 0
    ensures var l := Liquidity0(amount0, low, high); Token0At(l, low) - Token0At(l, high) <= amount0
  {
    var d := Q96 * (high - low);
    LiquidityNonNegative(low, low, high, amount0, 0);
    var l := Liquidity0(amount0, low, high);
    DivIff(amount0 * low * high, d, l);
    assert l * d == (l * Q96) * (high - low);
    assert amount0 * low * high == amount0 * (low * high);
    FloorDifferenceAtMost(l * Q96, low, high, amount0);
  }

  lemma Token1RoundTrip(liquidity: nat, amount1: nat, low: Price, high: Price)
    requires low < high && liquidity <= Liquidity1(amount1, low, high)
    ensures 0 <= Token1Over(liquidity, low, high) <= amount1
  {
    var d := high - low;
    DivIff(amount1 * Q96, d, liquidity);
    MulMonotone(0, liquidity, d);
    DivIff(liquidity * d, Q96, 0);
    DivAtMost(liquidity * d, Q96, amount1);
  }

  /** Opening a position and reading it back never needs more than was offered: both tokens
      out of range, token1 in range. */
  lemma DepositCoversPosition(price: Price, lower: Price, upper: Price, amount0: nat, amount1: nat)
    requires lower < upper
    ensures GetLiquidityForAmounts(price, lower, upper, amount0, amount1) >= 0
    ensures var back := GetAmountsForLiquidity(price, lower, upper,
                          GetLiquidityForAmounts(price, lower, upper, amount0, amount1));
            && back.amount1 <= amount1
            && (price <= lower || upper <= price ==> back.amount0 <= amount0)
  {
    LiquidityNonNegative(price, lower, upper, amount0, amount1);
    var l := GetLiquidityForAmounts(price, lower, upper, amount0, amount1);
    if price <= lower {
      Token0RoundTrip(amount0, lower, upper);
    } else {
      Token1RoundTrip(l, amount1, lower, if price >= upper then upper else price);
    }
  }

  /** In range, token0 is read over [lower, price] but bought over [price, upper]; the reading is
      covered for all deposits exactly when the price is at most the harmonic mean of the bounds. */
  predicate BelowHarmonicMean(price: Price, lower: Price, upper: Price) {
    price * (lower + upper) <= 2 * (lower * upper)
  }

  /** Depositing and reading back asks for no more token0 than was offered. */
  ghost predicate CoversToken0(price: Price, lower: Price, upper: Price, amount0: nat, amount1: nat)
    requires lower < upper
  {
    LiquidityNonNegative(price, lower, upper, amount0, amount1);
    GetAmountsForLiquidity(price, lower, upper,
      GetLiquidityForAmounts(price, lower, upper, amount0, amount1)).amount0 <= amount0
  }

  lemma Token0FromHarmonic(x: nat, price: Price, lower: Price, upper: Price, amount0: nat)
    requires lower < price < upper && BelowHarmonicMean(price, lower, upper)
    requires x * (upper - price) <= amount0 * price * upper
    ensures x * (price - lower) <= amount0 * (lower * price)
  {
    // upper*(price - lower) <= lower*(upper - price) by the harmonic mean
    assert upper * (price - lower) <= lower * (upper - price) by {
      assert upper * (price - lower) == upper * price - upper * lower;
      assert lower * (upper - price) == lower * upper - lower * price;
      assert price * (lower + upper) == lower * price + upper * price;
      assert lower * upper == upper * lower;
    }
    MulMonotone(upper * (price - lower), lower * (upper - price), x);
    MulMonotone(x * (upper - price), amount0 * price * upper, lower);
    assert (upper * (price - lower)) * x == (x * (price - lower)) * upper;
    assert (lower * (upper - price)) * x == (x * (upper - price)) * lower;
    assert (amount0 * price * upper) * lower == (amount0 * (lower * price)) * upper;
    CancelFactor(x * (price - lower), amount0 * (lower * price), upper);
  }

  lemma Token0InRangeCovered(price: Price, lower: Price, upper: Price, amount0: nat, amount1: nat)
    requires lower < price < upper && BelowHarmonicMean(price, lower, upper)
    ensures CoversToken0(price, lower, upper, amount0, amount1)
  {
    LiquidityNonNegative(price, lower, upper, amount0, amount1);
    var l := GetLiquidityForAmounts(price, lower, upper, amount0, amount1);
    var d := Q96 * (upper - price);
    assert d > 0;
    DivIff(amount0 * price * upper, d, l);
    Regroup(l, Q96, upper - price);
    ZeroBurn(lower, lower, upper);
    ZeroBurn(price, lower, upper);
    Token0FromHarmonic(l * Q96, price, lower, upper, amount0);
    FloorDifferenceAtMost(l * Q96, lower, price, amount0);
  }

  lemma ExactDivision(x: int, q: int, k: int)
    requires k > 0 && x == q * k
    ensures x / k == q
  {
    DivExact(q, k);
  }

  /** With lower*(upper - price)*Q96 of token0 every division is exact. */
  lemma ExactLiquidity0(price: Price, lower: Price, upper: Price, amount0: nat)
    requires lower < price < upper && amount0 == Q96 * ((upper - price) * lower)
    ensures Liquidity0(amount0, price, upper) == price * upper * lower
  {
    var d, pu := Q96 * (upper - price), price * upper;
    assert d > 0;
    Regroup(Q96, upper - price, lower);
    Regroup(d * lower, price, upper);
    Regroup(d, lower, pu);
    Commute(lower, pu);
    Commute(d, pu * lower);
    ExactDivision(amount0 * price * upper, pu * lower, d);
  }

  lemma ExactToken0(price: Price, lower: Price, upper: Price, l: nat)
    requires lower < price < upper && l == price * upper * lower
    ensures Token0At(l, lower) == price * upper * Q96
    ensures Token0At(l, price) == upper * lower * Q96
  {
    Commute(Q96, lower);
    Regroup(price * upper, lower, Q96);
    Regroup(price * upper, Q96, lower);
    ExactDivision(l * Q96, price * upper * Q96, lower);
    Regroup(price, upper, lower);
    Commute(price, upper * lower);
    Regroup(upper * lower, price, Q96);
    Commute(price, Q96);
    Regroup(upper * lower, Q96, price);
    ExactDivision(l * Q96, upper * lower * Q96, price);
  }

  lemma AboveHarmonicMean(price: Price, lower: Price, upper: Price)
    requires !BelowHarmonicMean(price, lower, upper)
    ensures (upper - price) * lower < price * upper - upper * lower
  {
    Distribute(upper, price, lower);
    Distribute(lower + upper, lower, price);
    Commute(price, lower + upper);
    Commute(upper, lower);
    Commute(upper, price);
    Commute(lower, price);
  }

  /** A deposit that exposes the mismatch whenever the price is above the harmonic mean. */
  lemma Token0InRangeOverdraws(price: Price, lower: Price, upper: Price) returns (amount0: nat, amount1: nat)
    requires lower < price < upper && !BelowHarmonicMean(price, lower, upper)
    ensures !CoversToken0(price, lower, upper, amount0, amount1)
  {
    var l: int := price * upper * lower;
    assert price * upper > 0;
    assert l > 0 && (upper - price) * lower > 0;
    amount0 := Q96 * ((upper - price) * lower);
    assert l * (price - lower) > 0;
    amount1 := l * (price - lower);
    ExactLiquidity0(price, lower, upper, amount0);
    Regroup(l, price - lower, Q96);
    Commute(price - lower, Q96);
    Regroup(l, Q96, price - lower);
    ExactDivision(amount1 * Q96, l * Q96, price - lower);
    assert GetLiquidityForAmounts(price, lower, upper, amount0, amount1) == l;
    ExactToken0(price, lower, upper, l);
    AboveHarmonicMean(price, lower, upper);
    Distribute(price * upper, upper * lower, Q96);
  }

  lemma Token0CoveredIffBelowHarmonicMean(price: Price, lower: Price, upper: Price)
    requires lower < price < upper
    ensures BelowHarmonicMean(price, lower, upper)
            <==> forall amount0: nat, amount1: nat :: CoversToken0(price, lower, upper, amount0, amount1)
  {
    if BelowHarmonicMean(price, lower, upper) {
      forall amount0: nat, amount1: nat ensures CoversToken0(price, lower, upper, amount0, amount1) {
        Token0InRangeCovered(price, lower, upper, amount0, amount1);
      }
    } else {
      var amount0, amount1 := Token0InRangeOverdraws(price, lower, upper);
    }
  }

  // ----- withdraw, then deposit --------------------------------------------------

  lemma RedepositBelowRange(lower: Price, upper: Price, liquidity: nat, amount0: nat)
    requires lower < upper
    requires amount0 == GetAmountsForLiquidity(lower, lower, upper, liquidity).amount0
    ensures (Liquidity0(amount0, lower, upper) - liquidity) * (Q96 * (upper - lower)) < lower * upper
  {
    var x, s := liquidity * Q96, upper - lower;
    assert Q96 * s > 0 && lower * upper > 0;
    var l := Liquidity0(amount0, lower, upper);
    DivIff(amount0 * lower * upper, Q96 * s, l);
    Regroup(amount0, lower, upper);
    FloorDifferenceWithinOne(x, lower, upper);
    ZeroBurn(lower, lower, upper);
    ZeroBurn(upper, lower, upper);
    Distribute(amount0, 1, lower * upper);
    Regroup(liquidity, Q96, s);
    Distribute(l, liquidity, Q96 * s);
  }

  lemma AmountsNonNegative(price: Price, lower: Price, upper: Price, liquidity: nat)
    requires lower < upper
    ensures var a := GetAmountsForLiquidity(price, lower, upper, liquidity); a.amount0 >= 0 && a.amount1 >= 0
  {
    DivAntitone(liquidity * Q96, lower, upper);
    if price > lower {
      DivAntitone(liquidity * Q96, lower, price);
      var high := if price >= upper then upper else price;
      MulMonotone(0, high - lower, liquidity);
      assert (high - lower) * liquidity == liquidity * (high - lower);
      DivIff(liquidity * (high - lower), Q96, 0);
    }
  }

  /** Reading a position and re-depositing it never gains liquidity in or above range; below range
      it gains less than lower*upper / (Q96*(upper - lower)), the worth of one token0 unit. */
  lemma RedepositBounded(price: Price, lower: Price, upper: Price, liquidity: nat)
    requires lower < upper
    ensures var a := GetAmountsForLiquidity(price, lower, upper, liquidity);
            && a.amount0 >= 0 && a.amount1 >= 0
            && var l := GetLiquidityForAmounts(price, lower, upper, a.amount0, a.amount1);
               && (price > lower ==> l <= liquidity)
               && (price <= lower ==> (l - liquidity) * (Q96 * (upper - lower)) < lower * upper)
  {
    AmountsNonNegative(price, lower, upper, liquidity);
    var a := GetAmountsForLiquidity(price, lower, upper, liquidity);
    if price > lower {
      var high := if price >= upper then upper else price;
      assert liquidity == 0 ==> liquidity * (high - lower) == 0;
      assert a.amount1 == Token1Over(liquidity, lower, high);
      DivIff(liquidity * (high - lower), Q96, a.amount1);
      DivAtMost(a.amount1 * Q96, high - lower, liquidity);
    } else {
      RedepositBelowRange(lower, upper, liquidity, a.amount0);
    }
  }

  // ----- splitting a burn --------------------------------------------------------

  function Sum(parts: seq<nat>): nat {
    if parts == [] then 0 else parts[0] + Sum(parts[1..])
  }

  /** Token amounts handed out by burning the parts one after another. */
  function BurnAll(price: Price, lower: Price, upper: Price, parts: seq<nat>): Amounts {
    if parts == [] then Amounts(0, 0)
    else
      var first := GetAmountsDelta(price, lower, upper, parts[0]);
      var rest := BurnAll(price, lower, upper, parts[1..]);
      Amounts(first.amount0 + rest.amount0, first.amount1 + rest.amount1)
  }

  /** The floor of a sum against the sum of two floors. */
  lemma FloorOfSum(a: int, b: int, k: int, n: int)
    requires n > 0
    ensures a * k / n + b * k / n <= (a + b) * k / n <= a * k / n + b * k / n + 1
  {
    var p, q := a * k / n, b * k / n;
    assert (a + b) * k == a * k + b * k;
    DivIff(a * k, n, p);
    DivIff(a * k, n, p + 1);
    DivIff(b * k, n, q);
    DivIff(b * k, n, q + 1);
    assert (p + q) * n == p * n + q * n;
    DivIff((a + b) * k, n, p + q);
    assert (p + q + 2) * n == (p + 1) * n + (q + 1) * n;
    DivIff((a + b) * k, n, p + q + 2);
  }

  lemma BurnTwo(price: Price, lower: Price, upper: Price, a: nat, b: nat)
    requires lower < upper
    ensures var x, y, z := GetAmountsDelta(price, lower, upper, a), GetAmountsDelta(price, lower, upper, b),
                           GetAmountsDelta(price, lower, upper, a + b);
            && -1 <= z.amount0 - x.amount0 - y.amount0 <= 1
            && 0 <= z.amount1 - x.amount1 - y.amount1 <= 1
  {
    ZeroBurn(lower, lower, upper);
    ZeroBurn(upper, lower, upper);
    ZeroBurn(price, lower, price);
    FloorOfSum(a, b, Q96, lower);
    FloorOfSum(a, b, Q96, upper);
    FloorOfSum(a, b, Q96, price);
    FloorOfSum(a, b, upper - lower, Q96);
    FloorOfSum(a, b, price - lower, Q96);
  }

  /** Burning in n parts moves token0 by at most n-1 units either way; it never raises token1
      and lowers it by at most n-1 units. */
  lemma {:induction false} SplitBurn(price: Price, lower: Price, upper: Price, parts: seq<nat>)
    requires lower < upper && parts != []
    ensures var whole := GetAmountsDelta(price, lower, upper, Sum(parts));
            var split := BurnAll(price, lower, upper, parts);
            && -(|parts| - 1) <= split.amount0 - whole.amount0 <= |parts| - 1
            && -(|parts| - 1) <= split.amount1 - whole.amount1 <= 0
  {
    if |parts| == 1 {
      assert parts[1..] == [];
    } else {
      SplitBurn(price, lower, upper, parts[1..]);
      BurnTwo(price, lower, upper, parts[0], Sum(parts[1..]));
    }
  }

  // ----- the linear tick map -----------------------------------------------------

  function TickToSqrtPriceX96(tick: int): Result<Price, MathError> {
    if tick < MIN_TICK || tick > MAX_TICK then Err(RangeError)
    else if tick >= 0 then Ok(Q96 + (tick * Q96) / 20000)
    else
      var sub := (-tick * Q96) / 20000;
      Ok(if sub >= Q96 then 1 else Q96 - sub)
  }

  function SqrtPriceX96ToTick(price: int): Result<int, MathError> {
    if price <= 0 then Err(RangeError)
    else if price >= Q96 then Ok(((price - Q96) * 20000) / Q96)
    else Ok(-(((Q96 - price) * 20000) / Q96))
  }

  /** Every tick is one twenty-thousandth of 2^96 away from the next, rounded towards 2^96, down to
      price 1 at tick -20000 and below. */
  lemma TickPriceExact(tick: int, m: int)
    ensures TickToSqrtPriceX96(tick).Err? <==> tick < -887272 || tick > 887272
    ensures TickToSqrtPriceX96(tick).Ok? ==>
              var price, one := TickToSqrtPriceX96(tick).value, 79228162514264337593543950336;
              if tick >= 0 then m <= price - one <==> m * 20000 <= tick * one
              else if tick > -20000 then m <= one - price <==> m * 20000 <= -tick * one
              else price == 1
  {
    DivIff(tick * Q96, 20000, m);
    DivIff(-tick * Q96, 20000, m);
  }

  /** The tick of a price counts whole twenty-thousandths of 2^96 away from 2^96. */
  lemma PriceTickExact(price: int, m: int)
    ensures SqrtPriceX96ToTick(price).Err? <==> price <= 0
    ensures price > 0 ==>
              var tick, one := SqrtPriceX96ToTick(price).value, 79228162514264337593543950336;
              if price >= one then m <= tick <==> m * one <= (price - one) * 20000
              else m <= -tick <==> m * one <= (one - price) * 20000
  {
    DivIff((price - Q96) * 20000, Q96, m);
    DivIff((Q96 - price) * 20000, Q96, m);
  }

  lemma MultipleOf625(x: int, j: int)
    requires x == 625 * j
    ensures x % 625 == 0
  {
  }

  /** 387 inverts 2^91 modulo 625, so a product with 2^91 is a multiple of 625 only when `n` is. */
  lemma UnitInvertible(n: nat, unit: nat, m: nat)
    requires 387 * unit == 625 * m + 1
    ensures (n * unit) % 625 == 0 <==> n % 625 == 0
  {
    if n % 625 == 0 {
      var j := n / 625;
      Regroup(625, j, unit);
      MultipleOf625(n * unit, j * unit);
    }
    if (n * unit) % 625 == 0 {
      var k := (n * unit) / 625;
      assert n * (387 * unit) == 387 * (n * unit);
      assert n * (625 * m + 1) == 625 * (n * m) + n;
      MultipleOf625(n, 387 * k - n * m);
    }
  }

  /** The offset from Q96 of a tick `n` steps away from zero, and back. */
  lemma OffsetRoundTrip(n: nat)
    requires n <= MAX_TICK
    ensures ((n * Q96 / 20000) * 20000) / Q96 == if n % 625 == 0 then n else n - 1
  {
    var x := n * Q96 / 20000;
    var unit := Q96 / 32;
    assert 32 * unit == Q96;
    // n * Q96 / 20000 == n * unit / 625
    assert n * Q96 == 32 * (n * unit);
    assert x == (n * unit) / 625;
    var r := (n * unit) % 625;
    assert n * unit == 625 * x + r;
    assert r == 0 <==> n % 625 == 0 by {
      UnitInvertible(n, unit, 387 * unit / 625);
    }
    assert x * 20000 == n * Q96 - 32 * r;
    if r == 0 {
      DivExact(n, Q96);
    } else {
      DivIff(x * 20000, Q96, n - 1);
      DivIff(x * 20000, Q96, n);
    }
  }

  lemma OffsetSmall(n: nat)
    ensures n * Q96 / 20000 >= 0
    ensures n * Q96 / 20000 < Q96 <==> n < 20000
    ensures n >= 625 ==> n * Q96 / 20000 > 0
  {
  }

  /** From -20000 up, a tick read back from its price is itself when 625 divides it and otherwise
      one closer to zero; every lower tick shares price 1 and reads back as -19999. */
  lemma TickRoundTrip(tick: int)
    requires MIN_TICK <= tick <= MAX_TICK
    ensures TickToSqrtPriceX96(tick).Ok?
    ensures var back := SqrtPriceX96ToTick(TickToSqrtPriceX96(tick).value);
            back == Ok(if tick <= -20000 then -19999
                       else if tick % 625 == 0 then tick
                       else if tick > 0 then tick - 1 else tick + 1)
  {
    var n := if tick >= 0 then tick else -tick;
    OffsetRoundTrip(n);
    OffsetSmall(n);
  }

  /** The price map strictly increases from tick -20000 up. */
  lemma TickMapIncreasing(t: int, u: int)
    requires -20000 <= t < u <= MAX_TICK
    ensures TickToSqrtPriceX96(t).value < TickToSqrtPriceX96(u).value
  {
  }

  /** A price lies between the price of its tick and that of the next tick away from zero. */
  lemma PriceBetweenTicks(price: Price)
    ensures SqrtPriceX96ToTick(price).Ok?
    ensures var tick := SqrtPriceX96ToTick(price).value;
            && (price >= Q96 && tick + 1 <= MAX_TICK ==>
                  TickToSqrtPriceX96(tick).value <= price <= TickToSqrtPriceX96(tick + 1).value)
            && (price < Q96 && MIN_TICK <= tick - 1 ==>
                  TickToSqrtPriceX96(tick - 1).value <= price <= TickToSqrtPriceX96(tick).value)
  {
    var offset := if price >= Q96 then price - Q96 else Q96 - price;
    var n := offset * 20000 / Q96;
    DivIff(offset * 20000, Q96, n);
    DivIff(offset * 20000, Q96, n + 1);
  }
}
