# Swyft: a verified model of its arithmetic kernels and step protocols

Swyft is a concentrated-liquidity exchange. This project models the parts of it whose correctness is
not visible from reading one function, and proves what those parts promise:

- the local swap simulation over a tick ladder, and the Q64.96 position arithmetic, of the SDK;
- the StrKey account-id check (base32 of RFC 4648, section 6, and the CRC16-XModem checksum of
  SEP-0023) that the fixture scripts use;
- the candle series: one-hour candles derived from five-minute rows on the server, cursor paging over
  them, and the gap-filled live chart on the client;
- the indexing pipeline: Horizon polling with per-ledger windows and cursors, at-least-once jobs into
  upsert tables, and idempotent dead-letter replay;
- the wallet nonce protocol, with requests interleaving over a shared store;
- two small kernels, the fixed-window limiter and the base-units printer.

Code that updates state in place is a class or a loop proved against a function of the old state; the
whole-run and whole-domain properties are lemmas about that function. Protocols whose steps interleave
are state machines over their store calls. Run `dafny verify dfyconfig.toml` to check everything.

| module | models |
|---|---|
| SwapQuote, QuoteOutcomes, PositionMath | packages/sdk/src/quote.ts, packages/sdk/src/position-math.ts |
| Base32, StrKey, StrKeyBursts, CrcDivision, AccountIds | scripts/fixtures.js |
| LiveCandles | apps/web/hooks/usePriceCandles.ts |
| Candles, TicksPaging | apps/api/src/candles/candles.service.ts |
| Horizon, HorizonTurns, HorizonRuns, HorizonAccounts | apps/api/src/horizon/horizon.service.ts |
| IndexerTables, IndexerEffects, JobInterleavings, SwapFees, InterleavedFees, DlqReplay, ReplayMemory, RateLimiter | apps/api/src/indexer |
| WalletNonce | apps/api/src/auth |
| BaseUnits | apps/api/src/balances/balances.service.ts |
| IntMath, Sorting, OrderedMap, Wrappers | floor division, stable sort, insertion-ordered maps and options, shared by the others |

Where a natural law turned out not to hold of the code, the exact condition is proved:

- in range, a deposit is read back over [lower, price] although token0 was bought over [price, upper];
  it covers every reading exactly when the price is at most the harmonic mean of the bounds
  (`PositionMath.Token0CoveredIffBelowHarmonicMean`);
- the fee recorded for a swap depends on the order of delivery, unless the event brings one, its amount
  is zero, or its pool's creation is not delivered or has fee tier zero: all deliveries of the same jobs
  agree on it in exactly these cases, one after the other (`SwapFees.FeeIndependentIff`) or with their
  store calls interleaved (`InterleavedFees.RunsAgreeOnFeeIff`);
- a turn of the Horizon poller can carry the cursor past a record that never reached a queue. No fault
  makes a turn do so exactly when no record that builds a new job lies at or before the end of a window
  processed before its own (`HorizonTurns.TurnsSafeIff`). Where every record has the fields its queue asks for, no run
  does so exactly when no account has a ledger's records apart, those without a ledger included, within any fifty
  consecutive records (`HorizonRuns.EveryRunSafeIff`); keeping them together is enough for any records
  (`Horizon.NoRecordSkipped`);
- the limiter keeps to its limit in every closed span of one window only if the limit admits nothing
  (`RateLimiter.OneLimitIffNothingAdmitted`): for every positive limit and every window twice the limit
  is reached, and twice less one in a span one shorter;
- the attempt limit is not per nonce, as its comment says: issuing leaves the wallet's counter standing,
  and a new nonce gets the full limit exactly when nothing is counted against the wallet, or the limit
  is one (`WalletNonce.NewNonceGetsFullLimitIff`);
- a strict hourly backfill is refused exactly when some five-minute window between the first swap's hour
  and the last complete hour saw no swap, the windows before the first swap in its own hour included
  (`Candles.CandlesService.Backfill`).

## Model

| member | source | states |
|---|---|---|
| SwapQuote.ComputeSwapStep | packages/sdk/src/quote.ts:343-378 | A step takes at most the remaining input, pays at least what it takes, moves only in the swap direction and never past its target, and stops early only when the input is spent or the target lies behind. |
| SwapQuote.FullStepPays | packages/sdk/src/quote.ts:360-366 | The full move to any price in the swap direction takes nothing negative and pays at least what it takes. |
| SwapQuote.FullStepRate | packages/sdk/src/quote.ts:360-366 | A full move trades at the ratio of its end prices up to rounding, and the reverse move in the other direction takes and pays the same amounts. |
| SwapQuote.PartialStepRate | packages/sdk/src/quote.ts:368-375 | A step that stops early takes all that remains and pays for it at the full step's rate, rounded down. |
| SwapQuote.WalkLadder | packages/sdk/src/quote.ts:265-292 | The loop over the sorted ticks ends with the remaining input, output and price of the recursive walk. |
| SwapQuote.WalkSpendsIffFits | packages/sdk/src/quote.ts:274-296 | The walk spends its whole input exactly when it fits the ladder's capacity, and pays at least what it spends. |
| SwapQuote.WalkMonotone | packages/sdk/src/quote.ts:274-292 | Along any ladder a larger input never buys less. |
| SwapQuote.WalkConserves | packages/sdk/src/quote.ts:274-292 | The steps' inputs and the remainder add up to the input, the steps' outputs to the output, and the final price is the last step's, in the swap direction. |
| SwapQuote.WalkStaysShort | packages/sdk/src/quote.ts:274-292 | A walk that spends its input never moves past a tick it visited, step by step. |
| SwapQuote.GetSwapQuote | packages/sdk/src/quote.ts:244-315 | The imperative quote, with its six failure exits in order, equals the quote function the laws below are about. |
| SwapQuote.QuoteSucceedsIff | packages/sdk/src/quote.ts:244-300 | A quote succeeds if and only if the request is valid and the after-fee input is positive and at most the ladder's capacity. |
| SwapQuote.AfterFeeMonotone | packages/sdk/src/quote.ts:261-263 | Whenever a larger input leaves something after the fee, a smaller one leaves no more. |
| SwapQuote.QuoteMonotone | packages/sdk/src/quote.ts:244-315 | If an input is quoted, so is every smaller one that leaves something after the fee, with no larger output or minimum. |
| SwapQuote.QuoteAccountsForEverything | packages/sdk/src/quote.ts:261-315 | On success the fee is the fee tier's share of amountIn rounded down, fee plus step inputs equal amountIn exactly, outputs add up, the price moves one way and short of every visited tick, and the minimum is the slippage share of the output rounded down. |
| SwapQuote.QuoteIgnoresTickOrder | packages/sdk/src/quote.ts:269-272 | Any permutation of ticks with distinct indexes gives the same quote. |
| QuoteOutcomes.QuoteIffAccount | packages/sdk/src/quote.ts:244-378 | A quote is returned if and only if the request is valid and the quote accounts for its input on the pool's own fields: the fee rounded down; for token0 input the ticks from the highest index down, for token1 input from the lowest up; full moves that take liquidity times the price difference over the higher price and pay it over the lower one, each rounded down; the last move's share; the price where it stops; and the slippage share as minimum. |
| QuoteOutcomes.FirstTickAbsorbs | packages/sdk/src/quote.ts:265-315 | If the first tick on the way takes at least what the fee leaves, the quote is that share of one full move. |
| QuoteOutcomes.PriceMovesWithToken | packages/sdk/src/quote.ts:322-326 | Token0 input never raises the price and token1 input never lowers it. |
| QuoteOutcomes.WhyRefused | packages/sdk/src/quote.ts:244-300 | Which error each request gets, in the order of the checks; `invalid token direction` exactly when the input token is neither of the pool's and no earlier check fails. |
| QuoteOutcomes.VisitingOrderIsLadder | packages/sdk/src/quote.ts:269-272 | The sorted ladder is the one order by index, down for token0 and up for token1, with ties as the pool lists them. |
| Sorting.SortIsStableSort | packages/sdk/src/quote.ts:270-272 | The sort used for ticks, rows and candles is ordered, a permutation, and keeps equal keys in their order. |
| Sorting.SortIgnoresArrangement | packages/sdk/src/quote.ts:270-272 | With distinct keys the sorted list does not depend on how the input was arranged. |
| Sorting.StableSortUnique | packages/sdk/src/quote.ts:270-272 | Order and ties determine the result of a stable sort. |
| PositionMath.AmountsNonNegative | packages/sdk/src/position-math.ts:64-86 | A position never amounts to a negative quantity of either token. |
| PositionMath.Token1Exact | packages/sdk/src/position-math.ts:64-86 | Token1 is exactly the floor of liquidity times the covered price stretch over 2^96, in and above range, and zero below. |
| PositionMath.Token0Exact | packages/sdk/src/position-math.ts:64-86 | Token0 is within less than one unit, on both sides, of liquidity * 2^96 * (1/lower - 1/high), high being the upper bound below range and the price in range; zero above. |
| PositionMath.LiquidityNonNegative | packages/sdk/src/position-math.ts:106-132 | No deposit buys negative liquidity. |
| PositionMath.LargestAffordable | packages/sdk/src/position-math.ts:96-132 | A liquidity is at most the returned one if and only if the amounts can pay its unrounded cost: the result is the maximum the documentation promises. |
| PositionMath.DepositCoversPosition | packages/sdk/src/position-math.ts:64-132 | Amounts to liquidity and back never needs more than was deposited: both tokens out of range, token1 in range. |
| PositionMath.Token0CoveredIffBelowHarmonicMean | packages/sdk/src/position-math.ts:80-131 | In range, all deposits cover the token0 read back if and only if the price is at most the harmonic mean of the bounds. |
| PositionMath.Token0InRangeOverdraws | packages/sdk/src/position-math.ts:80-131 | Above the harmonic mean, a named deposit whose token0 reading exceeds it. |
| PositionMath.RedepositBounded | packages/sdk/src/position-math.ts:64-132 | Liquidity to amounts and back never gains in or above range; below range the gain is below lower*upper/(Q96*(upper-lower)). |
| PositionMath.BurnTwo | packages/sdk/src/position-math.ts:161-173 | Splitting a burn in two moves token0 by at most one unit either way and only lowers token1, by at most one. |
| PositionMath.SplitBurn | packages/sdk/src/position-math.ts:161-173 | Splitting a burn into n parts moves token0 by at most n-1 units either way, never raises token1 and lowers it by at most n-1. |
| PositionMath.TickRoundTrip | packages/sdk/src/position-math.ts:182-209 | Tick to price to tick, over all valid ticks: the tick itself when 625 divides it, else one closer to zero; from -20000 down always -19999. |
| PositionMath.OffsetRoundTrip | packages/sdk/src/position-math.ts:184-208 | The two floors of a round trip lose nothing exactly for multiples of 625, otherwise one step. |
| PositionMath.TickMapIncreasing | packages/sdk/src/position-math.ts:182-191 | The price map is strictly increasing from tick -20000 up. |
| PositionMath.PriceBetweenTicks | packages/sdk/src/position-math.ts:182-209 | A price lies between the prices of its tick and of the next tick away from zero, when that one is in bounds. |
| PositionMath.TickPriceExact | packages/sdk/src/position-math.ts:182-191 | The price of a tick is 2^96 plus or minus exactly the floor of its twenty-thousandths of 2^96, 1 from tick -20000 down; only ticks beyond 887272 either way are refused. |
| PositionMath.PriceTickExact | packages/sdk/src/position-math.ts:199-209 | The tick of a price is the floor of its distance from 2^96 in twenty-thousandths of 2^96; only prices that are not positive are refused. |
| Base32.OverflowKeepsLowBits | scripts/fixtures.js:113 | Wrapping the shifted accumulator to 32 bits keeps every bit still to be read. |
| Base32.PushChar | scripts/fixtures.js:113-118 | One turn of the loop keeps the invariant that emitted octets and pending bits are the input's bit string. |
| Base32.Base32Decode | scripts/fixtures.js:106-121 | Every alphabet string decodes to exactly the first floor(5n/8) octets of its big-endian bit string; any other string to null. |
| StrKey.Crc16Xmodem | scripts/fixtures.js:123-132 | The nested loops compute the register function the error-detection laws are about. |
| StrKey.CrcLinear | scripts/fixtures.js:123-132 | The checksum is linear over xor for strings of equal length. |
| StrKey.TwoOctetsInjective | scripts/fixtures.js:126-129 | From any one register, two different pairs of octets lead to different registers. |
| StrKey.CrcDetectsAdjacent | scripts/fixtures.js:123-132 | Equal-length octet strings of any length that differ only within two adjacent octets have different checksums. |
| StrKey.CrcResidue | scripts/fixtures.js:123-132 | Appending two octets empties the register if and only if they are the checksum, high octet first. |
| CrcDivision.ChecksumIsRemainder | scripts/fixtures.js:123-132 | The checksum of any message is the one remainder that the message times x^16 leaves on division by x^16 + x^12 + x^5 + 1 over the field of two elements. |
| CrcDivision.RemainderUnique | scripts/fixtures.js:123-132 | That division has one quotient and one remainder. |
| AccountIds.AlphabetInOrder | scripts/fixtures.js:103 | The i-th character of the alphabet carries the five bits of i, highest first. |
| AccountIds.InAlphabetIff | scripts/fixtures.js:103-112 | A character is accepted if and only if it is one of those thirty-two. |
| AccountIds.EncodeOctets | scripts/fixtures.js:106-121 | Every thirty-five octets are the decoding of some fifty-six characters. |
| AccountIds.AcceptedIff | scripts/fixtures.js:135-143 | The check accepts exactly G and fifty-five alphabet characters whose first octet is 0x30 and whose last two are the checksum of the other thirty-three, low octet first. |
| AccountIds.ExactlyOneIdPerKey | scripts/fixtures.js:104-143 | For every thirty-two octets there is exactly one accepted string that carries them as its key. |
| StrKey.IsValidStellarPublicKey | scripts/fixtures.js:135-143 | The check accepts exactly the strings of the account-id shape, version octet and little-endian checksum. |
| StrKey.OneCharacterOctets | scripts/fixtures.js:106-121 | One changed character changes the decoded octets, and only the one or two its five bits fall into. |
| StrKey.StraddleDetected | scripts/fixtures.js:140-142 | A change confined to the four bits that end the payload and the low checksum octet cannot keep the two consistent. |
| StrKey.OneWrongCharacterRejected | scripts/fixtures.js:135-143 | Changing any one character of a valid account id makes the check reject it. |
| StrKeyBursts.BurstInRegister | scripts/fixtures.js:125-130 | Bits spread over three octets but within sixteen places end up in the register as one sixteen-bit word, shifted. |
| StrKeyBursts.CrcDetectsBurst | scripts/fixtures.js:123-132 | Equal-length octet strings of any length that differ only within sixteen consecutive bits have different checksums. |
| StrKeyBursts.SeventeenBitsMissed | scripts/fixtures.js:123-132 | Sixteen is the limit: a change of seventeen bits that leaves the checksum as it was. |
| StrKeyBursts.BorderUnchanged | scripts/fixtures.js:140-142 | Two octet lists that both carry their checksum and differ only in the last nine payload bits and the first checksum bit are the same. |
| StrKeyBursts.TwoWrongCharactersRejected | scripts/fixtures.js:135-143 | Changing any two adjacent characters of a valid account id in any way makes the check reject it, at the border of payload and checksum too. |
| StrKeyBursts.SwappedNeighboursRejected | scripts/fixtures.js:135-143 | Swapping two different neighbouring characters of a valid account id makes the check reject it. |
| LiveCandles.Sanitize | apps/web/hooks/usePriceCandles.ts:85-96 | The map and sort of the source produce the sanitised series below. |
| LiveCandles.SanitizedIsLastPerTime | apps/web/hooks/usePriceCandles.ts:85-96 | The sanitised series is strictly ascending and holds exactly the last candle seen of each valid time. |
| LiveCandles.FillGapsLoop | apps/web/hooks/usePriceCandles.ts:102-134 | The nested loops produce the filled series, switch and short series included. |
| LiveCandles.FillEndsAndDensity | apps/web/hooks/usePriceCandles.ts:102-134 | Filling keeps first and last candle and leaves neighbours at most one step apart. |
| LiveCandles.FillAscending | apps/web/hooks/usePriceCandles.ts:102-134 | Filling a strictly ascending series keeps it strictly ascending. |
| LiveCandles.GapsAreFlat | apps/web/hooks/usePriceCandles.ts:114-127 | Every gap candle follows its neighbour by one step, has volume zero and is flat at the close of the last real candle before it. |
| LiveCandles.RealsOfFill | apps/web/hooks/usePriceCandles.ts:102-134 | Dropping the gaps of a filled series gives the real series back. |
| LiveCandles.MergeRefinesRecompute | apps/web/hooks/usePriceCandles.ts:140-163 | Merging a live candle into the filled series equals filling the real series with the candle ignored, replaced or appended and cut to the last 168. |
| LiveCandles.MergeKeepsNewest | apps/web/hooks/usePriceCandles.ts:140-163 | An older live candle changes nothing, one of the last candle's time takes its place, a newer one goes to the end, and then the 168 newest real candles stay. |
| LiveCandles.RunRefinesRecompute | apps/web/hooks/usePriceCandles.ts:140-163 | Over every run of live candles the merged series equals recomputing from the real series. |
| LiveCandles.NewerRunKeepsNewest | apps/web/hooks/usePriceCandles.ts:140-163 | Over any run of ever newer candles the real series is the last 168 of the fetched and the live ones. |
| LiveCandles.StepsMatchServer | apps/web/hooks/usePriceCandles.ts:36-41 | The chart's steps in seconds are the server's candle windows in milliseconds. |
| LiveCandles.ChartSeriesInvariant | apps/web/hooks/usePriceCandles.ts:85-163 | From any fetched candles and over any run, the chart series is strictly ascending, dense while filling is on, ends in a real candle, its gaps are flat at the last close, and its gaps dropped is the real series, of length at most the fetched one or 168. |
| OrderedMap.SetKeepsOthers | apps/api/src/candles/candles.service.ts:466-484 | Setting a key keeps keys unique and every other key's value. |
| Candles.AccumulateAllByPool | apps/api/src/candles/candles.service.ts:466-484 | The shared map holds for every pool exactly the fold of that pool's own items, and no key twice. |
| Candles.DirectSummarisesSwaps | apps/api/src/candles/candles.service.ts:365-373 | A pool has a candle exactly when it traded in the window; it opens at its first swap, closes at its last, spans its prices tightly and sums its volume. |
| Candles.PoolSwapsInOrder | apps/api/src/candles/candles.service.ts:365-369 | Those swaps are the pool's swaps of the half-open window, each once, in table order. |
| Candles.IntervalsNest | apps/api/src/candles/candles.service.ts:39-50 | The windows are a minute, five, an hour and a day. |
| Candles.HourFromFiveMinutes | apps/api/src/candles/candles.service.ts:327-363 | For every swap history and pool, the hour folded from its five-minute rows equals the hour folded from its swaps, windows without a swap included. |
| Candles.AssertNoGap | apps/api/src/candles/candles.service.ts:395-414 | The check refuses exactly under the strict policy when some five-minute start of the window has no row. |
| Candles.StrictRefusesQuietWindow | apps/api/src/candles/candles.service.ts:337-414 | With complete five-minute rows, strict refuses an hour exactly when one of its windows saw no swap in any pool. |
| Candles.FoldBuckets | apps/api/src/candles/candles.service.ts:353-363 | The loop over the rows accumulates them in order. |
| Candles.FoldSwaps | apps/api/src/candles/candles.service.ts:365-373 | The loop over the swaps of a half-open window accumulates them in order. |
| Candles.CandlesService.UpsertCandles | apps/api/src/candles/candles.service.ts:376-385 | The upsert loop leaves the table with each pool's candle set and nothing else changed. |
| Candles.CandlesService.AggregatePeriod | apps/api/src/candles/candles.service.ts:327-388 | One period is either refused for a gap, writing nothing, or upserted pool by pool and counted. |
| Candles.PeriodChangesOneWindow | apps/api/src/candles/candles.service.ts:327-388 | Aggregating a period changes only that interval's window, which then holds every pool's candle of the window's swaps, for derived hours too. |
| Candles.CandlesService.BackfillPeriod | apps/api/src/candles/candles.service.ts:191-196 | A turn of the loop keeps every row right and every finished window finished, touches no row after its window, finishes its own unless refused, and is refused exactly for a quiet five-minute window of a strict hour. |
| Candles.CandlesService.Backfill | apps/api/src/candles/candles.service.ts:169-201 | Refused if and only if the policy is strict, the series hourly, and some five-minute window from the first swap's hour to the last complete hour saw no swap; otherwise every window before the last complete one has exactly the candles of its swaps. Rows from the last complete period on, and of other intervals, are untouched. |
| Candles.LastPeriodStart | apps/api/src/candles/candles.service.ts:187 | The last complete period is the one that ended at most one window ago. |
| Candles.BackfillFiveMinutesThenHours | apps/api/src/candles/candles.service.ts:169-201 | From an empty table and under either policy the five-minute series is finished up to its last complete period, and so is the hourly one unless refused, with the exact condition of the refusal. |
| TicksPaging.CursorResumes | apps/api/src/candles/candles.service.ts:232-240 | The rows selected after the cursor of the k-th candle are the rest of the series. |
| TicksPaging.PageIsNext | apps/api/src/candles/candles.service.ts:208-273 | A request at the k-th candle's cursor answers the next limit candles, with a next cursor exactly when more remain. |
| TicksPaging.FollowCursors | apps/api/src/candles/candles.service.ts:208-273 | Following nextCursor until null ends, and reads the pages of the series in turn. |
| TicksPaging.PagesCover | apps/api/src/candles/candles.service.ts:252-267 | The pages from any point concatenate to the rest of the series; their number is the rounded-up quotient, at least one. |
| TicksPaging.PagesAreFull | apps/api/src/candles/candles.service.ts:252-267 | Every page but the last holds the limit, and the last is not longer, nor empty unless it is the only one. |
| TicksPaging.EveryCandleOnce | apps/api/src/candles/candles.service.ts:208-273 | Over an unchanging table the pages hold every candle of the pool and interval exactly once, strictly ascending, in max(1, ceil(n/limit)) pages. |
| TicksPaging.ResolveLimit | apps/api/src/candles/candles.service.ts:275-285 | No limit means a hundred, one to a thousand is taken as it is, anything else is refused. |
| TicksPaging.TicksRefusedIff | apps/api/src/candles/candles.service.ts:208-310 | A request is refused for its limit exactly when one outside 1 to 1000 is given, and for its cursor exactly when the limit is fine and the cursor does not decode. |
| Horizon.HorizonService.DoPoll | apps/api/src/horizon/horizon.service.ts:109-138 | One poll over a snapshot of the accounts equals the poll function, failures, backoff and reset included. |
| Horizon.HorizonService.DoPollAccount | apps/api/src/horizon/horizon.service.ts:146-203 | One account's turn goes window by window and ends at the first that fails. |
| Horizon.HorizonService.DoWindow | apps/api/src/horizon/horizon.service.ts:168-201 | A window broadcasts and discovers record by record, then enqueues, then moves the cursor; a fault leaves exactly the steps before it done. |
| Horizon.HorizonService.BatchEnqueueLedgerWindow | apps/api/src/horizon/horizon.service.ts:228-364 | The queues gain, in record order, exactly one job for each record of an accepted kind that carries its fields - two tokens, two parties, owner and token id, or recipient - named by event id or else paging token, for the record's pool or else the account; records of other events never have one. |
| Horizon.WindowOwes | apps/api/src/horizon/horizon.service.ts:250-334 | The jobs built for a window are exactly those it owes by the fields of its records. |
| Horizon.BuiltIff | apps/api/src/horizon/horizon.service.ts:250-334 | A record builds a job if and only if it has the fields of its kind, and that job is the one told by its fields. |
| Horizon.JobsOfWindow | apps/api/src/horizon/horizon.service.ts:250-334 | A window's jobs are exactly those its records build, each for an accepted queue. |
| Horizon.GroupByLedger | apps/api/src/horizon/horizon.service.ts:159-165 | The grouping loop computes the ledger groups in first-seen order. |
| Horizon.GroupKeepsOrder | apps/api/src/horizon/horizon.service.ts:159-165 | When each ledger's records stand together, grouping cuts the page into non-empty windows in page order, one per ledger. |
| Horizon.PageWindowsSafe | apps/api/src/horizon/horizon.service.ts:148-167 | Each window is then everything of the account from the cursor before it to its own last token. |
| Horizon.ProcessWindowKeepsInv | apps/api/src/horizon/horizon.service.ts:168-201 | A window that is everything of the account up to its last token, whatever its fault, keeps every account covered; the cursor moves only when all its jobs are queued. |
| Horizon.NoRecordSkipped | apps/api/src/horizon/horizon.service.ts:109-203 | In every run over histories that keep each ledger's records together in every stretch of a page's length, every record between an account's start and its cursor was queued or rejected by the builder and its pool is polled; nothing else is queued; a discovered pool starts before the record that announced it. |
| Horizon.CursorsOnlyMoveForward | apps/api/src/horizon/horizon.service.ts:186-201 | Along every run no account is dropped and no cursor moves back. |
| Horizon.LedgerOrderIsOrdered | apps/api/src/horizon/horizon.service.ts:158-165 | Records that all carry a ledger and come in ledger order make such a history. |
| Horizon.FaultlessPollTakesPage | apps/api/src/horizon/horizon.service.ts:146-203 | Without faults a turn ends with the cursor at the last record of its page. |
| Horizon.BackoffBounds | apps/api/src/horizon/horizon.service.ts:124-130 | The wait never shrinks as failures go on and stays between one and thirty seconds. |
| Horizon.BackoffExact | apps/api/src/horizon/horizon.service.ts:124-130 | After n failing polls in a row the wait is 1000 * 2^(n-1) milliseconds, at most 30000. |
| Horizon.TurnFailsIff | apps/api/src/horizon/horizon.service.ts:111-122 | A turn fails if and only if it times out or one of its page's windows meets a failing broadcast or failing queues. |
| Horizon.PollBacksOff | apps/api/src/horizon/horizon.service.ts:109-138 | A poll before its time does nothing; one in which some account fails adds a failure and puts the next off by the doubled wait; any other clears both. |
| Horizon.ReturningLedgerSkipsRecord | apps/api/src/horizon/horizon.service.ts:159-201 | A page in which a ledger returns, with the second window's queue failing, moves the cursor past a record that was never queued. |
| HorizonTurns.TurnsSafeIff | apps/api/src/horizon/horizon.service.ts:158-202 | For any page and queues: no fault at any window makes the turn pass a record without its job if and only if no record that builds a job not yet queued lies, by token, at or before the last token of a window processed before its own. |
| HorizonTurns.TurnsSafeIffContiguous | apps/api/src/horizon/horizon.service.ts:158-202 | On a page whose records all build jobs not yet queued: no fault at any window makes the turn pass a record without its job if and only if the page keeps each ledger's records together. |
| HorizonTurns.GroupSortsPage | apps/api/src/horizon/horizon.service.ts:159-165 | The groups of any page are one per ledger, each in page order, and together hold every record. |
| HorizonTurns.OutOfOrderSkips | apps/api/src/horizon/horizon.service.ts:191-201 | Wherever a record of a later window that builds a new job lies at or before the end of an earlier one, the queues failing right after the earlier one make the cursor pass it without its job. |
| HorizonTurns.StopsSomewhere | apps/api/src/horizon/horizon.service.ts:168-201 | Whatever its faults, a turn ends after some number of windows: the cursor is at the end of the last of them, and every job of theirs is queued. |
| HorizonTurns.PollTakesPage | apps/api/src/horizon/horizon.service.ts:109-138 | A poll that answers an account takes a page off what is left for it, whatever happens to the others. |
| HorizonTurns.NothingLeftBehind | apps/api/src/horizon/horizon.service.ts:109-203 | As many good polls as the remaining records fill pages of fifty, rounded up, leave no record after the cursor, and every one is queued or rejected by the builder. |
| HorizonRuns.EveryRunSafeIff | apps/api/src/horizon/horizon.service.ts:109-203 | Where every record carries the fields its queue asks for: every run, from any accounts and cursor and with any faults, queues a job for all the records its cursors pass if and only if every stretch of at most fifty consecutive records of each account keeps each ledger's records together. |
| HorizonRuns.RecordsWithFieldsQueued | apps/api/src/horizon/horizon.service.ts:109-364 | In every run over histories that keep ledgers together within a page's length, each record between an account's start and its cursor that has its fields has its job in the queues, and every queued job is that of such a record of a tracked account. |
| HorizonRuns.BrokenHistoryUnsafe | apps/api/src/horizon/horizon.service.ts:148-201 | Where every record has its fields, a ledger that returns within fifty records of itself loses a record in some run. |
| HorizonAccounts.DiscoveryEffect | apps/api/src/horizon/horizon.service.ts:181-188 | A window's records add exactly the pools they announce, each polled from the page's own cursor; known accounts keep their cursors and nothing is queued. |
| HorizonAccounts.OnlyAnnouncedPolled | apps/api/src/horizon/horizon.service.ts:109-203 | In every run the accounts polled are those it started with and pools announced in Horizon's records. |
| IndexerTables.IndexerWorker.Handle | apps/api/src/indexer/indexer.worker.ts:291-491 | Handling a job equals applying its chain of upserts, or nothing for an empty field. |
| IndexerTables.IndexerWorker.ProjectPoolCreated | apps/api/src/indexer/indexer.worker.ts:745-810 | The projection of a pool's creation is its two token upserts and the pool upsert. |
| IndexerTables.IndexerWorker.ProjectSwapProcessed | apps/api/src/indexer/indexer.worker.ts:837-918 | The projection of a swap resolves its fee first, then upserts pool and swap, or the swap alone when its price is not positive. |
| IndexerEffects.SkippedIff | apps/api/src/indexer/indexer.worker.ts:273-289 | A job is skipped, writing nothing, if and only if an id, party, token, amount, price or liquidity its kind carries is missing. |
| IndexerEffects.RawKeysTell | apps/api/src/indexer/indexer.worker.ts:314-328 | Raw events are told apart by kind and event id. |
| IndexerEffects.CreationHandled | apps/api/src/indexer/indexer.worker.ts:291-360 | A creation leaves its raw event, adds its two tokens and sets its pool's tokens, fee tier and price; tick and liquidity stay or start at zero. |
| IndexerEffects.SwapHandled | apps/api/src/indexer/indexer.worker.ts:817-912 | A swap with a positive price sets its pool's price, tick and liquidity, keeps its identity or opens a placeholder, and leaves its row, with its own fee or the size of amount0 times the tier in millionths, unless the row was there. |
| IndexerEffects.UnpricedSwapHandled | apps/api/src/indexer/indexer.worker.ts:841-867 | A swap without a positive price touches no pool, and leaves its row only if its price is a number and its pool is there. |
| IndexerEffects.OtherHandled | apps/api/src/indexer/indexer.worker.ts:291-491 | Other jobs leave their raw event and nothing else that is modelled. |
| IndexerEffects.TokensHold | apps/api/src/indexer/indexer.worker.ts:745-769 | After any delivery the tokens are exactly those of the pools created. |
| IndexerTables.PoolsFollowWrites | apps/api/src/indexer/indexer.worker.ts:772-798 | After any upserts a pool exists exactly when one named it, and carries its created identity when it has one, else the placeholder. |
| IndexerTables.WritesConverge | apps/api/src/indexer/indexer.worker.ts:291-918 | Any two interleavings of the same upserts, with any repetitions, leave the same raw events, tokens, pools and identities, and the same swaps but for fees. |
| IndexerTables.DeliveriesConverge | apps/api/src/indexer/indexer.worker.ts:291-918 | Any two deliveries of the same jobs, in any order and multiplicity, leave the same raw event tables, tokens and pool identities, and with valid prices the same swaps but for fees. |
| IndexerTables.TablesHoldTheJobs | apps/api/src/indexer/indexer.worker.ts:291-918 | After any delivery the raw tables hold exactly the jobs without an empty field, whole; each created pool has its creation's tokens and fee tier, any other the placeholder; with valid prices every complete swap has a row. |
| IndexerTables.SwapRowDelivered | apps/api/src/indexer/indexer.worker.ts:896-912 | That row carries the event's pool, parties, amount, price and tick. |
| IndexerTables.IdentityStays | apps/api/src/indexer/indexer.worker.ts:772-798 | Once a pool's creation is handled, no later job changes its tokens or fee tier. |
| IndexerTables.FeeSurvivesReorderingIff | apps/api/src/indexer/indexer.worker.ts:817-835 | From empty tables, a swap and its pool's creation leave the same swap row in both orders exactly when the event carries a fee, amount0 is zero or the fee tier is zero. |
| JobInterleavings.StepKeepsInv | apps/api/src/indexer/indexer.worker.ts:291-918 | Whatever delivery makes its next store call, the tables are those of the upserts so far, every upsert belongs to a delivered job, and with valid prices no swap row precedes its pool. |
| JobInterleavings.InterleavedAsHandled | apps/api/src/indexer/indexer.worker.ts:291-918 | However the store calls of concurrent handlers interleave, and wherever deliveries are cut off, once every job went through the tables agree with handling the jobs one after the other. |
| JobInterleavings.RunsConverge | apps/api/src/indexer/indexer.worker.ts:291-918 | Any two interleaved runs over the same jobs, with any repetitions, end with the same raw events, tokens, pool identities and, with valid prices, swaps but for fees. |
| SwapFees.FeeIsFromFirstDelivery | apps/api/src/indexer/indexer.worker.ts:817-839 | In any delivery the recorded fee is the event's own, or the one derived from the fee tier that the pool's creation had shown by the swap's first delivery, zero if it had not come yet. |
| SwapFees.FeeIndependentIff | apps/api/src/indexer/indexer.worker.ts:817-839 | All deliveries of the same jobs, in any order and multiplicity, record the same fee for a swap if and only if the event carries one, amount0 is zero, or its pool's creation is absent or of fee tier zero. |
| InterleavedFees.FeeOfRunKnown | apps/api/src/indexer/indexer.worker.ts:817-912 | Wherever the read of the pool and the write of the row fall among the other deliveries' store calls, a run in which every job went through records the event's own fee, or the one derived from the fee tier of the pool's creation or from zero. |
| InterleavedFees.SequentialIsARun | apps/api/src/indexer/indexer.worker.ts:291-918 | Handling the jobs one after the other is one of the interleaved runs. |
| InterleavedFees.RunsAgreeOnFeeIff | apps/api/src/indexer/indexer.worker.ts:817-912 | All interleaved runs over the same jobs, with any repetitions and cut-off deliveries, record the same fee for a swap if and only if the event carries one, amount0 is zero, or its pool's creation is absent or of fee tier zero. |
| DlqReplay.KeyDeterminesRequest | apps/api/src/indexer/indexer-replay.service.ts:149-150 | As long as idempotency keys have no bar, the key string determines target and idempotency key, whatever the job ids. |
| DlqReplay.ValidKeyHasNoBar | apps/api/src/indexer/indexer.controller.ts:179-183 | A key the controller accepts has none. |
| DlqReplay.IndexerReplayService.ReplayDeadLettersIdempotent | apps/api/src/indexer/indexer-replay.service.ts:145-177 | A request is answered from memory, joins the execution in flight, or starts one; the new state in each case. |
| DlqReplay.IndexerReplayService.FinishReplay | apps/api/src/indexer/indexer-replay.service.ts:178-211 | An execution that comes back leaves the in-flight map, and is remembered only if keyed and successful. |
| DlqReplay.IndexerReplayService.RememberDlqReplay | apps/api/src/indexer/indexer-replay.service.ts:213-227 | The sweep loop, the eviction of the oldest and the insertion, as one function of the old map. |
| DlqReplay.ReplyIff | apps/api/src/indexer/indexer-replay.service.ts:145-177 | A request is answered from memory exactly when it carries a key and a result not ten minutes old is remembered under it, joins exactly when one of its key is in flight and no such result is, and starts one otherwise; only then does anything change. |
| DlqReplay.FinishIff | apps/api/src/indexer/indexer-replay.service.ts:178-211 | An execution that comes back frees its key and touches no other; failures and unkeyed successes are not remembered, a keyed success is the newest memory. |
| DlqReplay.FailureRunsAgain | apps/api/src/indexer/indexer-replay.service.ts:182-211 | After a failure the same request starts over, unless an older success still answers it. |
| DlqReplay.RememberAppends | apps/api/src/indexer/indexer-replay.service.ts:213-227 | A new result goes to the end, the map stays within 1000 entries with unique keys, and nothing else enters. |
| DlqReplay.RunKeepsInv | apps/api/src/indexer/indexer-replay.service.ts:145-227 | In every run at most one execution per key is in flight, memory holds at most 1000 results, and only keyed successes. |
| DlqReplay.RunKeepsPlace | apps/api/src/indexer/indexer-replay.service.ts:213-227 | A fresh result moves towards the front by at most one place per later keyed success. |
| DlqReplay.RememberedUntilTtlOrThousand | apps/api/src/indexer/indexer-replay.service.ts:155-164 | A keyed success answers its key until its TTL ends or a thousand later keyed successes came in. |
| ReplayMemory.RunKeepsTail | apps/api/src/indexer/indexer-replay.service.ts:213-227 | While nothing is older than the TTL, the memory ends with the last thousand keyed successes in the order they came in. |
| ReplayMemory.MemoryIsLastThousand | apps/api/src/indexer/indexer-replay.service.ts:213-227 | Less than a TTL after everything under way began, once a thousand keyed successes came in the memory is exactly the last thousand: each further one evicts the oldest. |
| ReplayMemory.AnsweredIffFewerThanThousand | apps/api/src/indexer/indexer-replay.service.ts:155-227 | With a clock that does not go back, and less than a TTL after everything under way began, a keyed success answers its key if and only if fewer than a thousand keyed successes of other keys came in since. |
| WalletNonce.OneJwtPerNonce | apps/api/src/auth/auth.service.ts:98-186 | Under every interleaving, expiry, re-issue, lockout and lost reply, each nonce yields at most one JWT, and a JWT for a wallet rests on a valid signature by it over a nonce issued to it. |
| WalletNonce.StepKeepsInv | apps/api/src/auth/auth.service.ts:53-63 | Every step keeps stored nonces live and unspent and every request justified by what it has checked. |
| WalletNonce.DeadNonceStaysDead | apps/api/src/auth/auth.service.ts:53-63 | A nonce gone from the store never comes back, and no request that had not consumed it ever will. |
| WalletNonce.ReissueKills | apps/api/src/auth/nonce.controller.ts:92-99 | Issuing again kills the wallet's previous nonce. |
| WalletNonce.KeysApart | apps/api/src/auth/auth.service.ts:69-72 | No wallet's attempts key is any well-formed wallet's nonce key. |
| WalletNonce.OtherWalletsUntouched | apps/api/src/auth/auth.service.ts:98-262 | A request never changes another wallet's nonce, however it fails. |
| WalletNonce.AuthService.IssueNonce | apps/api/src/auth/nonce.controller.ts:77-99 | A nonce replaces the stored one of the wallet in the trimmed request value, and only if that is well formed. |
| WalletNonce.TrimFindsWallet | apps/api/src/auth/nonce.controller.ts:129-138 | Blanks around a wallet address do not matter. |
| WalletNonce.TrimTakesBlanks | apps/api/src/auth/nonce.controller.ts:129-138 | Trimming takes away blanks only, and all of them from both ends. |
| WalletNonce.AuthService.VerifyWallet | apps/api/src/auth/auth.service.ts:98-186 | A token for exactly the nonce stored under the wallet's key with a valid signature, which removes nonce and counter; otherwise the code of the first check that fails, or the lockout at the limit, with the failure counted or both keys removed; no other key changes. |
| WalletNonce.VerifyAloneKeepsPromise | apps/api/src/auth/auth.service.ts:98-186 | The same of the whole verification the steps of the machine refine. |
| WalletNonce.AuthService.RegisterFailedAttempt | apps/api/src/auth/auth.service.ts:241-262 | A failure counts, and the one at the limit removes nonce and counter. |
| WalletNonce.StepsRefineRequest | apps/api/src/auth/auth.service.ts:98-262 | The machine's store calls, when nothing comes between them, end within five calls in the store and with the token of the whole verification. |
| WalletNonce.LeftAlone | apps/api/src/auth/auth.service.ts:98-262 | A request begun in any state and left alone for five answered store calls adds one token exactly when its nonce is the stored one and its signature valid, and leaves the store as a verification owes it. |
| WalletNonce.SignedNonceEarnsToken | apps/api/src/auth/auth.service.ts:98-186 | From the start, a nonce issued, signed and sent back earns its wallet one token. |
| WalletNonce.LockoutAtTheLimit | apps/api/src/auth/auth.service.ts:241-262 | With c failures counted against the wallet, its nonce survives exactly the next limit - c - 1 failures, and the one after removes nonce and counter; from c at the limit on, the next failure does. |
| WalletNonce.NewNonceGetsFullLimitIff | apps/api/src/auth/nonce.controller.ts:92-99 | Issuing leaves the counter as it was, so a new nonce is removed by exactly the limit-th failure if and only if none is counted against its wallet, or the limit is one. |
| WalletNonce.ReissueInheritsFailures | apps/api/src/auth/auth.service.ts:241-262 | A nonce issued after k failures on the one before it can take only limit - k. |
| BaseUnits.PrintReadsBack | apps/api/src/balances/balances.service.ts:381-389 | The printed amount is a decimal that reads back as the amount; its fraction, if any, has at most `decimals` digits and no trailing zero. |
| BaseUnits.FractionDenotesPart | apps/api/src/balances/balances.service.ts:384-387 | The padded and stripped fraction, scaled back, is the remainder. |
| BaseUnits.NoLeadingZero | apps/api/src/balances/balances.service.ts:381-389 | An amount of at least one whole unit is printed without a leading zero. |
| BaseUnits.OneZeroBelowOne | apps/api/src/balances/balances.service.ts:381-389 | Less than one unit is printed as 0, or with a single zero before the point. |
| BaseUnits.PrintInjective | apps/api/src/balances/balances.service.ts:381-389 | Distinct amounts print differently. |
| RateLimiter.FixedWindowLimiter.Take | apps/api/src/indexer/dlq-replay.guard.ts:76-84 | A call equals one step of the limiter on its two fields. |
| RateLimiter.FixedWindowLimiter.Reset | apps/api/src/indexer/dlq-replay.guard.ts:86-89 | A reset limiter is a new one. |
| RateLimiter.AtMostTwiceTheLimit | apps/api/src/indexer/dlq-replay.guard.ts:71-90 | For every trace of non-decreasing times, no closed span of one window admits more than twice the limit. |
| RateLimiter.TwiceTheLimitReached | apps/api/src/indexer/dlq-replay.guard.ts:71-90 | For every positive limit and window, at any time after the last window ended, the whole limit at one moment and again one window later is admitted within one closed span. |
| RateLimiter.OneLimitIffNothingAdmitted | apps/api/src/indexer/dlq-replay.guard.ts:71-90 | All traces of a new limiter keep to the limit in every closed span of one window if and only if the limit is not positive. |
| RateLimiter.AtMostTwiceLessOne | apps/api/src/indexer/dlq-replay.guard.ts:71-90 | With windows opened by calls, a span one shorter than the window admits at most twice the limit less one. |
| RateLimiter.TwiceLessOneReached | apps/api/src/indexer/dlq-replay.guard.ts:71-90 | For every limit and every window above one millisecond that bound is reached too. |
| RateLimiter.RefusalIsHonoured | apps/api/src/indexer/dlq-replay.guard.ts:76-84 | Every refusal returns a wait in (0, window]; a lone retry before it is refused again, and one after it is admitted when the limit is positive. |

## Left out

- SwapQuote.GetSwapQuote: does not model `priceImpact`, which rests on floating point, nor amounts given as text.
- Swap quotes: slippage and fee tier are integers and prices positive. The records have the fields quote.ts reads, `sqrtPriceX96` on pool and ticks, which types.ts names differently.
- The quote formulas over floating point (`calculateSwapQuote`, `calculateExactOutputQuote`, `priceToTick`, `tickToPrice`, impermanent loss): IEEE rounding and `toFixed` decide their results.
- Position math: ranges with lower >= upper, on which the source divides by zero or returns negative amounts, and the loss of precision in `Number()` for ticks beyond 2^53.
- PositionMath.DepositCoversPosition: does not cover token0 in range, where the code reads and buys over different stretches; the exact condition has its own row.
- Account ids: the base32 word is its 32 bits as a number, the CRC register its 16 bits as booleans; strings are lists of characters.
- Live candles: times are integers (a non-finite time is dropped by the source before anything else), incoming candles are real ones as the socket delivers them, and `Date.now` is a parameter. Fetching, the WebSocket and React state are not part of this model. The source's documentation says duplicates keep the last seen, which is also what the code does.
- Server candles: prices and volumes are exact numbers where the source uses doubles, and swaps are totally ordered where the source orders by time alone. Backfill stops before the last complete period, as the code does, although its comment says every missing candle.
- Candles.CandlesService.Backfill: does not model authorisation, the interval check or the in-flight guard, which only reject a call before it changes anything.
- Ticks paging: cursors are the times they encode (no base64, no ISO text), so an undecodable cursor is one value; authorisation and a failing database are not modelled.
- Horizon: an account polled from the `now` cursor, the restart from a saved ledger, price parsing, case folding of event types and the `polling` and `stopped` flags, which only skip a poll; tokens are numbers. Amount, tick and fee fields of jobs are carried as the record they came from.
- Horizon.NoRecordSkipped: assumes paging tokens ascend and, within every stretch of a page's length, each ledger's records stand together; without the latter it fails, for records that all have their fields under the exact condition of `HorizonRuns.EveryRunSafeIff`.
- Wallet nonces: Redis time-to-live is an expiry that may happen at any moment, the signature check is an arbitrary predicate, nonces are never repeated, setting the counter's time-to-live is one store call, and JWT contents are the wallet. Invalid issue requests do nothing.
- WalletNonce.AuthService.RegisterFailedAttempt: does not model the counter's time-to-live, which only ever removes the counter earlier; the step machine has that as an expiry.
- IndexerTables.IndexerWorker.Handle: does not model the ledger checkpoint, timestamps and failing raw writes.
- Indexer tables: position and fee projections, token enrichment, transaction hashes and amount1. A fee tier is the integer its text parses to.
- IndexerTables.DeliveriesConverge: leaves out pool price, tick and liquidity and a swap's fee, which are last-writer values and depend on the order of delivery.
- ReplayMemory.AnsweredIffFewerThanThousand: covers requests that come less than a TTL after every execution under way at the success began; later ones meet the sweep, which keeps exactly the results younger than the TTL (`DlqReplay.SweepKeepsFresh`).
- Dead-letter replay: the loop that re-enqueues single jobs, the replies of requests that joined an execution, metrics and error mapping.
- Base units: negative amounts, which balances never have.
- RateLimiter.AtMostTwiceTheLimit: times do not go back, as a wall clock promises only approximately.
- Transaction builders, guards and configuration resolvers, caching, compression, fixture manifests, health probes and the user interface: wrappers or single-branch checks.
