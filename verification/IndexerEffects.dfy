/** What one handled job does to the tables, told on the event's own fields. */
module IndexerEffects {
  import opened IndexerTables
  import opened Wrappers

  /** Every field the guard looks at is there. */
  ghost predicate Whole(job: Job) {
    && job.eventId != "" && job.poolId != ""
    && (job.PoolCreated? ==> job.tokenA != "" && job.tokenB != "" && job.price != Empty)
    && (job.SwapProcessed? ==>
          job.sender != "" && job.recipient != "" && job.amount0.Some? && job.price != Empty && job.liquidity.Some?)
    && (job.PositionMinted? || job.PositionBurned? ==> job.tokenId != "" && job.owner != "" && job.liquidity.Some?)
    && (job.FeesCollected? ==> job.recipient != "")
  }

  ghost predicate SameKind(a: Job, b: Job) {
    (a.PoolCreated? && b.PoolCreated?) || (a.SwapProcessed? && b.SwapProcessed?) || (a.PositionMinted? && b.PositionMinted?)
    || (a.PositionBurned? && b.PositionBurned?) || (a.FeesCollected? && b.FeesCollected?)
  }

  /** Raw events are told apart by kind and event id. */
  lemma RawKeysTell(a: Job, b: Job)
    ensures RawKeyOf(a) == RawKeyOf(b) <==> SameKind(a, b) && a.eventId == b.eventId
  {
  }

  /** A job is skipped, with nothing written, if and only if a field it needs is missing. */
  lemma SkippedIff(t: Tables, job: Job)
    ensures HasEmptyField(job) <==> !Whole(job)
    ensures !Whole(job) ==> HandleJob(t, job) == t
  {
    assert HasEmptyField(job) ==> ApplyAll(t, []) == t;
  }

  /** The raw tables gain this event, unless they had one of its kind and id, which then stays. */
  ghost predicate RawGains(raw: map<RawKey, Job>, after: map<RawKey, Job>, job: Job) {
    after == if RawKeyOf(job) in raw then raw else raw[RawKeyOf(job) := job]
  }

  /** Positions and collected fees only leave their raw event. */
  lemma OtherHandled(t: Tables, job: Job)
    requires Whole(job) && !job.PoolCreated? && !job.SwapProcessed?
    ensures var u := HandleJob(t, job);
            RawGains(t.raw, u.raw, job) && u.tokens == t.tokens && u.pools == t.pools && u.swaps == t.swaps
  {
    SkippedIff(t, job);
    assert Projection(job, 0.0) == [];
    assert WritesOf(job, 0.0) == [WriteRaw(RawKeyOf(job), job)];
    ApplyOne(t, WriteRaw(RawKeyOf(job), job));
  }

  /** A pool's creation adds its two tokens and sets its identity and price; tick and liquidity stay,
      or start at zero. */
  lemma CreationHandled(t: Tables, c: Job)
    requires Whole(c) && c.PoolCreated?
    ensures var u := HandleJob(t, c);
            && RawGains(t.raw, u.raw, c) && u.tokens == t.tokens + {c.tokenA, c.tokenB} && u.swaps == t.swaps
            && u.pools.Keys == t.pools.Keys + {c.poolId}
            && (forall p :: p in t.pools && p != c.poolId ==> u.pools[p] == t.pools[p])
            && u.pools[c.poolId].identity == Identity(c.tokenA, c.tokenB, c.feeTier)
            && u.pools[c.poolId].sqrtPrice == c.price
            && (if c.poolId in t.pools
                then u.pools[c.poolId].tick == t.pools[c.poolId].tick && u.pools[c.poolId].liquidity == t.pools[c.poolId].liquidity
                else u.pools[c.poolId].tick == 0 && u.pools[c.poolId].liquidity == Some(0))
  {
    SkippedIff(t, c);
    var raw := WriteRaw(RawKeyOf(c), c);
    var created := WritePoolCreated(c.poolId, Identity(c.tokenA, c.tokenB, c.feeTier), c.price);
    assert Projection(c, 0.0) == [WriteToken(c.tokenA), WriteToken(c.tokenB), created];
    ApplyAllCons(t, raw, Projection(c, 0.0));
    ApplyThree(Apply(t, raw), WriteToken(c.tokenA), WriteToken(c.tokenB), created);
  }

  /** The fee a swap is given: its own, or its pool's share of the amount, or nothing. */
  function FeeOnFields(t: Tables, d: Job): real
    requires d.SwapProcessed? && d.amount0.Some?
  {
    var amount := d.amount0.value;
    match d.feeAmount
    case Some(fee) => fee
    case None =>
      if d.poolId !in t.pools then 0.0
      else (if amount < 0.0 then -amount else amount) * (t.pools[d.poolId].identity.feeTier as real / 1_000_000.0)
  }

  lemma FeeResolved(t: Tables, d: Job)
    requires d.SwapProcessed? && d.amount0.Some?
    ensures FeeFor(t, d) == FeeOnFields(t, d)
  {
  }

  /** The swap's row is there, as it was or as the event tells it. */
  ghost predicate RowGains(t: Tables, u: Tables, d: Job)
    requires d.SwapProcessed? && d.amount0.Some?
  {
    u.swaps == if d.eventId in t.swaps then t.swaps
               else t.swaps[d.eventId := SwapRow(d.poolId, d.sender, d.recipient, d.amount0, d.price, d.tick, FeeOnFields(t, d))]
  }

  /** A swap with a positive price sets its pool's price, tick and liquidity, keeps its identity or
      opens it as a placeholder, and leaves its row. */
  lemma SwapHandled(t: Tables, d: Job)
    requires Whole(d) && d.SwapProcessed? && d.price.Num? && d.price.n > 0
    ensures var u := HandleJob(t, d);
            && RawGains(t.raw, u.raw, d) && u.tokens == t.tokens && RowGains(t, u, d)
            && u.pools.Keys == t.pools.Keys + {d.poolId}
            && (forall p :: p in t.pools && p != d.poolId ==> u.pools[p] == t.pools[p])
            && u.pools[d.poolId].sqrtPrice == d.price && u.pools[d.poolId].tick == d.tick
            && u.pools[d.poolId].liquidity == d.liquidity
            && u.pools[d.poolId].identity
               == if d.poolId in t.pools then t.pools[d.poolId].identity else Identity("unknown", "unknown", 0)
  {
    SkippedIff(t, d);
    FeeResolved(t, d);
    var fee, raw := FeeFor(t, d), WriteRaw(RawKeyOf(d), d);
    var touched, row := WritePoolTouched(d.poolId, d.price, d.tick, d.liquidity), WriteSwap(d.eventId, RowOf(d, fee));
    assert Projection(d, fee) == [touched, row];
    ApplyAllCons(t, raw, Projection(d, fee));
    ApplyTwo(Apply(t, raw), touched, row);
  }

  /** A swap whose price is no positive number touches no pool: without a number it leaves its raw
      event only, otherwise its row as well if its pool is there. */
  lemma UnpricedSwapHandled(t: Tables, d: Job)
    requires Whole(d) && d.SwapProcessed? && !(d.price.Num? && d.price.n > 0)
    ensures var u := HandleJob(t, d);
            && RawGains(t.raw, u.raw, d) && u.tokens == t.tokens && u.pools == t.pools
            && if d.price.Num? && d.poolId in t.pools then RowGains(t, u, d) else u.swaps == t.swaps
  {
    SkippedIff(t, d);
    FeeResolved(t, d);
    var fee, raw := FeeFor(t, d), WriteRaw(RawKeyOf(d), d);
    ApplyAllCons(t, raw, Projection(d, fee));
    if d.price.Num? {
      assert Projection(d, fee) == [WriteSwap(d.eventId, RowOf(d, fee))];
      ApplyOne(Apply(t, raw), WriteSwap(d.eventId, RowOf(d, fee)));
    } else {
      assert Projection(d, fee) == [];
      assert ApplyAll(Apply(t, raw), []) == Apply(t, raw);
    }
  }

  ghost predicate TokenOf(jobs: seq<Job>, token: string) {
    exists c :: c in jobs && c.PoolCreated? && Whole(c) && (c.tokenA == token || c.tokenB == token)
  }

  lemma OneJobsTokens(t: Tables, job: Job, token: string)
    ensures token in HandleJob(t, job).tokens
            <==> token in t.tokens || (job.PoolCreated? && Whole(job) && (job.tokenA == token || job.tokenB == token))
  {
    if !Whole(job) {
      SkippedIff(t, job);
    } else if job.PoolCreated? {
      CreationHandled(t, job);
    } else if !job.SwapProcessed? {
      OtherHandled(t, job);
    } else if job.price.Num? && job.price.n > 0 {
      SwapHandled(t, job);
    } else {
      UnpricedSwapHandled(t, job);
    }
  }

  lemma TokenOfSnoc(before: seq<Job>, last: Job, token: string)
    ensures TokenOf(before + [last], token)
            <==> TokenOf(before, token) || (last.PoolCreated? && Whole(last) && (last.tokenA == token || last.tokenB == token))
  {
    assert forall c :: c in before + [last] <==> c in before || c == last;
  }

  /** After any delivery the tokens are exactly those of the created pools. */
  lemma {:induction false} TokensHold(jobs: seq<Job>, token: string)
    ensures token in HandleAll(EMPTY, jobs).tokens <==> TokenOf(jobs, token)
  {
    if jobs != [] {
      var before, last := jobs[..|jobs| - 1], jobs[|jobs| - 1];
      TokensHold(before, token);
      OneJobsTokens(HandleAll(EMPTY, before), last, token);
      TokenOfSnoc(before, last, token);
      assert jobs == before + [last];
    }
  }
}
