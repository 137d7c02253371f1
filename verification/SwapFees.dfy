/** The fee recorded for a swap over whole deliveries: what it is, and when the order of delivery
    does not matter to it. */
module SwapFees {
  import opened IndexerTables
  import opened Wrappers

  // ----- the fee tier a delivery has shown so far --------------------------------

  predicate Creates(job: Job, p: string) {
    job.PoolCreated? && job.poolId == p && !HasEmptyField(job)
  }

  /** The fee tier of the pool's creation among the jobs, and 0 without one. */
  function TierIn(jobs: seq<Job>, p: string): int {
    if jobs == [] then 0
    else if Creates(jobs[|jobs| - 1], p) then jobs[|jobs| - 1].feeTier
    else TierIn(jobs[..|jobs| - 1], p)
  }

  lemma {:induction false} TierOfCreation(jobs: seq<Job>, created: Job)
    requires JobsCoherent(jobs) && created in jobs && Creates(created, created.poolId)
    ensures TierIn(jobs, created.poolId) == created.feeTier
  {
    var before, last := jobs[..|jobs| - 1], jobs[|jobs| - 1];
    assert jobs == before + [last] && last in jobs;
    if !Creates(last, created.poolId) {
      TierOfCreation(before, created);
    }
  }

  lemma {:induction false} TierWithoutCreation(jobs: seq<Job>, p: string)
    requires forall j :: j in jobs ==> !Creates(j, p)
    ensures TierIn(jobs, p) == 0
  {
    if jobs != [] {
      assert jobs[|jobs| - 1] in jobs;
      TierWithoutCreation(jobs[..|jobs| - 1], p);
    }
  }

  lemma TierSameMembers(jobs: seq<Job>, jobs': seq<Job>, p: string)
    requires JobsCoherent(jobs) && JobsCoherent(jobs') && forall j :: j in jobs <==> j in jobs'
    ensures TierIn(jobs, p) == TierIn(jobs', p)
  {
    if c :| c in jobs && Creates(c, p) {
      TierOfCreation(jobs, c);
      TierOfCreation(jobs', c);
    } else {
      TierWithoutCreation(jobs, p);
      TierWithoutCreation(jobs', p);
    }
  }

  /** A part of a delivery has shown the pool's tier, or nothing of it yet. */
  lemma TierOfPart(part: seq<Job>, jobs: seq<Job>, p: string)
    requires JobsCoherent(jobs) && forall j :: j in part ==> j in jobs
    ensures TierIn(part, p) == TierIn(jobs, p) || TierIn(part, p) == 0
  {
    if c :| c in part && Creates(c, p) {
      TierOfCreation(part, c);
      TierOfCreation(jobs, c);
    } else {
      TierWithoutCreation(part, p);
    }
  }

  // ----- the fee a swap is recorded with -----------------------------------------

  /** The event's own fee, or the share of |amount0| that the tier gives. */
  function FeeAtTier(s: Job, tier: int): real
    requires s.SwapProcessed? && s.amount0.Some?
  {
    if s.feeAmount.Some? then s.feeAmount.value else Abs(s.amount0.value) * (tier as real / 1_000_000.0)
  }

  lemma FeeAtZero(s: Job)
    requires s.SwapProcessed? && s.amount0.Some? && s.feeAmount.None?
    ensures FeeAtTier(s, 0) == 0.0
  {
  }

  lemma PoolShowsTier(jobs: seq<Job>, p: string)
    requires JobsCoherent(jobs)
    ensures var t := HandleAll(EMPTY, jobs);
            TierIn(jobs, p) == if p in t.pools then t.pools[p].identity.feeTier else 0
  {
    if c :| c in jobs && Creates(c, p) {
      CreationNamesPool(jobs, c);
      TierOfCreation(jobs, c);
    } else {
      TierWithoutCreation(jobs, p);
      if p in HandleAll(EMPTY, jobs).pools {
        UncreatedPoolIsPlaceholder(jobs, p);
      }
    }
  }

  lemma FeeFromTables(t: Tables, s: Job)
    requires s.SwapProcessed? && s.amount0.Some?
    ensures ResolveFeeAmount(t, s)
         == FeeAtTier(s, if s.poolId in t.pools then t.pools[s.poolId].identity.feeTier else 0)
  {
    if s.feeAmount.None? {
      FeeAtZero(s);
    }
  }

  lemma FeeResolved(jobs: seq<Job>, s: Job)
    requires JobsCoherent(jobs) && s.SwapProcessed? && s.amount0.Some?
    ensures ResolveFeeAmount(HandleAll(EMPTY, jobs), s) == FeeAtTier(s, TierIn(jobs, s.poolId))
  {
    PoolShowsTier(jobs, s.poolId);
    FeeFromTables(HandleAll(EMPTY, jobs), s);
  }

  lemma {:induction false} RowsComeFromWrites(ws: seq<Write>, e: string)
    requires e in ApplyAll(EMPTY, ws).swaps
    ensures exists w :: w in ws && w.WriteSwap? && w.eventId == e
  {
    var before, last := ws[..|ws| - 1], ws[|ws| - 1];
    assert last in ws;
    if e in ApplyAll(EMPTY, before).swaps {
      RowsComeFromWrites(before, e);
      var w :| w in before && w.WriteSwap? && w.eventId == e;
      assert w in ws;
    }
  }

  /** No row before the swap's own job. */
  lemma NoRowYet(before: seq<Job>, s: Job)
    requires s.SwapProcessed? && s !in before
    requires forall j :: j in before && RawKeyOf(j) == RawKeyOf(s) ==> j == s
    ensures s.eventId !in HandleAll(EMPTY, before).swaps
  {
    TraceIsDelivery(before);
    if s.eventId in HandleAll(EMPTY, before).swaps {
      RowsComeFromWrites(Trace(before), s.eventId);
      var w :| w in Trace(before) && w.WriteSwap? && w.eventId == s.eventId;
      var j := TraceFromJobs(before, w);
      UpsertShowsJob(j, w);
    }
  }

  lemma {:induction false} RowStaysOverWrites(t: Tables, ws: seq<Write>, e: string)
    requires e in t.swaps
    ensures e in ApplyAll(t, ws).swaps && ApplyAll(t, ws).swaps[e] == t.swaps[e]
  {
    if ws != [] {
      RowStaysOverWrites(t, ws[..|ws| - 1], e);
    }
  }

  lemma {:induction false} RowStays(before: seq<Job>, later: seq<Job>, e: string)
    requires e in HandleAll(EMPTY, before).swaps
    ensures var t, u := HandleAll(EMPTY, before), HandleAll(EMPTY, before + later);
            e in u.swaps && u.swaps[e] == t.swaps[e]
  {
    if later == [] {
      assert before + later == before;
    } else {
      var n := |later| - 1;
      assert (before + later)[..|before + later| - 1] == before + later[..n];
      RowStays(before, later[..n], e);
      var t := HandleAll(EMPTY, before + later[..n]);
      RowStaysOverWrites(t, WritesOf(later[n], FeeFor(t, later[n])), e);
    }
  }

  /** Where a job first comes in a delivery. */
  function FirstAt(jobs: seq<Job>, s: Job): (i: nat)
    requires s in jobs
    ensures i < |jobs| && jobs[i] == s && s !in jobs[..i]
  {
    if jobs[0] == s then 0
    else
      assert jobs == [jobs[0]] + jobs[1..];
      var i := FirstAt(jobs[1..], s);
      assert jobs[..i + 1] == [jobs[0]] + jobs[1..][..i];
      i + 1
  }

  ghost predicate CompleteSwap(s: Job) {
    s.SwapProcessed? && !HasEmptyField(s)
  }

  function RecordedFee(jobs: seq<Job>, s: Job): real {
    var t := HandleAll(EMPTY, jobs);
    if s.eventId in t.swaps then t.swaps[s.eventId].feeAmount else 0.0
  }

  lemma CoherentPart(part: seq<Job>, jobs: seq<Job>)
    requires JobsCoherent(jobs) && forall j :: j in part ==> j in jobs
    ensures JobsCoherent(part)
  {
  }

  lemma FirstRow(before: seq<Job>, s: Job)
    requires JobsCoherent(before) && CompleteSwap(s) && s.price.Num? && s.price.n > 0
    requires s !in before && forall j :: j in before && RawKeyOf(j) == RawKeyOf(s) ==> j == s
    ensures s.eventId in HandleAll(EMPTY, before + [s]).swaps
    ensures RecordedFee(before + [s], s) == FeeAtTier(s, TierIn(before, s.poolId))
  {
    NoRowYet(before, s);
    UnfoldSwap(HandleAll(EMPTY, before), s);
    FeeResolved(before, s);
    assert (before + [s])[..|before|] == before;
  }

  lemma RowAfterwards(before: seq<Job>, s: Job, later: seq<Job>)
    requires JobsCoherent(before) && CompleteSwap(s) && s.price.Num? && s.price.n > 0
    requires s !in before && forall j :: j in before && RawKeyOf(j) == RawKeyOf(s) ==> j == s
    ensures s.eventId in HandleAll(EMPTY, before + [s] + later).swaps
    ensures RecordedFee(before + [s] + later, s) == FeeAtTier(s, TierIn(before, s.poolId))
  {
    FirstRow(before, s);
    RowStays(before + [s], later, s.eventId);
  }

  lemma CutAtFirst(jobs: seq<Job>, s: Job, i: nat)
    requires JobsCoherent(jobs) && ValidPrices(jobs) && CompleteSwap(s) && i < |jobs| && jobs[i] == s
    ensures jobs[..i] + [s] + jobs[i + 1..] == jobs
    ensures JobsCoherent(jobs[..i]) && s.price.Num? && s.price.n > 0
    ensures forall j :: j in jobs[..i] && RawKeyOf(j) == RawKeyOf(s) ==> j == s
  {
    assert s in jobs;
    CoherentPart(jobs[..i], jobs);
  }

  /** In any delivery the recorded fee is the event's own, or the one derived from the fee tier the
      pool's creation had shown by the time the swap first came, nothing if it had not come yet. */
  lemma FeeIsFromFirstDelivery(jobs: seq<Job>, s: Job)
    requires JobsCoherent(jobs) && ValidPrices(jobs) && s in jobs && CompleteSwap(s)
    ensures s.eventId in HandleAll(EMPTY, jobs).swaps
    ensures RecordedFee(jobs, s) == FeeAtTier(s, TierIn(jobs[..FirstAt(jobs, s)], s.poolId))
  {
    var i := FirstAt(jobs, s);
    CutAtFirst(jobs, s, i);
    RowAfterwards(jobs[..i], s, jobs[i + 1..]);
  }

  // ----- when the order does not matter ------------------------------------------

  ghost predicate SameJobs(jobs: seq<Job>, jobs': seq<Job>) {
    forall j :: j in jobs <==> j in jobs'
  }

  /** Every delivery of the same jobs, in any order and with any repetitions, records this fee. */
  ghost predicate FeeIndependent(jobs: seq<Job>, s: Job) {
    forall jobs' :: SameJobs(jobs, jobs') ==> RecordedFee(jobs', s) == RecordedFee(jobs, s)
  }

  lemma SameJobsCoherent(jobs: seq<Job>, jobs': seq<Job>)
    requires JobsCoherent(jobs) && ValidPrices(jobs) && SameJobs(jobs, jobs')
    ensures JobsCoherent(jobs') && ValidPrices(jobs')
  {
  }

  /** With the swap delivered first, only its own fee counts. */
  lemma SwapFirstFee(jobs: seq<Job>, s: Job)
    requires JobsCoherent(jobs) && ValidPrices(jobs) && s in jobs && CompleteSwap(s)
    ensures SameJobs(jobs, [s] + jobs) && RecordedFee([s] + jobs, s) == FeeAtTier(s, 0)
  {
    var all := [s] + jobs;
    assert SameJobs(jobs, all);
    SameJobsCoherent(jobs, all);
    FeeIsFromFirstDelivery(all, s);
    assert FirstAt(all, s) == 0;
  }

  /** With the creation delivered first, its fee tier does. */
  lemma CreationFirstFee(jobs: seq<Job>, s: Job, c: Job)
    requires JobsCoherent(jobs) && ValidPrices(jobs) && s in jobs && CompleteSwap(s)
    requires c in jobs && Creates(c, s.poolId)
    ensures SameJobs(jobs, [c] + jobs) && RecordedFee([c] + jobs, s) == FeeAtTier(s, c.feeTier)
  {
    var all := [c] + jobs;
    assert SameJobs(jobs, all);
    SameJobsCoherent(jobs, all);
    FeeIsFromFirstDelivery(all, s);
    var before := all[..FirstAt(all, s)];
    assert before[0] == c;
    CoherentPart(before, all);
    TierOfCreation(before, c);
  }

  lemma FeeAtTierIff(s: Job, tier: int)
    requires s.SwapProcessed? && s.amount0.Some?
    ensures FeeAtTier(s, tier) == FeeAtTier(s, 0) <==> s.feeAmount.Some? || s.amount0.value == 0.0 || tier == 0
  {
    ProductZero(Abs(s.amount0.value), tier as real / 1_000_000.0);
  }

  lemma FeeSettled(jobs: seq<Job>, jobs': seq<Job>, s: Job)
    requires JobsCoherent(jobs) && ValidPrices(jobs) && s in jobs && CompleteSwap(s) && SameJobs(jobs, jobs')
    requires FeeAtTier(s, TierIn(jobs, s.poolId)) == FeeAtTier(s, 0)
    ensures RecordedFee(jobs', s) == FeeAtTier(s, 0)
  {
    SameJobsCoherent(jobs, jobs');
    FeeIsFromFirstDelivery(jobs', s);
    TierOfPart(jobs'[..FirstAt(jobs', s)], jobs', s.poolId);
    TierSameMembers(jobs, jobs', s.poolId);
  }

  lemma SettledFeeIndependent(jobs: seq<Job>, s: Job)
    requires JobsCoherent(jobs) && ValidPrices(jobs) && s in jobs && CompleteSwap(s)
    requires FeeAtTier(s, TierIn(jobs, s.poolId)) == FeeAtTier(s, 0)
    ensures FeeIndependent(jobs, s)
  {
    forall jobs' | SameJobs(jobs, jobs') ensures RecordedFee(jobs', s) == RecordedFee(jobs, s) {
      FeeSettled(jobs, jobs', s);
      FeeSettled(jobs, jobs, s);
    }
  }

  lemma TwoFeesDepend(jobs: seq<Job>, s: Job, a: seq<Job>, b: seq<Job>)
    requires SameJobs(jobs, a) && SameJobs(jobs, b) && RecordedFee(a, s) != RecordedFee(b, s)
    ensures !FeeIndependent(jobs, s)
  {
  }

  lemma CreationAmong(jobs: seq<Job>, p: string) returns (c: Job)
    requires TierIn(jobs, p) != 0
    ensures c in jobs && Creates(c, p)
  {
    if forall j :: j in jobs ==> !Creates(j, p) {
      TierWithoutCreation(jobs, p);
    }
    c :| c in jobs && Creates(c, p);
  }

  /** Two deliveries that record different fees. */
  lemma UnsettledFeeDepends(jobs: seq<Job>, s: Job)
    requires JobsCoherent(jobs) && ValidPrices(jobs) && s in jobs && CompleteSwap(s)
    requires FeeAtTier(s, TierIn(jobs, s.poolId)) != FeeAtTier(s, 0)
    ensures !FeeIndependent(jobs, s)
  {
    var c := CreationAmong(jobs, s.poolId);
    TierOfCreation(jobs, c);
    SwapFirstFee(jobs, s);
    CreationFirstFee(jobs, s, c);
    TwoFeesDepend(jobs, s, [s] + jobs, [c] + jobs);
  }

  /** All deliveries of the same jobs record the same fee for a swap if and only if the event
      carries one, its amount is zero, or its pool's creation is not among the jobs or has fee
      tier zero. */
  lemma FeeIndependentIff(jobs: seq<Job>, s: Job)
    requires JobsCoherent(jobs) && ValidPrices(jobs) && s in jobs && CompleteSwap(s)
    ensures FeeIndependent(jobs, s)
            <==> s.feeAmount.Some? || s.amount0.value == 0.0 || TierIn(jobs, s.poolId) == 0
  {
    FeeAtTierIff(s, TierIn(jobs, s.poolId));
    if FeeAtTier(s, TierIn(jobs, s.poolId)) == FeeAtTier(s, 0) {
      SettledFeeIndependent(jobs, s);
    } else {
      UnsettledFeeDepends(jobs, s);
    }
  }
}
