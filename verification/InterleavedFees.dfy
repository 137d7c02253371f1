/** The fee recorded for a swap when handlers run side by side: the read of the pool and the write
    of the row are separate store calls, and the pool's creation may fall before, between or after. */
module InterleavedFees {
  import opened IndexerTables
  import opened JobInterleavings
  import opened SwapFees

  // ----- what a run can record ---------------------------------------------------

  /** The event's own fee or the one derived from fee tier zero or from the pool's fee tier. */
  ghost predicate KnownFee(jobs: seq<Job>, s: Job, fee: real)
    requires s.SwapProcessed? && s.amount0.Some?
  {
    fee == FeeAtTier(s, 0) || fee == FeeAtTier(s, TierIn(jobs, s.poolId))
  }

  /** An upsert of a pool's creation shows the creation's fee tier. */
  lemma CreationShowsTier(jobs: seq<Job>, w: Write)
    requires JobsCoherent(jobs) && w.WritePoolCreated? && exists j :: j in jobs && UpsertOf(j, w)
    ensures w.identity.feeTier == TierIn(jobs, w.poolId)
  {
    var j :| j in jobs && UpsertOf(j, w);
    UpsertShowsJob(j, w);
    TierOfCreation(jobs, j);
  }

  /** A pool upserted by some of the jobs shows the pool's fee tier, or none yet. */
  lemma TierShown(ws: seq<Write>, jobs: seq<Job>, p: string)
    requires JobsCoherent(jobs) && FromJobs(ws, jobs) && p in ApplyAll(EMPTY, ws).pools
    ensures var tier := ApplyAll(EMPTY, ws).pools[p].identity.feeTier; tier == 0 || tier == TierIn(jobs, p)
  {
    FromJobsCoherent(jobs, ws);
    PoolsFollowWrites(ws);
    if identity: Identity :| NamesPool(ws, p, identity) {
      var w :| w in ws && w.WritePoolCreated? && w.poolId == p && w.identity == identity;
      CreationShowsTier(jobs, w);
    }
  }

  lemma FeeReadKnown(m: Machine, jobs: seq<Job>, s: Job)
    requires Inv(m, jobs) && JobsCoherent(jobs) && s.SwapProcessed? && s.amount0.Some?
    ensures KnownFee(jobs, s, FeeFor(m.tables, s))
  {
    FeeFromTables(m.tables, s);
    if s.poolId in m.tables.pools {
      TierShown(m.log, jobs, s.poolId);
    }
  }

  /** What every delivery of the swap has read, and what its row holds, is a known fee. */
  ghost predicate FeesKnown(m: Machine, jobs: seq<Job>, s: Job)
    requires s.SwapProcessed? && s.amount0.Some?
  {
    && (forall i :: 0 <= i < |m.chains| && m.chains[i].job == s && m.chains[i].pos >= 2 ==> KnownFee(jobs, s, m.chains[i].fee))
    && (s.eventId in m.tables.swaps ==> KnownFee(jobs, s, m.tables.swaps[s.eventId].feeAmount))
  }

  /** One upsert sets the swap's row only for the swap itself, to the fee its delivery has read. */
  lemma WriteSetsOwnRow(t: Tables, c: Chain, s: Job)
    requires !Done(c) && c.pos != 1 && s.SwapProcessed? && (RawKeyOf(c.job) == RawKeyOf(s) ==> c.job == s)
    ensures var u := Apply(t, NextWrite(c));
            s.eventId in u.swaps ==>
              || (s.eventId in t.swaps && u.swaps[s.eventId] == t.swaps[s.eventId])
              || (c.job == s && c.pos >= 2 && u.swaps[s.eventId].feeAmount == c.fee)
  {
    FeeKeepsLength(c.job, c.fee);
  }

  lemma StepKeepsFees(m: Machine, jobs: seq<Job>, i: nat, s: Job)
    requires Inv(m, jobs) && JobsCoherent(jobs) && s in jobs && s.SwapProcessed? && s.amount0.Some? && FeesKnown(m, jobs, s)
    ensures FeesKnown(Step(m, i), jobs, s)
  {
    if i < |m.chains| && !Done(m.chains[i]) {
      var c := m.chains[i];
      assert c.job == jobs[i] && jobs[i] in jobs;
      if c.pos == 1 {
        if c.job == s {
          FeeReadKnown(m, jobs, s);
        }
      } else {
        WriteSetsOwnRow(m.tables, c, s);
      }
    }
  }

  lemma {:induction false} RunFeesKnown(jobs: seq<Job>, schedule: seq<nat>, s: Job)
    requires JobsCoherent(jobs) && s in jobs && s.SwapProcessed? && s.amount0.Some?
    ensures FeesKnown(Run(Start(jobs), schedule), jobs, s)
  {
    if schedule != [] {
      var before := schedule[..|schedule| - 1];
      RunFeesKnown(jobs, before, s);
      RunKeepsInv(jobs, before);
      StepKeepsFees(Run(Start(jobs), before), jobs, schedule[|schedule| - 1], s);
    }
  }

  // ----- one after the other is one interleaving ---------------------------------

  lemma {:induction false} RunConcat(m: Machine, a: seq<nat>, b: seq<nat>)
    ensures Run(m, a + b) == Run(Run(m, a), b)
  {
    if b == [] {
      assert a + b == a;
    } else {
      assert (a + b)[..|a + b| - 1] == a + b[..|b| - 1];
      RunConcat(m, a, b[..|b| - 1]);
    }
  }

  /** `n` turns of the `i`-th delivery. */
  function Turns(i: nat, n: nat): seq<nat> {
    if n == 0 then [] else Turns(i, n - 1) + [i]
  }

  /** The first `k` deliveries, one after the other. */
  function InOrder(jobs: seq<Job>, k: nat): seq<nat>
    requires k <= |jobs|
  {
    if k == 0 then [] else InOrder(jobs, k - 1) + Turns(k - 1, Calls(jobs[k - 1]))
  }

  /** A delivery after `n` calls of its own, with nothing in between. */
  function ChainAfter(t: Tables, job: Job, n: nat): Chain {
    Chain(job, n, if n < 2 then 0.0 else FeeFor(t, job))
  }

  lemma RawKeepsFee(t: Tables, job: Job)
    ensures FeeFor(Apply(t, WriteRaw(RawKeyOf(job), job)), job) == FeeFor(t, job)
  {
  }

  lemma WrittenSnoc(c: Chain)
    requires !Done(c) && c.pos != 1
    ensures c.pos + 1 <= Calls(c.job) && Written(c.(pos := c.pos + 1)) == Written(c) + [NextWrite(c)]
  {
    FeeKeepsLength(c.job, c.fee);
  }

  lemma ApplySnoc(t: Tables, ws: seq<Write>, w: Write)
    ensures ApplyAll(t, ws + [w]) == Apply(ApplyAll(t, ws), w)
  {
    assert (ws + [w])[..|ws|] == ws;
  }

  /** The delivery's calls so far, on the tables it found. */
  ghost predicate Undisturbed(m: Machine, i: nat, t: Tables, job: Job, n: nat) {
    && i < |m.chains| && n <= Calls(job) && m.chains[i] == ChainAfter(t, job, n)
    && m.tables == ApplyAll(t, Written(ChainAfter(t, job, n)))
  }

  lemma FirstCall(m: Machine, i: nat, t: Tables, job: Job)
    requires Undisturbed(m, i, t, job, 0) && 0 < Calls(job)
    ensures Undisturbed(Step(m, i), i, t, job, 1)
  {
    assert Written(ChainAfter(t, job, 1)) == [WriteRaw(RawKeyOf(job), job)];
    ApplyOne(t, WriteRaw(RawKeyOf(job), job));
  }

  lemma ReadCall(m: Machine, i: nat, t: Tables, job: Job)
    requires Undisturbed(m, i, t, job, 1) && 1 < Calls(job)
    ensures Undisturbed(Step(m, i), i, t, job, 2)
  {
    var raw := WriteRaw(RawKeyOf(job), job);
    FeeKeepsLength(job, FeeFor(t, job));
    assert Written(ChainAfter(t, job, 1)) == [raw] && Written(ChainAfter(t, job, 2)) == [raw];
    ApplyOne(t, raw);
    RawKeepsFee(t, job);
  }

  lemma WriteCall(m: Machine, i: nat, t: Tables, job: Job, n: nat)
    requires Undisturbed(m, i, t, job, n) && 2 <= n < Calls(job)
    ensures Undisturbed(Step(m, i), i, t, job, n + 1)
  {
    var c := ChainAfter(t, job, n);
    WrittenSnoc(c);
    ApplySnoc(t, Written(c), NextWrite(c));
  }

  /** One more call of a delivery nobody interrupts. */
  lemma NextCall(m: Machine, i: nat, t: Tables, job: Job, n: nat)
    requires Undisturbed(m, i, t, job, n) && n < Calls(job)
    ensures Undisturbed(Step(m, i), i, t, job, n + 1)
  {
    if n == 0 {
      FirstCall(m, i, t, job);
    } else if n == 1 {
      ReadCall(m, i, t, job);
    } else {
      WriteCall(m, i, t, job, n);
    }
  }

  lemma StepKeepsOthers(m: Machine, i: nat)
    ensures |Step(m, i).chains| == |m.chains| && forall k :: 0 <= k < |m.chains| && k != i ==> Step(m, i).chains[k] == m.chains[k]
  {
  }

  lemma OneMoreTurn(m: Machine, i: nat, n: nat)
    requires n > 0
    ensures Run(m, Turns(i, n)) == Step(Run(m, Turns(i, n - 1)), i)
  {
    assert Turns(i, n)[..|Turns(i, n)| - 1] == Turns(i, n - 1);
  }

  lemma {:induction false} ChainRuns(m: Machine, i: nat, job: Job, n: nat)
    requires i < |m.chains| && m.chains[i] == Chain(job, 0, 0.0) && n <= Calls(job)
    ensures var u := Run(m, Turns(i, n));
            && Undisturbed(u, i, m.tables, job, n) && |u.chains| == |m.chains|
            && forall k :: 0 <= k < |m.chains| && k != i ==> u.chains[k] == m.chains[k]
  {
    if n > 0 {
      ChainRuns(m, i, job, n - 1);
      OneMoreTurn(m, i, n);
      NextCall(Run(m, Turns(i, n - 1)), i, m.tables, job, n - 1);
      StepKeepsOthers(Run(m, Turns(i, n - 1)), i);
    }
  }

  lemma WholeChainWrites(t: Tables, job: Job)
    ensures ApplyAll(t, Written(ChainAfter(t, job, Calls(job)))) == HandleJob(t, job)
  {
    FeeKeepsLength(job, FeeFor(t, job));
    assert Written(ChainAfter(t, job, Calls(job))) == WritesOf(job, FeeFor(t, job));
  }

  /** A whole delivery does what handling the job does. */
  lemma WholeChain(m: Machine, i: nat, job: Job)
    requires i < |m.chains| && m.chains[i] == Chain(job, 0, 0.0)
    ensures var u := Run(m, Turns(i, Calls(job)));
            && u.tables == HandleJob(m.tables, job) && |u.chains| == |m.chains|
            && u.chains[i].job == job && Done(u.chains[i])
            && forall k :: 0 <= k < |m.chains| && k != i ==> u.chains[k] == m.chains[k]
  {
    ChainRuns(m, i, job, Calls(job));
    WholeChainWrites(m.tables, job);
  }

  /** Deliveries before the `k`-th are over, the others have not begun. */
  ghost predicate InOrderAt(m: Machine, jobs: seq<Job>, k: nat)
    requires k <= |jobs|
  {
    && m.tables == HandleAll(EMPTY, jobs[..k]) && |m.chains| == |jobs|
    && (forall i :: 0 <= i < k ==> m.chains[i].job == jobs[i] && Done(m.chains[i]))
    && (forall i :: k <= i < |jobs| ==> m.chains[i] == Chain(jobs[i], 0, 0.0))
  }

  lemma OneMoreInOrder(m: Machine, jobs: seq<Job>, k: nat)
    requires 0 < k <= |jobs| && InOrderAt(m, jobs, k - 1)
    ensures InOrderAt(Run(m, Turns(k - 1, Calls(jobs[k - 1]))), jobs, k)
  {
    WholeChain(m, k - 1, jobs[k - 1]);
    assert jobs[..k][..k - 1] == jobs[..k - 1];
  }

  lemma {:induction false} InOrderRuns(jobs: seq<Job>, k: nat)
    requires k <= |jobs|
    ensures InOrderAt(Run(Start(jobs), InOrder(jobs, k)), jobs, k)
  {
    if k > 0 {
      var m := Run(Start(jobs), InOrder(jobs, k - 1));
      InOrderRuns(jobs, k - 1);
      RunConcat(Start(jobs), InOrder(jobs, k - 1), Turns(k - 1, Calls(jobs[k - 1])));
      OneMoreInOrder(m, jobs, k);
    }
  }

  /** Handling the jobs one after the other is one of the interleaved runs. */
  lemma SequentialIsARun(jobs: seq<Job>) returns (schedule: seq<nat>)
    ensures AllDelivered(Run(Start(jobs), schedule)) && Run(Start(jobs), schedule).tables == HandleAll(EMPTY, jobs)
  {
    schedule := InOrder(jobs, |jobs|);
    InOrderRuns(jobs, |jobs|);
    assert jobs[..|jobs|] == jobs;
    var m := Run(Start(jobs), schedule);
    forall i | 0 <= i < |m.chains| ensures Delivered(m, m.chains[i].job) {
      assert Done(m.chains[i]);
    }
  }

  // ----- when all runs agree -----------------------------------------------------

  /** A run over these jobs, with any repetitions, in which every job went through. */
  ghost predicate CompleteRun(jobs: seq<Job>, jobs': seq<Job>, schedule: seq<nat>) {
    SameJobs(jobs, jobs') && AllDelivered(Run(Start(jobs'), schedule))
  }

  function FeeInRun(jobs: seq<Job>, schedule: seq<nat>, s: Job): real {
    var t := Run(Start(jobs), schedule).tables;
    if s.eventId in t.swaps then t.swaps[s.eventId].feeAmount else 0.0
  }

  ghost predicate RunsAgreeOnFee(jobs: seq<Job>, s: Job) {
    forall jobs1, schedule1, jobs2, schedule2 ::
      CompleteRun(jobs, jobs1, schedule1) && CompleteRun(jobs, jobs2, schedule2) ==>
        FeeInRun(jobs1, schedule1, s) == FeeInRun(jobs2, schedule2, s)
  }

  /** In any interleaved run the swap's row is there, with a known fee. */
  lemma FeeOfRunKnown(jobs: seq<Job>, jobs': seq<Job>, schedule: seq<nat>, s: Job)
    requires JobsCoherent(jobs) && ValidPrices(jobs) && s in jobs && CompleteSwap(s) && CompleteRun(jobs, jobs', schedule)
    ensures s.eventId in Run(Start(jobs'), schedule).tables.swaps && KnownFee(jobs, s, FeeInRun(jobs', schedule, s))
  {
    SameJobsCoherent(jobs, jobs');
    InterleavedAsHandled(jobs', schedule);
    FeeIsFromFirstDelivery(jobs', s);
    RunFeesKnown(jobs', schedule, s);
    TierSameMembers(jobs, jobs', s.poolId);
  }

  lemma SequentialFee(jobs: seq<Job>, jobs': seq<Job>, s: Job) returns (schedule: seq<nat>)
    requires SameJobs(jobs, jobs')
    ensures CompleteRun(jobs, jobs', schedule) && FeeInRun(jobs', schedule, s) == RecordedFee(jobs', s)
  {
    schedule := SequentialIsARun(jobs');
  }

  lemma DifferentFees(jobs: seq<Job>, s: Job, a: seq<Job>, schedule1: seq<nat>, b: seq<Job>, schedule2: seq<nat>)
    requires CompleteRun(jobs, a, schedule1) && CompleteRun(jobs, b, schedule2)
    requires FeeInRun(a, schedule1, s) != FeeInRun(b, schedule2, s)
    ensures !RunsAgreeOnFee(jobs, s)
  {
  }

  lemma TwoRunsDiffer(jobs: seq<Job>, s: Job)
    requires JobsCoherent(jobs) && ValidPrices(jobs) && s in jobs && CompleteSwap(s)
    requires FeeAtTier(s, TierIn(jobs, s.poolId)) != FeeAtTier(s, 0)
    ensures !RunsAgreeOnFee(jobs, s)
  {
    var c := CreationAmong(jobs, s.poolId);
    TierOfCreation(jobs, c);
    SwapFirstFee(jobs, s);
    CreationFirstFee(jobs, s, c);
    var schedule1 := SequentialFee(jobs, [s] + jobs, s);
    var schedule2 := SequentialFee(jobs, [c] + jobs, s);
    DifferentFees(jobs, s, [s] + jobs, schedule1, [c] + jobs, schedule2);
  }

  /** All interleaved runs over the same jobs, with any repetitions and cut-off deliveries, record
      the same fee for a swap if and only if the event carries one, its amount is zero, or its
      pool's creation is not among the jobs or has fee tier zero. */
  lemma RunsAgreeOnFeeIff(jobs: seq<Job>, s: Job)
    requires JobsCoherent(jobs) && ValidPrices(jobs) && s in jobs && CompleteSwap(s)
    ensures RunsAgreeOnFee(jobs, s)
            <==> s.feeAmount.Some? || s.amount0.value == 0.0 || TierIn(jobs, s.poolId) == 0
  {
    FeeAtTierIff(s, TierIn(jobs, s.poolId));
    if FeeAtTier(s, TierIn(jobs, s.poolId)) == FeeAtTier(s, 0) {
      forall jobs1, schedule1, jobs2, schedule2 |
        CompleteRun(jobs, jobs1, schedule1) && CompleteRun(jobs, jobs2, schedule2)
        ensures FeeInRun(jobs1, schedule1, s) == FeeInRun(jobs2, schedule2, s)
      {
        FeeOfRunKnown(jobs, jobs1, schedule1, s);
        FeeOfRunKnown(jobs, jobs2, schedule2, s);
      }
    } else {
      TwoRunsDiffer(jobs, s);
    }
  }
}
