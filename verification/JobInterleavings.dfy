/** The indexer's handlers running side by side: every delivery of a job is a chain of store calls,
    the chains of different deliveries interleave freely, and a chain may be cut off anywhere as
    long as the job is delivered again. */
module JobInterleavings {
  import opened IndexerTables

  /** One delivery: the call it makes next, and, once it has read the pool, the fee it resolved. */
  datatype Chain = Chain(job: Job, pos: nat, fee: real)

  /** `log` is a history variable: the upserts carried out so far. */
  datatype Machine = Machine(tables: Tables, chains: seq<Chain>, log: seq<Write>)

  /** The raw upsert, the read of the pool, and the upserts of the projection. */
  function Calls(job: Job): nat {
    if HasEmptyField(job) then 0 else 2 + |Projection(job, 0.0)|
  }

  lemma FeeKeepsLength(job: Job, fee: real)
    ensures |Projection(job, fee)| == |Projection(job, 0.0)|
  {
  }

  predicate Done(c: Chain) {
    c.pos >= Calls(c.job)
  }

  function NextWrite(c: Chain): Write
    requires !Done(c) && c.pos != 1
  {
    FeeKeepsLength(c.job, c.fee);
    if c.pos == 0 then WriteRaw(RawKeyOf(c.job), c.job) else Projection(c.job, c.fee)[c.pos - 2]
  }

  /** The next call of the `i`-th delivery, if it has one. */
  function Step(m: Machine, i: nat): Machine {
    if i >= |m.chains| || Done(m.chains[i]) then m
    else
      var c := m.chains[i];
      if c.pos == 1 then m.(chains := m.chains[i := Chain(c.job, 2, FeeFor(m.tables, c.job))])
      else
        var w := NextWrite(c);
        Machine(Apply(m.tables, w), m.chains[i := c.(pos := c.pos + 1)], m.log + [w])
  }

  function Run(m: Machine, schedule: seq<nat>): Machine {
    if schedule == [] then m else Step(Run(m, schedule[..|schedule| - 1]), schedule[|schedule| - 1])
  }

  function Start(jobs: seq<Job>): Machine {
    Machine(EMPTY, seq(|jobs|, i requires 0 <= i < |jobs| => Chain(jobs[i], 0, 0.0)), [])
  }

  ghost predicate Delivered(m: Machine, job: Job) {
    exists k :: 0 <= k < |m.chains| && m.chains[k].job == job && Done(m.chains[k])
  }

  /** Every job has at least one delivery that went all the way. */
  ghost predicate AllDelivered(m: Machine) {
    forall i :: 0 <= i < |m.chains| ==> Delivered(m, m.chains[i].job)
  }

  // ----- the invariant -----------------------------------------------------------

  /** The upserts a delivery has carried out. */
  function Written(c: Chain): seq<Write>
    requires c.pos <= Calls(c.job)
  {
    FeeKeepsLength(c.job, c.fee);
    if c.pos == 0 then []
    else [WriteRaw(RawKeyOf(c.job), c.job)] + Projection(c.job, c.fee)[..(if c.pos == 1 then 0 else c.pos - 2)]
  }

  ghost predicate ChainLogged(c: Chain, log: seq<Write>) {
    c.pos <= Calls(c.job) && forall w :: w in Written(c) ==> w in log
  }

  ghost predicate Inv(m: Machine, jobs: seq<Job>) {
    && m.tables == ApplyAll(EMPTY, m.log)
    && |m.chains| == |jobs| && (forall i :: 0 <= i < |jobs| ==> m.chains[i].job == jobs[i])
    && (forall i :: 0 <= i < |jobs| ==> ChainLogged(m.chains[i], m.log))
    && FromJobs(m.log, jobs)
    && (ValidPrices(jobs) ==> PoolBeforeSwap(m.log))
  }

  lemma NextWriteIsUpsert(c: Chain)
    requires !Done(c) && c.pos != 1
    ensures UpsertOf(c.job, NextWrite(c))
  {
    FeeKeepsLength(c.job, c.fee);
    var ws := WritesOf(c.job, c.fee);
    assert ws[if c.pos == 0 then 0 else c.pos - 1] == NextWrite(c);
    assert NextWrite(c) in ws;
  }

  lemma WriteLogged(c: Chain, log: seq<Write>)
    requires !Done(c) && c.pos != 1 && ChainLogged(c, log)
    ensures ChainLogged(c.(pos := c.pos + 1), log + [NextWrite(c)])
  {
    FeeKeepsLength(c.job, c.fee);
    var d := c.(pos := c.pos + 1);
    assert Written(d) == Written(c) + [NextWrite(c)];
  }

  lemma ReadLogged(c: Chain, fee: real, log: seq<Write>)
    requires !Done(c) && c.pos == 1 && ChainLogged(c, log)
    ensures ChainLogged(Chain(c.job, 2, fee), log)
  {
    FeeKeepsLength(c.job, fee);
    assert Written(Chain(c.job, 2, fee)) == Written(c);
  }

  /** The upsert of a swap's row comes after its own chain has upserted the pool. */
  lemma SwapAfterPool(c: Chain, log: seq<Write>)
    requires !Done(c) && c.pos != 1 && ChainLogged(c, log) && NextWrite(c).WriteSwap?
    requires c.job.SwapProcessed? ==> c.job.price.Num? && c.job.price.n > 0
    ensures CreatesPool(log, NextWrite(c).row.poolId)
  {
    FeeKeepsLength(c.job, c.fee);
    assert Written(c)[1] == WritePoolTouched(c.job.poolId, c.job.price, c.job.tick, c.job.liquidity);
    assert Written(c)[1] in log;
  }

  lemma PoolBeforeSwapSnoc(log: seq<Write>, w: Write)
    requires PoolBeforeSwap(log) && (w.WriteSwap? ==> CreatesPool(log, w.row.poolId))
    ensures PoolBeforeSwap(log + [w])
  {
    var all := log + [w];
    forall i | 0 <= i < |all| && all[i].WriteSwap? ensures CreatesPool(all[..i], all[i].row.poolId) {
      assert all[..i] == if i < |log| then log[..i] else log;
    }
  }

  lemma FromJobsSnoc(log: seq<Write>, w: Write, jobs: seq<Job>, job: Job)
    requires FromJobs(log, jobs) && job in jobs && UpsertOf(job, w)
    ensures FromJobs(log + [w], jobs)
  {
    forall v | v in log + [w] ensures exists j :: j in jobs && UpsertOf(j, v) {
      assert v in log || v == w;
    }
  }

  lemma StaysLogged(c: Chain, log: seq<Write>, w: Write)
    requires ChainLogged(c, log)
    ensures ChainLogged(c, log + [w])
  {
    assert forall v :: v in log ==> v in log + [w];
  }

  lemma WriteKeepsChains(m: Machine, jobs: seq<Job>, i: nat)
    requires Inv(m, jobs) && i < |jobs| && !Done(m.chains[i]) && m.chains[i].pos != 1
    ensures var c := m.chains[i];
            var chains := m.chains[i := c.(pos := c.pos + 1)];
            forall k :: 0 <= k < |jobs| ==> ChainLogged(chains[k], m.log + [NextWrite(c)])
  {
    var c := m.chains[i];
    var chains := m.chains[i := c.(pos := c.pos + 1)];
    forall k | 0 <= k < |jobs| ensures ChainLogged(chains[k], m.log + [NextWrite(c)]) {
      if k == i {
        WriteLogged(c, m.log);
      } else {
        StaysLogged(m.chains[k], m.log, NextWrite(c));
      }
    }
  }

  lemma WriteKeepsLog(m: Machine, jobs: seq<Job>, c: Chain)
    requires Inv(m, jobs) && c in m.chains && c.job in jobs && !Done(c) && c.pos != 1 && ChainLogged(c, m.log)
    ensures var log := m.log + [NextWrite(c)];
            && Apply(m.tables, NextWrite(c)) == ApplyAll(EMPTY, log)
            && FromJobs(log, jobs) && (ValidPrices(jobs) ==> PoolBeforeSwap(log))
  {
    var w := NextWrite(c);
    NextWriteIsUpsert(c);
    FromJobsSnoc(m.log, w, jobs, c.job);
    if ValidPrices(jobs) {
      if w.WriteSwap? {
        SwapAfterPool(c, m.log);
      }
      PoolBeforeSwapSnoc(m.log, w);
    }
    ApplyAllConcat(EMPTY, m.log, [w]);
    ApplyOne(m.tables, w);
  }

  lemma WriteKeepsInv(m: Machine, jobs: seq<Job>, i: nat)
    requires Inv(m, jobs) && i < |jobs| && !Done(m.chains[i]) && m.chains[i].pos != 1
    ensures Inv(Step(m, i), jobs)
  {
    assert jobs[i] in jobs;
    WriteKeepsChains(m, jobs, i);
    WriteKeepsLog(m, jobs, m.chains[i]);
  }

  lemma StepKeepsInv(m: Machine, jobs: seq<Job>, i: nat)
    requires Inv(m, jobs)
    ensures Inv(Step(m, i), jobs)
  {
    if i < |jobs| && !Done(m.chains[i]) {
      if m.chains[i].pos == 1 {
        ReadLogged(m.chains[i], FeeFor(m.tables, m.chains[i].job), m.log);
      } else {
        WriteKeepsInv(m, jobs, i);
      }
    }
  }

  lemma {:induction false} RunKeepsInv(jobs: seq<Job>, schedule: seq<nat>)
    ensures Inv(Run(Start(jobs), schedule), jobs)
  {
    if schedule != [] {
      RunKeepsInv(jobs, schedule[..|schedule| - 1]);
      StepKeepsInv(Run(Start(jobs), schedule[..|schedule| - 1]), jobs, schedule[|schedule| - 1]);
    }
  }

  // ----- interleaved is as good as one after the other ---------------------------

  /** A delivery that went all the way leaves every upsert of its job in the log, but for fees. */
  lemma DoneChainLogged(c: Chain, log: seq<Write>, w: Write) returns (v: Write)
    requires Done(c) && ChainLogged(c, log) && UpsertOf(c.job, w)
    ensures v in log && SameUpToFee(w, v)
  {
    var fee :| w in WritesOf(c.job, fee);
    v := SameJobWrites(c.job, fee, c.fee, w);
    FeeKeepsLength(c.job, c.fee);
    assert Written(c) == WritesOf(c.job, c.fee);
  }

  lemma LogCovers(m: Machine, jobs: seq<Job>, ws: seq<Write>)
    requires Inv(m, jobs) && AllDelivered(m) && FromJobs(ws, jobs)
    ensures Covers(m.log, ws)
  {
    forall w | w in ws ensures exists v :: v in m.log && SameUpToFee(w, v) {
      var job :| job in jobs && UpsertOf(job, w);
      var i :| 0 <= i < |jobs| && jobs[i] == job;
      assert Delivered(m, m.chains[i].job);
      var k :| 0 <= k < |m.chains| && m.chains[k].job == job && Done(m.chains[k]);
      var v := DoneChainLogged(m.chains[k], m.log, w);
    }
  }

  lemma TraceCoversLog(jobs: seq<Job>, log: seq<Write>)
    requires FromJobs(log, jobs)
    ensures Covers(Trace(jobs), log)
  {
    forall v | v in log ensures exists w :: w in Trace(jobs) && SameUpToFee(v, w) {
      var job :| job in jobs && UpsertOf(job, v);
      var w := JobsInTrace(jobs, job, v);
    }
  }

  lemma TraceIsFromJobs(jobs: seq<Job>)
    ensures FromJobs(Trace(jobs), jobs)
  {
    forall w | w in Trace(jobs) ensures exists j :: j in jobs && UpsertOf(j, w) {
      var j := TraceFromJobs(jobs, w);
    }
  }

  /** However the handlers' store calls interleave, and wherever deliveries are cut off, once every
      job went through the tables agree with handling the jobs one after the other. */
  lemma InterleavedAsHandled(jobs: seq<Job>, schedule: seq<nat>)
    requires JobsCoherent(jobs) && AllDelivered(Run(Start(jobs), schedule))
    ensures Agree(Run(Start(jobs), schedule).tables, HandleAll(EMPTY, jobs))
    ensures ValidPrices(jobs) ==> AgreeOnSwaps(Run(Start(jobs), schedule).tables, HandleAll(EMPTY, jobs))
  {
    var m := Run(Start(jobs), schedule);
    RunKeepsInv(jobs, schedule);
    TraceIsFromJobs(jobs);
    LogCovers(m, jobs, Trace(jobs));
    TraceCoversLog(jobs, m.log);
    FromJobsCoherent(jobs, m.log);
    TraceCoherent(jobs);
    if ValidPrices(jobs) {
      TracePoolBeforeSwap(jobs);
    }
    TraceIsDelivery(jobs);
    WritesConverge(m.log, Trace(jobs));
  }

  /** Any two runs over the same jobs, with any repetitions, orders and interleavings, end alike. */
  lemma RunsConverge(jobs: seq<Job>, schedule: seq<nat>, jobs': seq<Job>, schedule': seq<nat>)
    requires JobsCoherent(jobs) && JobsCoherent(jobs') && forall j :: j in jobs <==> j in jobs'
    requires AllDelivered(Run(Start(jobs), schedule)) && AllDelivered(Run(Start(jobs'), schedule'))
    ensures Agree(Run(Start(jobs), schedule).tables, Run(Start(jobs'), schedule').tables)
    ensures ValidPrices(jobs) ==> AgreeOnSwaps(Run(Start(jobs), schedule).tables, Run(Start(jobs'), schedule').tables)
  {
    InterleavedAsHandled(jobs, schedule);
    InterleavedAsHandled(jobs', schedule');
    DeliveriesConverge(jobs, jobs');
  }
}
