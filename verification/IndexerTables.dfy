/** The job handlers of apps/api/src/indexer/indexer.worker.ts over their tables. Every handler is a
    chain of upserts; jobs are delivered at least once, in any order, and the chains of different
    jobs may interleave. */
module IndexerTables {
  import opened Wrappers

  const UNKNOWN_TOKEN_ADDRESS := "unknown"

  /** A square-root price as text: empty, not an integer, or an integer. */
  datatype Price = Empty | NotANumber | Num(n: int)

  datatype Job =
    | PoolCreated(eventId: string, poolId: string, tokenA: string, tokenB: string, feeTier: int, price: Price)
    | SwapProcessed(eventId: string, poolId: string, sender: string, recipient: string, amount0: Option<real>,
                    price: Price, tick: int, liquidity: Option<int>, feeAmount: Option<real>)
    | PositionMinted(eventId: string, poolId: string, tokenId: string, owner: string, liquidity: Option<int>)
    | PositionBurned(eventId: string, poolId: string, tokenId: string, owner: string, liquidity: Option<int>)
    | FeesCollected(eventId: string, poolId: string, recipient: string)

  datatype RawTable = PoolCreatedTable | SwapProcessedTable | PositionMintedTable | PositionBurnedTable | FeesCollectedTable

  datatype RawKey = RawKey(table: RawTable, eventId: string)

  datatype Identity = Identity(token0: string, token1: string, feeTier: int)

  const PLACEHOLDER := Identity(UNKNOWN_TOKEN_ADDRESS, UNKNOWN_TOKEN_ADDRESS, 0)

  datatype Pool = Pool(identity: Identity, sqrtPrice: Price, tick: int, liquidity: Option<int>)

  datatype SwapRow = SwapRow(poolId: string, sender: string, recipient: string, amount0: Option<real>,
                             price: Price, tick: int, feeAmount: real)

  datatype Tables = Tables(raw: map<RawKey, Job>, tokens: set<string>, pools: map<string, Pool>, swaps: map<string, SwapRow>)

  const EMPTY := Tables(map[], {}, map[], map[])

  function RawKeyOf(job: Job): RawKey {
    RawKey(match job
           case PoolCreated(_, _, _, _, _, _) => PoolCreatedTable
           case SwapProcessed(_, _, _, _, _, _, _, _, _) => SwapProcessedTable
           case PositionMinted(_, _, _, _, _) => PositionMintedTable
           case PositionBurned(_, _, _, _, _) => PositionBurnedTable
           case FeesCollected(_, _, _) => FeesCollectedTable, job.eventId)
  }

  /** `guardEmptyData`: some field of the payload is empty. */
  predicate HasEmptyField(job: Job) {
    job.eventId == "" || job.poolId == "" ||
    match job
    case PoolCreated(_, _, a, b, _, price) => a == "" || b == "" || price == Empty
    case SwapProcessed(_, _, sender, recipient, amount0, price, _, liquidity, _) =>
      sender == "" || recipient == "" || amount0.None? || price == Empty || liquidity.None?
    case PositionMinted(_, _, tokenId, owner, liquidity) => tokenId == "" || owner == "" || liquidity.None?
    case PositionBurned(_, _, tokenId, owner, liquidity) => tokenId == "" || owner == "" || liquidity.None?
    case FeesCollected(_, _, recipient) => recipient == ""
  }

  // ----- single upserts ----------------------------------------------------------

  /** One upsert on one table. */
  datatype Write =
    | WriteRaw(key: RawKey, job: Job)
    | WriteToken(address: string)
    | WritePoolCreated(poolId: string, identity: Identity, price: Price)
    | WritePoolTouched(poolId: string, price: Price, tick: int, liquidity: Option<int>)
    | WriteSwap(eventId: string, row: SwapRow)

  function Apply(t: Tables, w: Write): Tables {
    match w
    case WriteRaw(key, job) => if key in t.raw then t else t.(raw := t.raw[key := job])
    case WriteToken(address) => t.(tokens := t.tokens + {address})
    case WritePoolCreated(p, identity, price) =>
      t.(pools := t.pools[p := if p in t.pools then t.pools[p].(identity := identity, sqrtPrice := price)
                               else Pool(identity, price, 0, Some(0))])
    case WritePoolTouched(p, price, tick, liquidity) =>
      t.(pools := t.pools[p := if p in t.pools then t.pools[p].(sqrtPrice := price, tick := tick, liquidity := liquidity)
                               else Pool(PLACEHOLDER, price, tick, liquidity)])
    case WriteSwap(eventId, row) =>
      // the row's pool is a foreign key; without it the upsert fails and is logged
      if eventId in t.swaps || row.poolId !in t.pools then t else t.(swaps := t.swaps[eventId := row])
  }

  function ApplyAll(t: Tables, ws: seq<Write>): Tables {
    if ws == [] then t else Apply(ApplyAll(t, ws[..|ws| - 1]), ws[|ws| - 1])
  }

  // ----- handlers ----------------------------------------------------------------

  function ResolveFeeAmount(t: Tables, d: Job): real
    requires d.SwapProcessed? && d.amount0.Some?
  {
    if d.feeAmount.Some? then d.feeAmount.value
    else if d.poolId in t.pools then Abs(d.amount0.value) * (t.pools[d.poolId].identity.feeTier as real / 1_000_000.0)
    else 0.0
  }

  function RowOf(d: Job, fee: real): SwapRow
    requires d.SwapProcessed?
  {
    SwapRow(d.poolId, d.sender, d.recipient, d.amount0, d.price, d.tick, fee)
  }

  function Projection(job: Job, fee: real): seq<Write> {
    match job
    case PoolCreated(_, p, a, b, feeTier, price) =>
      [WriteToken(a), WriteToken(b), WritePoolCreated(p, Identity(a, b, feeTier), price)]
    case SwapProcessed(e, p, _, _, _, price, tick, liquidity, _) =>
      if price.NotANumber? then []
      else if !(price.Num? && price.n > 0) then [WriteSwap(e, RowOf(job, fee))]
      else [WritePoolTouched(p, price, tick, liquidity), WriteSwap(e, RowOf(job, fee))]
    case _ => []
  }

  /** The upserts of one job, in order; `fee` is what a swap resolved before its own writes. */
  function WritesOf(job: Job, fee: real): seq<Write> {
    if HasEmptyField(job) then []
    else [WriteRaw(RawKeyOf(job), job)] + Projection(job, fee)
  }

  function FeeFor(t: Tables, job: Job): real {
    if job.SwapProcessed? && job.amount0.Some? then ResolveFeeAmount(t, job) else 0.0
  }

  function HandleJob(t: Tables, job: Job): Tables {
    ApplyAll(t, WritesOf(job, FeeFor(t, job)))
  }

  function HandleAll(t: Tables, jobs: seq<Job>): Tables {
    if jobs == [] then t else HandleJob(HandleAll(t, jobs[..|jobs| - 1]), jobs[|jobs| - 1])
  }

  lemma ApplyOne(t: Tables, a: Write)
    ensures ApplyAll(t, [a]) == Apply(t, a)
  {
    assert [a][..0] == [];
  }

  lemma ApplyTwo(t: Tables, a: Write, b: Write)
    ensures ApplyAll(t, [a, b]) == Apply(Apply(t, a), b)
  {
    assert [a, b][..1] == [a];
    ApplyOne(t, a);
  }

  lemma ApplyThree(t: Tables, a: Write, b: Write, c: Write)
    ensures ApplyAll(t, [a, b, c]) == Apply(Apply(Apply(t, a), b), c)
  {
    assert [a, b, c][..2] == [a, b];
    ApplyTwo(t, a, b);
  }

  lemma {:induction false} ApplyAllConcat(t: Tables, a: seq<Write>, b: seq<Write>)
    ensures ApplyAll(t, a + b) == ApplyAll(ApplyAll(t, a), b)
  {
    if b == [] {
      assert a + b == a;
    } else {
      assert (a + b)[..|a + b| - 1] == a + b[..|b| - 1];
      ApplyAllConcat(t, a, b[..|b| - 1]);
    }
  }

  lemma ApplyAllCons(t: Tables, w: Write, ws: seq<Write>)
    ensures ApplyAll(t, [w] + ws) == ApplyAll(Apply(t, w), ws)
  {
    ApplyAllConcat(t, [w], ws);
    ApplyOne(t, w);
  }

  class IndexerWorker {
    var raw: map<RawKey, Job>
    var tokens: set<string>
    var pools: map<string, Pool>
    var swaps: map<string, SwapRow>

    function View(): Tables
      reads this
    {
      Tables(raw, tokens, pools, swaps)
    }

    method Handle(job: Job)
      modifies this
      ensures View() == HandleJob(old(View()), job)
    {
      ghost var t0, fee0 := View(), FeeFor(View(), job);
      if HasEmptyField(job) { return; }
      if RawKeyOf(job) !in raw {
        raw := raw[RawKeyOf(job) := job];
      }
      ghost var t1 := View();
      assert t1 == Apply(t0, WriteRaw(RawKeyOf(job), job));
      match job {
        case PoolCreated(_, _, _, _, _, _) =>
          ProjectPoolCreated(job);
          assert fee0 == 0.0;
        case SwapProcessed(_, _, _, _, _, _, _, _, _) =>
          ProjectSwapProcessed(job);
          assert fee0 == ResolveFeeAmount(t1, job);
        case _ =>
          assert Projection(job, fee0) == [];
      }
      assert View() == ApplyAll(t1, Projection(job, fee0));
      ApplyAllCons(t0, WriteRaw(RawKeyOf(job), job), Projection(job, fee0));
    }

    method ProjectPoolCreated(d: Job)
      requires d.PoolCreated?
      modifies this`tokens, this`pools
      ensures View() == ApplyAll(old(View()), Projection(d, 0.0))
    {
      ghost var t := View();
      tokens := tokens + {d.tokenA};
      tokens := tokens + {d.tokenB};
      var identity := Identity(d.tokenA, d.tokenB, d.feeTier);
      if d.poolId in pools {
        pools := pools[d.poolId := pools[d.poolId].(identity := identity, sqrtPrice := d.price)];
      } else {
        pools := pools[d.poolId := Pool(identity, d.price, 0, Some(0))];
      }
      ApplyThree(t, WriteToken(d.tokenA), WriteToken(d.tokenB), WritePoolCreated(d.poolId, identity, d.price));
    }

    method ProjectSwapProcessed(d: Job)
      requires d.SwapProcessed? && d.amount0.Some?
      modifies this`pools, this`swaps
      ensures View() == ApplyAll(old(View()), Projection(d, ResolveFeeAmount(old(View()), d)))
    {
      ghost var t := View();
      var feeAmount := if d.feeAmount.Some? then d.feeAmount.value
                       else if d.poolId in pools
                       then Abs(d.amount0.value) * (pools[d.poolId].identity.feeTier as real / 1_000_000.0)
                       else 0.0;
      assert feeAmount == ResolveFeeAmount(t, d);
      if d.price.NotANumber? { return; }
      if !(d.price.Num? && d.price.n > 0) {
        UpsertSwap(d.eventId, RowOf(d, feeAmount));
        ApplyOne(t, WriteSwap(d.eventId, RowOf(d, feeAmount)));
        assert Projection(d, feeAmount) == [WriteSwap(d.eventId, RowOf(d, feeAmount))];
        return;
      }
      if d.poolId in pools {
        pools := pools[d.poolId := pools[d.poolId].(sqrtPrice := d.price, tick := d.tick, liquidity := d.liquidity)];
      } else {
        pools := pools[d.poolId := Pool(PLACEHOLDER, d.price, d.tick, d.liquidity)];
      }
      UpsertSwap(d.eventId, RowOf(d, feeAmount));
      ApplyTwo(t, WritePoolTouched(d.poolId, d.price, d.tick, d.liquidity), WriteSwap(d.eventId, RowOf(d, feeAmount)));
    }

    method UpsertSwap(eventId: string, row: SwapRow)
      modifies this`swaps
      ensures View() == Apply(old(View()), WriteSwap(eventId, row))
    {
      if eventId !in swaps && row.poolId in pools {
        swaps := swaps[eventId := row];
      }
    }
  }

  // ----- what a set of upserts leaves behind -------------------------------------

  ghost predicate CreatesPool(ws: seq<Write>, p: string) {
    exists w :: w in ws && ((w.WritePoolCreated? && w.poolId == p) || (w.WritePoolTouched? && w.poolId == p))
  }

  ghost predicate NamesPool(ws: seq<Write>, p: string, identity: Identity) {
    exists w :: w in ws && w.WritePoolCreated? && w.poolId == p && w.identity == identity
  }

  /** A swap row without its fee. */
  function WithoutFee(row: SwapRow): SwapRow {
    row.(feeAmount := 0.0)
  }

  ghost predicate WritesSwap(ws: seq<Write>, eventId: string, row: SwapRow) {
    exists w :: w in ws && w.WriteSwap? && w.eventId == eventId && WithoutFee(w.row) == WithoutFee(row)
  }

  /** Event ids determine payloads, and a pool has one identity. */
  ghost predicate Coherent(ws: seq<Write>) {
    && (forall v, w :: v in ws && w in ws && v.WriteRaw? && w.WriteRaw? && v.key == w.key ==> v.job == w.job)
    && (forall v, w :: v in ws && w in ws && v.WritePoolCreated? && w.WritePoolCreated? && v.poolId == w.poolId
                       ==> v.identity == w.identity)
    && (forall v, w :: v in ws && w in ws && v.WriteSwap? && w.WriteSwap? && v.eventId == w.eventId
                       ==> WithoutFee(v.row) == WithoutFee(w.row))
  }

  /** Every swap row is written after some upsert of its pool. */
  ghost predicate PoolBeforeSwap(ws: seq<Write>) {
    forall i :: 0 <= i < |ws| && ws[i].WriteSwap? ==> CreatesPool(ws[..i], ws[i].row.poolId)
  }

  ghost predicate RawAsWritten(t: Tables, ws: seq<Write>) {
    forall k: RawKey, job: Job :: (k in t.raw && t.raw[k] == job) <==> WriteRaw(k, job) in ws
  }

  ghost predicate TokensAsWritten(t: Tables, ws: seq<Write>) {
    forall a: string :: a in t.tokens <==> WriteToken(a) in ws
  }

  /** A pool exists exactly when something upserted it, carries its created identity when it has
      one, and the placeholder otherwise. */
  ghost predicate PoolsAsWritten(t: Tables, ws: seq<Write>) {
    && (forall p: string :: p in t.pools <==> CreatesPool(ws, p))
    && (forall p: string, identity: Identity :: NamesPool(ws, p, identity) ==> t.pools[p].identity == identity)
    && (forall p: string :: p in t.pools && (forall identity: Identity :: !NamesPool(ws, p, identity))
                            ==> t.pools[p].identity == PLACEHOLDER)
  }

  ghost predicate SwapsAsWritten(t: Tables, ws: seq<Write>) {
    forall e: string, row: SwapRow ::
      (e in t.swaps && WithoutFee(t.swaps[e]) == WithoutFee(row)) <==> WritesSwap(ws, e, row)
  }

  lemma CoherentPrefix(ws: seq<Write>)
    requires ws != [] && Coherent(ws)
    ensures Coherent(ws[..|ws| - 1])
  {
    assert forall w :: w in ws[..|ws| - 1] ==> w in ws;
  }

  lemma InSnoc(before: seq<Write>, last: Write, w: Write)
    ensures w in before + [last] <==> w in before || w == last
  {
  }

  lemma {:induction false} RawFollowsWrites(ws: seq<Write>)
    requires Coherent(ws)
    ensures RawAsWritten(ApplyAll(EMPTY, ws), ws) && TokensAsWritten(ApplyAll(EMPTY, ws), ws)
  {
    if ws != [] {
      var before, last := ws[..|ws| - 1], ws[|ws| - 1];
      assert ws == before + [last];
      CoherentPrefix(ws);
      RawFollowsWrites(before);
      var t := ApplyAll(EMPTY, before);
      forall k: RawKey, job: Job
        ensures (k in Apply(t, last).raw && Apply(t, last).raw[k] == job) <==> WriteRaw(k, job) in ws
      {
        InSnoc(before, last, WriteRaw(k, job));
        if last.WriteRaw? && k == last.key && k in t.raw {
          assert WriteRaw(k, t.raw[k]) in before;
        }
      }
      forall a: string ensures a in Apply(t, last).tokens <==> WriteToken(a) in ws {
        InSnoc(before, last, WriteToken(a));
      }
    }
  }

  lemma CreatesSnoc(before: seq<Write>, last: Write, p: string)
    ensures CreatesPool(before + [last], p) <==>
            CreatesPool(before, p) || (last.WritePoolCreated? && last.poolId == p) || (last.WritePoolTouched? && last.poolId == p)
  {
    var ws := before + [last];
    assert last in ws && forall w :: w in before ==> w in ws;
  }

  lemma NamesSnoc(before: seq<Write>, last: Write, p: string, identity: Identity)
    ensures NamesPool(before + [last], p, identity) <==>
            NamesPool(before, p, identity) || (last.WritePoolCreated? && last.poolId == p && last.identity == identity)
  {
    var ws := before + [last];
    assert last in ws && forall w :: w in before ==> w in ws;
  }

  lemma NamedIsCreated(ws: seq<Write>, p: string, identity: Identity)
    requires NamesPool(ws, p, identity)
    ensures CreatesPool(ws, p)
  {
  }

  lemma NamedPool(t: Tables, before: seq<Write>, last: Write, p: string, identity: Identity)
    requires PoolsAsWritten(t, before) && Coherent(before + [last]) && NamesPool(before + [last], p, identity)
    ensures p in Apply(t, last).pools && Apply(t, last).pools[p].identity == identity
  {
    var ws := before + [last];
    var w :| w in ws && w.WritePoolCreated? && w.poolId == p && w.identity == identity;
    assert last in ws;
    NamesSnoc(before, last, p, identity);
    CreatesSnoc(before, last, p);
    if NamesPool(before, p, identity) {
      NamedIsCreated(before, p, identity);
    }
  }

  lemma UnnamedPool(t: Tables, before: seq<Write>, last: Write, p: string)
    requires PoolsAsWritten(t, before) && p in Apply(t, last).pools
    requires forall identity: Identity :: !NamesPool(before + [last], p, identity)
    ensures Apply(t, last).pools[p].identity == PLACEHOLDER
  {
    forall identity: Identity ensures !NamesPool(before, p, identity) {
      NamesSnoc(before, last, p, identity);
    }
    if last.WritePoolCreated? && last.poolId == p {
      NamesSnoc(before, last, p, last.identity);
    }
  }

  lemma PoolsStep(t: Tables, before: seq<Write>, last: Write)
    requires PoolsAsWritten(t, before) && Coherent(before + [last])
    ensures PoolsAsWritten(Apply(t, last), before + [last])
  {
    var t', ws := Apply(t, last), before + [last];
    forall p: string ensures p in t'.pools <==> CreatesPool(ws, p) {
      CreatesSnoc(before, last, p);
    }
    forall p: string, identity: Identity | NamesPool(ws, p, identity) ensures p in t'.pools && t'.pools[p].identity == identity {
      NamedPool(t, before, last, p, identity);
    }
    forall p: string | p in t'.pools && (forall identity: Identity :: !NamesPool(ws, p, identity))
      ensures t'.pools[p].identity == PLACEHOLDER
    {
      UnnamedPool(t, before, last, p);
    }
  }

  lemma {:induction false} PoolsFollowWrites(ws: seq<Write>)
    requires Coherent(ws)
    ensures PoolsAsWritten(ApplyAll(EMPTY, ws), ws)
  {
    if ws != [] {
      var before, last := ws[..|ws| - 1], ws[|ws| - 1];
      CoherentPrefix(ws);
      PoolsFollowWrites(before);
      assert ws == before + [last];
      PoolsStep(ApplyAll(EMPTY, before), before, last);
    }
  }

  lemma WritesSwapSnoc(before: seq<Write>, last: Write, e: string, row: SwapRow)
    ensures WritesSwap(before + [last], e, row) <==>
            WritesSwap(before, e, row) || (last.WriteSwap? && last.eventId == e && WithoutFee(last.row) == WithoutFee(row))
  {
    var ws := before + [last];
    assert last in ws && forall w :: w in before ==> w in ws;
  }

  lemma SwapStep(t: Tables, before: seq<Write>, last: Write, e: string, row: SwapRow)
    requires SwapsAsWritten(t, before) && Coherent(before + [last])
    requires last.WriteSwap? ==> last.row.poolId in t.pools
    ensures var t' := Apply(t, last);
            (e in t'.swaps && WithoutFee(t'.swaps[e]) == WithoutFee(row)) <==> WritesSwap(before + [last], e, row)
  {
    WritesSwapSnoc(before, last, e, row);
    if last.WriteSwap? && last.eventId == e && e in t.swaps {
      assert WritesSwap(before, e, t.swaps[e]);
      var w :| w in before && w.WriteSwap? && w.eventId == e && WithoutFee(w.row) == WithoutFee(t.swaps[e]);
      assert w in before + [last] && last in before + [last];
    }
  }

  lemma PoolBeforeSwapPrefix(ws: seq<Write>)
    requires ws != [] && PoolBeforeSwap(ws)
    ensures PoolBeforeSwap(ws[..|ws| - 1])
    ensures ws[|ws| - 1].WriteSwap? ==> CreatesPool(ws[..|ws| - 1], ws[|ws| - 1].row.poolId)
  {
    var before := ws[..|ws| - 1];
    forall i | 0 <= i < |before| && before[i].WriteSwap? ensures CreatesPool(before[..i], before[i].row.poolId) {
      assert before[..i] == ws[..i];
    }
  }

  lemma {:induction false} SwapsFollowWrites(ws: seq<Write>)
    requires Coherent(ws) && PoolBeforeSwap(ws)
    ensures SwapsAsWritten(ApplyAll(EMPTY, ws), ws)
  {
    if ws != [] {
      var before, last := ws[..|ws| - 1], ws[|ws| - 1];
      CoherentPrefix(ws);
      PoolBeforeSwapPrefix(ws);
      SwapsFollowWrites(before);
      PoolsFollowWrites(before);
      assert ws == before + [last];
      var t := ApplyAll(EMPTY, before);
      forall e: string, row: SwapRow
        ensures (e in Apply(t, last).swaps && WithoutFee(Apply(t, last).swaps[e]) == WithoutFee(row)) <==> WritesSwap(ws, e, row)
      {
        SwapStep(t, before, last, e, row);
      }
    }
  }

  // ----- convergence -------------------------------------------------------------

  /** Two upserts that agree except for a swap's fee. */
  predicate SameUpToFee(v: Write, w: Write) {
    v == w || (v.WriteSwap? && w.WriteSwap? && v.eventId == w.eventId && WithoutFee(v.row) == WithoutFee(w.row))
  }

  ghost predicate Covers(ws: seq<Write>, vs: seq<Write>) {
    forall v :: v in vs ==> exists w :: w in ws && SameUpToFee(v, w)
  }

  /** The tables agree on raw events, tokens, which pools exist and what they are, and, except for
      fees, on swaps. */
  ghost predicate Agree(t: Tables, u: Tables) {
    && t.raw == u.raw && t.tokens == u.tokens
    && t.pools.Keys == u.pools.Keys && forall p :: p in t.pools ==> t.pools[p].identity == u.pools[p].identity
  }

  ghost predicate AgreeOnSwaps(t: Tables, u: Tables) {
    t.swaps.Keys == u.swaps.Keys && forall e :: e in t.swaps ==> WithoutFee(t.swaps[e]) == WithoutFee(u.swaps[e])
  }

  lemma CoveredWrite(ws: seq<Write>, vs: seq<Write>, v: Write)
    requires Covers(ws, vs) && v in vs && !v.WriteSwap?
    ensures v in ws
  {
    var w :| w in ws && SameUpToFee(v, w);
  }

  lemma CoveredSwap(ws: seq<Write>, vs: seq<Write>, e: string, row: SwapRow)
    requires Covers(ws, vs) && WritesSwap(vs, e, row)
    ensures WritesSwap(ws, e, row)
  {
    var v :| v in vs && v.WriteSwap? && v.eventId == e && WithoutFee(v.row) == WithoutFee(row);
    var w :| w in ws && SameUpToFee(v, w);
  }

  lemma CoveredPool(ws: seq<Write>, vs: seq<Write>, p: string)
    requires Covers(ws, vs)
    ensures CreatesPool(vs, p) ==> CreatesPool(ws, p)
    ensures forall identity: Identity :: NamesPool(vs, p, identity) ==> NamesPool(ws, p, identity)
  {
    if CreatesPool(vs, p) {
      var v :| v in vs && ((v.WritePoolCreated? && v.poolId == p) || (v.WritePoolTouched? && v.poolId == p));
      CoveredWrite(ws, vs, v);
    }
    forall identity: Identity | NamesPool(vs, p, identity) ensures NamesPool(ws, p, identity) {
      var v :| v in vs && v.WritePoolCreated? && v.poolId == p && v.identity == identity;
      CoveredWrite(ws, vs, v);
    }
  }

  lemma RawIncluded(vs: seq<Write>, ws: seq<Write>)
    requires Covers(ws, vs)
    requires RawAsWritten(ApplyAll(EMPTY, vs), vs) && TokensAsWritten(ApplyAll(EMPTY, vs), vs)
    requires RawAsWritten(ApplyAll(EMPTY, ws), ws) && TokensAsWritten(ApplyAll(EMPTY, ws), ws)
    ensures var t, u := ApplyAll(EMPTY, vs), ApplyAll(EMPTY, ws);
            (forall k :: k in t.raw ==> k in u.raw && u.raw[k] == t.raw[k]) && t.tokens <= u.tokens
  {
    var t, u := ApplyAll(EMPTY, vs), ApplyAll(EMPTY, ws);
    forall k | k in t.raw ensures k in u.raw && u.raw[k] == t.raw[k] {
      CoveredWrite(ws, vs, WriteRaw(k, t.raw[k]));
    }
    forall a | a in t.tokens ensures a in u.tokens {
      CoveredWrite(ws, vs, WriteToken(a));
    }
  }

  lemma RawAgree(vs: seq<Write>, ws: seq<Write>)
    requires Coherent(vs) && Coherent(ws) && Covers(vs, ws) && Covers(ws, vs)
    ensures ApplyAll(EMPTY, vs).raw == ApplyAll(EMPTY, ws).raw
    ensures ApplyAll(EMPTY, vs).tokens == ApplyAll(EMPTY, ws).tokens
  {
    RawFollowsWrites(vs);
    RawFollowsWrites(ws);
    RawIncluded(vs, ws);
    RawIncluded(ws, vs);
  }

  lemma PoolExists(t: Tables, vs: seq<Write>, u: Tables, ws: seq<Write>, p: string)
    requires PoolsAsWritten(t, vs) && PoolsAsWritten(u, ws) && Covers(ws, vs)
    ensures p in t.pools ==> p in u.pools
  {
    CoveredPool(ws, vs, p);
  }

  lemma NamedAgrees(t: Tables, vs: seq<Write>, u: Tables, ws: seq<Write>, p: string, identity: Identity)
    requires PoolsAsWritten(t, vs) && PoolsAsWritten(u, ws) && Covers(ws, vs) && NamesPool(vs, p, identity)
    ensures p in t.pools && p in u.pools && t.pools[p].identity == u.pools[p].identity == identity
  {
    CoveredPool(ws, vs, p);
    NamedIsCreated(vs, p, identity);
    NamedIsCreated(ws, p, identity);
  }

  lemma IdentityAgrees(t: Tables, vs: seq<Write>, u: Tables, ws: seq<Write>, p: string)
    requires PoolsAsWritten(t, vs) && PoolsAsWritten(u, ws) && Covers(vs, ws) && Covers(ws, vs)
    requires p in t.pools && p in u.pools
    ensures t.pools[p].identity == u.pools[p].identity
  {
    if identity: Identity :| NamesPool(vs, p, identity) {
      NamedAgrees(t, vs, u, ws, p, identity);
    } else if identity: Identity :| NamesPool(ws, p, identity) {
      NamedAgrees(u, ws, t, vs, p, identity);
    }
  }

  lemma PoolAgrees(t: Tables, vs: seq<Write>, u: Tables, ws: seq<Write>, p: string)
    requires PoolsAsWritten(t, vs) && PoolsAsWritten(u, ws) && Covers(vs, ws) && Covers(ws, vs)
    ensures p in t.pools <==> p in u.pools
    ensures p in t.pools ==> t.pools[p].identity == u.pools[p].identity
  {
    PoolExists(t, vs, u, ws, p);
    PoolExists(u, ws, t, vs, p);
    if p in t.pools {
      IdentityAgrees(t, vs, u, ws, p);
    }
  }

  lemma PoolsAgree(vs: seq<Write>, ws: seq<Write>)
    requires Coherent(vs) && Coherent(ws) && Covers(vs, ws) && Covers(ws, vs)
    ensures var t, u := ApplyAll(EMPTY, vs), ApplyAll(EMPTY, ws);
            t.pools.Keys == u.pools.Keys && forall p :: p in t.pools ==> t.pools[p].identity == u.pools[p].identity
  {
    PoolsFollowWrites(vs);
    PoolsFollowWrites(ws);
    var t, u := ApplyAll(EMPTY, vs), ApplyAll(EMPTY, ws);
    forall p: string ensures p in t.pools <==> p in u.pools
      ensures p in t.pools ==> t.pools[p].identity == u.pools[p].identity
    {
      PoolAgrees(t, vs, u, ws, p);
    }
  }

  lemma SwapsAgree(vs: seq<Write>, ws: seq<Write>)
    requires Coherent(vs) && Coherent(ws) && Covers(vs, ws) && Covers(ws, vs)
    requires PoolBeforeSwap(vs) && PoolBeforeSwap(ws)
    ensures AgreeOnSwaps(ApplyAll(EMPTY, vs), ApplyAll(EMPTY, ws))
  {
    SwapsFollowWrites(vs);
    SwapsFollowWrites(ws);
    var t, u := ApplyAll(EMPTY, vs), ApplyAll(EMPTY, ws);
    forall e | e in t.swaps ensures e in u.swaps && WithoutFee(u.swaps[e]) == WithoutFee(t.swaps[e]) {
      assert WritesSwap(vs, e, t.swaps[e]);
      CoveredSwap(ws, vs, e, t.swaps[e]);
    }
    forall e | e in u.swaps ensures e in t.swaps {
      assert WritesSwap(ws, e, u.swaps[e]);
      CoveredSwap(vs, ws, e, u.swaps[e]);
    }
  }

  /** Any two interleavings of the same upserts, with any duplication, leave agreeing tables. */
  lemma WritesConverge(vs: seq<Write>, ws: seq<Write>)
    requires Coherent(vs) && Coherent(ws) && Covers(vs, ws) && Covers(ws, vs)
    ensures Agree(ApplyAll(EMPTY, vs), ApplyAll(EMPTY, ws))
    ensures PoolBeforeSwap(vs) && PoolBeforeSwap(ws) ==> AgreeOnSwaps(ApplyAll(EMPTY, vs), ApplyAll(EMPTY, ws))
  {
    RawAgree(vs, ws);
    PoolsAgree(vs, ws);
    if PoolBeforeSwap(vs) && PoolBeforeSwap(ws) {
      SwapsAgree(vs, ws);
    }
  }

  // ----- whole deliveries --------------------------------------------------------

  /** The upserts of a delivery handled job by job. */
  function Trace(jobs: seq<Job>): seq<Write> {
    if jobs == [] then []
    else
      var before, last := jobs[..|jobs| - 1], jobs[|jobs| - 1];
      Trace(before) + WritesOf(last, FeeFor(HandleAll(EMPTY, before), last))
  }

  lemma {:induction false} TraceIsDelivery(jobs: seq<Job>)
    ensures ApplyAll(EMPTY, Trace(jobs)) == HandleAll(EMPTY, jobs)
  {
    if jobs != [] {
      var before, last := jobs[..|jobs| - 1], jobs[|jobs| - 1];
      TraceIsDelivery(before);
      ApplyAllConcat(EMPTY, Trace(before), WritesOf(last, FeeFor(HandleAll(EMPTY, before), last)));
    }
  }

  /** An event id stands for one payload, and a pool is created once. */
  ghost predicate JobsCoherent(jobs: seq<Job>) {
    && (forall a, b :: a in jobs && b in jobs && RawKeyOf(a) == RawKeyOf(b) ==> a == b)
    && (forall a, b :: a in jobs && b in jobs && a.PoolCreated? && b.PoolCreated? && a.poolId == b.poolId ==> a == b)
  }

  ghost predicate ValidPrices(jobs: seq<Job>) {
    forall j :: j in jobs && j.SwapProcessed? ==> j.price.Num? && j.price.n > 0
  }

  /** `w` is an upsert of `job`, whatever fee it resolved. */
  ghost predicate UpsertOf(job: Job, w: Write) {
    exists fee :: w in WritesOf(job, fee)
  }

  lemma {:induction false} TraceFromJobs(jobs: seq<Job>, w: Write) returns (job: Job)
    requires w in Trace(jobs)
    ensures job in jobs && UpsertOf(job, w)
  {
    var before, last := jobs[..|jobs| - 1], jobs[|jobs| - 1];
    if w in Trace(before) {
      job := TraceFromJobs(before, w);
      assert job in jobs;
    } else {
      job := last;
    }
  }

  /** A different fee changes nothing else in a job's upserts. */
  lemma SameJobWrites(job: Job, fee: real, fee': real, w: Write) returns (v: Write)
    requires w in WritesOf(job, fee)
    ensures v in WritesOf(job, fee') && SameUpToFee(w, v)
  {
    var i :| 0 <= i < |WritesOf(job, fee)| && WritesOf(job, fee)[i] == w;
    v := WritesOf(job, fee')[i];
  }

  lemma {:induction false} JobsInTrace(jobs: seq<Job>, job: Job, w: Write) returns (v: Write)
    requires job in jobs && UpsertOf(job, w)
    ensures v in Trace(jobs) && SameUpToFee(w, v)
  {
    var before, last := jobs[..|jobs| - 1], jobs[|jobs| - 1];
    assert jobs == before + [last];
    if job == last {
      var fee :| w in WritesOf(job, fee);
      v := SameJobWrites(job, fee, FeeFor(HandleAll(EMPTY, before), last), w);
      assert v in Trace(before) + WritesOf(last, FeeFor(HandleAll(EMPTY, before), last));
    } else {
      v := JobsInTrace(before, job, w);
    }
  }

  lemma ProjectionShowsJob(job: Job, fee: real, w: Write)
    requires w in Projection(job, fee)
    ensures !w.WriteRaw?
    ensures w.WritePoolCreated? ==> job.PoolCreated? && job.poolId == w.poolId
                                    && w.identity == Identity(job.tokenA, job.tokenB, job.feeTier)
    ensures w.WriteSwap? ==> job.SwapProcessed? && job.eventId == w.eventId && w.row == RowOf(job, fee)
  {
  }

  /** The job an upsert belongs to, as far as the upsert shows it. */
  lemma UpsertShowsJob(job: Job, w: Write)
    requires UpsertOf(job, w)
    ensures w.WriteRaw? ==> w.key == RawKeyOf(job) && w.job == job
    ensures w.WritePoolCreated? ==> job.PoolCreated? && job.poolId == w.poolId
                                    && w.identity == Identity(job.tokenA, job.tokenB, job.feeTier)
    ensures w.WriteSwap? ==> job.SwapProcessed? && job.eventId == w.eventId && WithoutFee(w.row) == WithoutFee(RowOf(job, 0.0))
  {
    var fee :| w in WritesOf(job, fee);
    if w != WriteRaw(RawKeyOf(job), job) {
      ProjectionShowsJob(job, fee, w);
    }
  }

  /** Every upsert belongs to one of the jobs. */
  ghost predicate FromJobs(ws: seq<Write>, jobs: seq<Job>) {
    forall w :: w in ws ==> exists j :: j in jobs && UpsertOf(j, w)
  }

  lemma TwoUpsertsCoherent(a: Job, v: Write, b: Job, w: Write)
    requires UpsertOf(a, v) && UpsertOf(b, w) && (RawKeyOf(a) == RawKeyOf(b) ==> a == b)
    requires a.PoolCreated? && b.PoolCreated? && a.poolId == b.poolId ==> a == b
    ensures v.WriteRaw? && w.WriteRaw? && v.key == w.key ==> v.job == w.job
    ensures v.WritePoolCreated? && w.WritePoolCreated? && v.poolId == w.poolId ==> v.identity == w.identity
    ensures v.WriteSwap? && w.WriteSwap? && v.eventId == w.eventId ==> WithoutFee(v.row) == WithoutFee(w.row)
  {
    UpsertShowsJob(a, v);
    UpsertShowsJob(b, w);
  }

  lemma UpsertsCoherent(jobs: seq<Job>, ws: seq<Write>, v: Write, w: Write)
    requires JobsCoherent(jobs) && FromJobs(ws, jobs) && v in ws && w in ws
    ensures v.WriteRaw? && w.WriteRaw? && v.key == w.key ==> v.job == w.job
    ensures v.WritePoolCreated? && w.WritePoolCreated? && v.poolId == w.poolId ==> v.identity == w.identity
    ensures v.WriteSwap? && w.WriteSwap? && v.eventId == w.eventId ==> WithoutFee(v.row) == WithoutFee(w.row)
  {
    var a :| a in jobs && UpsertOf(a, v);
    var b :| b in jobs && UpsertOf(b, w);
    TwoUpsertsCoherent(a, v, b, w);
  }

  lemma FromJobsCoherent(jobs: seq<Job>, ws: seq<Write>)
    requires JobsCoherent(jobs) && FromJobs(ws, jobs)
    ensures Coherent(ws)
  {
    forall v, w | v in ws && w in ws && v.WriteRaw? && w.WriteRaw? && v.key == w.key ensures v.job == w.job {
      UpsertsCoherent(jobs, ws, v, w);
    }
    forall v, w | v in ws && w in ws && v.WritePoolCreated? && w.WritePoolCreated? && v.poolId == w.poolId
      ensures v.identity == w.identity
    {
      UpsertsCoherent(jobs, ws, v, w);
    }
    forall v, w | v in ws && w in ws && v.WriteSwap? && w.WriteSwap? && v.eventId == w.eventId
      ensures WithoutFee(v.row) == WithoutFee(w.row)
    {
      UpsertsCoherent(jobs, ws, v, w);
    }
  }

  lemma TraceCoherent(jobs: seq<Job>)
    requires JobsCoherent(jobs)
    ensures Coherent(Trace(jobs))
  {
    forall w | w in Trace(jobs) ensures exists j :: j in jobs && UpsertOf(j, w) {
      var j := TraceFromJobs(jobs, w);
    }
    FromJobsCoherent(jobs, Trace(jobs));
  }

  lemma TraceCovers(jobs: seq<Job>, jobs': seq<Job>)
    requires forall j :: j in jobs' ==> j in jobs
    ensures Covers(Trace(jobs), Trace(jobs'))
  {
    forall v | v in Trace(jobs') ensures exists w :: w in Trace(jobs) && SameUpToFee(v, w) {
      var job := TraceFromJobs(jobs', v);
      var w := JobsInTrace(jobs, job, v);
    }
  }

  lemma {:induction false} TracePoolBeforeSwap(jobs: seq<Job>)
    requires ValidPrices(jobs)
    ensures PoolBeforeSwap(Trace(jobs))
  {
    if jobs != [] {
      var before, last := jobs[..|jobs| - 1], jobs[|jobs| - 1];
      assert jobs == before + [last];
      var ws := WritesOf(last, FeeFor(HandleAll(EMPTY, before), last));
      TracePoolBeforeSwap(before);
      var all, n := Trace(jobs), |Trace(before)|;
      forall i | 0 <= i < |all| && all[i].WriteSwap? ensures CreatesPool(all[..i], all[i].row.poolId) {
        if i < n {
          assert all[..i] == Trace(before)[..i];
        } else {
          assert last in jobs && i == n + 2;
          assert all[..i][n + 1] == WritePoolTouched(last.poolId, last.price, last.tick, last.liquidity);
        }
      }
    }
  }

  /** Any two deliveries of the same jobs, in any order and with any repetitions, leave the same raw
      event tables, tokens and pool identities, and with valid prices the same swaps but for fees. */
  lemma DeliveriesConverge(jobs: seq<Job>, jobs': seq<Job>)
    requires JobsCoherent(jobs) && JobsCoherent(jobs')
    requires forall j :: j in jobs <==> j in jobs'
    ensures Agree(HandleAll(EMPTY, jobs), HandleAll(EMPTY, jobs'))
    ensures ValidPrices(jobs) ==> AgreeOnSwaps(HandleAll(EMPTY, jobs), HandleAll(EMPTY, jobs'))
  {
    TraceCoherent(jobs);
    TraceCoherent(jobs');
    TraceCovers(jobs, jobs');
    TraceCovers(jobs', jobs);
    TraceIsDelivery(jobs);
    TraceIsDelivery(jobs');
    if ValidPrices(jobs) {
      TracePoolBeforeSwap(jobs);
      TracePoolBeforeSwap(jobs');
    }
    WritesConverge(Trace(jobs), Trace(jobs'));
  }

  // ----- what a delivery leaves behind -------------------------------------------

  /** The raw row of a job, with its whole payload. */
  lemma RawRowIffDelivered(jobs: seq<Job>, job: Job)
    requires JobsCoherent(jobs)
    ensures var t := HandleAll(EMPTY, jobs);
            (RawKeyOf(job) in t.raw && t.raw[RawKeyOf(job)] == job) <==> job in jobs && !HasEmptyField(job)
  {
    var w := WriteRaw(RawKeyOf(job), job);
    TraceCoherent(jobs);
    TraceIsDelivery(jobs);
    RawFollowsWrites(Trace(jobs));
    if w in Trace(jobs) {
      var j := TraceFromJobs(jobs, w);
      UpsertShowsJob(j, w);
    }
    if job in jobs && !HasEmptyField(job) {
      assert WritesOf(job, 0.0)[0] == w;
      var v := JobsInTrace(jobs, job, w);
    }
  }

  lemma CreationNamesPool(jobs: seq<Job>, created: Job)
    requires JobsCoherent(jobs) && created in jobs && created.PoolCreated? && !HasEmptyField(created)
    ensures var t := HandleAll(EMPTY, jobs);
            created.poolId in t.pools
            && t.pools[created.poolId].identity == Identity(created.tokenA, created.tokenB, created.feeTier)
  {
    var identity := Identity(created.tokenA, created.tokenB, created.feeTier);
    var w := WritePoolCreated(created.poolId, identity, created.price);
    TraceCoherent(jobs);
    TraceIsDelivery(jobs);
    PoolsFollowWrites(Trace(jobs));
    assert WritesOf(created, 0.0)[3] == w;
    var v := JobsInTrace(jobs, created, w);
    assert NamesPool(Trace(jobs), created.poolId, identity);
    NamedIsCreated(Trace(jobs), created.poolId, identity);
  }

  lemma UncreatedPoolIsPlaceholder(jobs: seq<Job>, p: string)
    requires JobsCoherent(jobs) && p in HandleAll(EMPTY, jobs).pools
    requires forall j :: j in jobs && j.PoolCreated? && !HasEmptyField(j) ==> j.poolId != p
    ensures HandleAll(EMPTY, jobs).pools[p].identity == PLACEHOLDER
  {
    TraceCoherent(jobs);
    TraceIsDelivery(jobs);
    PoolsFollowWrites(Trace(jobs));
    forall identity: Identity ensures !NamesPool(Trace(jobs), p, identity) {
      if NamesPool(Trace(jobs), p, identity) {
        var w :| w in Trace(jobs) && w.WritePoolCreated? && w.poolId == p && w.identity == identity;
        var j := TraceFromJobs(jobs, w);
        UpsertShowsJob(j, w);
      }
    }
  }

  lemma RowOfEvent(row: SwapRow, s: Job)
    requires s.SwapProcessed? && WithoutFee(row) == WithoutFee(RowOf(s, 0.0))
    ensures row.poolId == s.poolId && row.sender == s.sender && row.recipient == s.recipient
    ensures row.amount0 == s.amount0 && row.price == s.price && row.tick == s.tick
  {
    assert WithoutFee(row).(feeAmount := row.feeAmount) == row;
  }

  lemma SwapWritten(jobs: seq<Job>, s: Job)
    requires s in jobs && s.SwapProcessed? && !HasEmptyField(s) && s.price.Num? && s.price.n > 0
    ensures WritesSwap(Trace(jobs), s.eventId, RowOf(s, 0.0))
  {
    var w := WriteSwap(s.eventId, RowOf(s, 0.0));
    assert WritesOf(s, 0.0)[2] == w;
    var v := JobsInTrace(jobs, s, w);
  }

  lemma SwapRowDelivered(jobs: seq<Job>, s: Job)
    requires JobsCoherent(jobs) && ValidPrices(jobs) && s in jobs && s.SwapProcessed? && !HasEmptyField(s)
    ensures var t := HandleAll(EMPTY, jobs);
            s.eventId in t.swaps
            && var row := t.swaps[s.eventId];
               && row.poolId == s.poolId && row.sender == s.sender && row.recipient == s.recipient
               && row.amount0 == s.amount0 && row.price == s.price && row.tick == s.tick
  {
    SwapWritten(jobs, s);
    TraceCoherent(jobs);
    TraceIsDelivery(jobs);
    TracePoolBeforeSwap(jobs);
    SwapsFollowWrites(Trace(jobs));
    RowOfEvent(HandleAll(EMPTY, jobs).swaps[s.eventId], s);
  }

  /** The raw table shows this very job. */
  ghost predicate RawRow(jobs: seq<Job>, job: Job) {
    RawKeyOf(job) in HandleAll(EMPTY, jobs).raw && HandleAll(EMPTY, jobs).raw[RawKeyOf(job)] == job
  }

  /** After any delivery, in any order and with any repetitions, the raw tables hold exactly the
      complete jobs; a pool is what its creation said, and a placeholder only when none came; and
      with valid prices every complete swap has its row. */
  lemma TablesHoldTheJobs(jobs: seq<Job>)
    requires JobsCoherent(jobs)
    ensures var t := HandleAll(EMPTY, jobs);
            && (forall job :: (RawKeyOf(job) in t.raw && t.raw[RawKeyOf(job)] == job) <==> job in jobs && !HasEmptyField(job))
            && (forall c :: c in jobs && c.PoolCreated? && !HasEmptyField(c) ==>
                  c.poolId in t.pools && t.pools[c.poolId].identity == Identity(c.tokenA, c.tokenB, c.feeTier))
            && (forall p :: p in t.pools && (forall j :: j in jobs && j.PoolCreated? && !HasEmptyField(j) ==> j.poolId != p)
                            ==> t.pools[p].identity == PLACEHOLDER)
            && (ValidPrices(jobs) ==> forall s :: s in jobs && s.SwapProcessed? && !HasEmptyField(s) ==> s.eventId in t.swaps)
  {
    forall job ensures RawRow(jobs, job) <==> job in jobs && !HasEmptyField(job) {
      RawRowIffDelivered(jobs, job);
    }
    forall c | c in jobs && c.PoolCreated? && !HasEmptyField(c)
      ensures var t := HandleAll(EMPTY, jobs);
              c.poolId in t.pools && t.pools[c.poolId].identity == Identity(c.tokenA, c.tokenB, c.feeTier)
    {
      CreationNamesPool(jobs, c);
    }
    forall p | p in HandleAll(EMPTY, jobs).pools && (forall j :: j in jobs && j.PoolCreated? && !HasEmptyField(j) ==> j.poolId != p)
      ensures HandleAll(EMPTY, jobs).pools[p].identity == PLACEHOLDER
    {
      UncreatedPoolIsPlaceholder(jobs, p);
    }
    forall s | ValidPrices(jobs) && s in jobs && s.SwapProcessed? && !HasEmptyField(s)
      ensures s.eventId in HandleAll(EMPTY, jobs).swaps
    {
      SwapRowDelivered(jobs, s);
    }
  }

  // ----- the placeholder ---------------------------------------------------------

  lemma {:induction false} UpsertsKeepIdentity(t: Tables, ws: seq<Write>, p: string)
    requires p in t.pools
    requires forall w :: w in ws && w.WritePoolCreated? && w.poolId == p ==> w.identity == t.pools[p].identity
    ensures p in ApplyAll(t, ws).pools && ApplyAll(t, ws).pools[p].identity == t.pools[p].identity
  {
    if ws != [] {
      UpsertsKeepIdentity(t, ws[..|ws| - 1], p);
      assert ws[|ws| - 1] in ws;
    }
  }

  /** Handling a creation names its pool and leaves the swaps alone. */
  lemma UnfoldCreated(t: Tables, created: Job)
    requires created.PoolCreated? && !HasEmptyField(created)
    ensures var u := HandleJob(t, created);
            && u.swaps == t.swaps && created.poolId in u.pools
            && u.pools[created.poolId].identity == Identity(created.tokenA, created.tokenB, created.feeTier)
  {
    var raw := WriteRaw(RawKeyOf(created), created);
    ApplyAllCons(t, raw, Projection(created, 0.0));
    ApplyThree(Apply(t, raw), WriteToken(created.tokenA), WriteToken(created.tokenB),
               WritePoolCreated(created.poolId, Identity(created.tokenA, created.tokenB, created.feeTier), created.price));
  }

  /** Once a pool's creation has been handled, no later job brings the placeholder back. */
  lemma {:induction false} IdentityStays(t: Tables, created: Job, later: seq<Job>)
    requires created.PoolCreated? && !HasEmptyField(created)
    requires forall j :: j in later && j.PoolCreated? && j.poolId == created.poolId ==> j == created
    ensures var u := HandleAll(HandleJob(t, created), later);
            created.poolId in u.pools
            && u.pools[created.poolId].identity == Identity(created.tokenA, created.tokenB, created.feeTier)
  {
    var p := created.poolId;
    if later == [] {
      UnfoldCreated(t, created);
    } else {
      var before, last := later[..|later| - 1], later[|later| - 1];
      IdentityStays(t, created, before);
      var u := HandleAll(HandleJob(t, created), before);
      var ws := WritesOf(last, FeeFor(u, last));
      forall w | w in ws && w.WritePoolCreated? && w.poolId == p ensures w.identity == u.pools[p].identity {
        assert UpsertOf(last, w);
        UpsertShowsJob(last, w);
      }
      UpsertsKeepIdentity(u, ws, p);
    }
  }

  // ----- the fee is not order-independent ----------------------------------------

  lemma HandleTwo(a: Job, b: Job)
    ensures HandleAll(EMPTY, [a, b]) == HandleJob(HandleJob(EMPTY, a), b)
  {
    assert [a, b][..1] == [a] && [a][..0] == [];
    assert HandleAll(EMPTY, [a]) == HandleJob(HandleAll(EMPTY, []), a);
  }

  lemma UnfoldSwap(t: Tables, swap: Job)
    requires swap.SwapProcessed? && !HasEmptyField(swap) && swap.price.Num? && swap.price.n > 0
    requires swap.eventId !in t.swaps
    ensures var u := HandleJob(t, swap);
            swap.eventId in u.swaps && u.swaps[swap.eventId].feeAmount == ResolveFeeAmount(t, swap)
  {
    var fee := ResolveFeeAmount(t, swap);
    var raw := WriteRaw(RawKeyOf(swap), swap);
    ApplyAllCons(t, raw, Projection(swap, fee));
    ApplyTwo(Apply(t, raw), WritePoolTouched(swap.poolId, swap.price, swap.tick, swap.liquidity),
             WriteSwap(swap.eventId, RowOf(swap, fee)));
  }

  lemma SwapSecond(created: Job, swap: Job)
    requires created.PoolCreated? && swap.SwapProcessed? && created.poolId == swap.poolId
    requires !HasEmptyField(created) && !HasEmptyField(swap) && swap.price.Num? && swap.price.n > 0
    ensures var t := HandleAll(EMPTY, [created, swap]);
            swap.eventId in t.swaps && t.swaps[swap.eventId].feeAmount ==
              if swap.feeAmount.Some? then swap.feeAmount.value
              else Abs(swap.amount0.value) * (created.feeTier as real / 1_000_000.0)
  {
    HandleTwo(created, swap);
    UnfoldCreated(EMPTY, created);
    UnfoldSwap(HandleJob(EMPTY, created), swap);
  }

  lemma SwapFirst(created: Job, swap: Job)
    requires created.PoolCreated? && swap.SwapProcessed? && created.poolId == swap.poolId
    requires !HasEmptyField(created) && !HasEmptyField(swap) && swap.price.Num? && swap.price.n > 0
    ensures var t := HandleAll(EMPTY, [swap, created]);
            swap.eventId in t.swaps && t.swaps[swap.eventId].feeAmount ==
              if swap.feeAmount.Some? then swap.feeAmount.value else 0.0
  {
    HandleTwo(swap, created);
    UnfoldSwap(EMPTY, swap);
    UnfoldCreated(HandleJob(EMPTY, swap), created);
  }

  lemma ProductZero(a: real, f: real)
    ensures a * f == 0.0 <==> a == 0.0 || f == 0.0
  {
  }

  lemma DeliveriesConvergePair(created: Job, swap: Job)
    requires created.PoolCreated? && swap.SwapProcessed? && swap.price.Num? && swap.price.n > 0
    ensures AgreeOnSwaps(HandleAll(EMPTY, [created, swap]), HandleAll(EMPTY, [swap, created]))
  {
    DeliveriesConverge([created, swap], [swap, created]);
  }

  lemma DerivedFeeZero(amount: real, tier: int)
    ensures Abs(amount) * (tier as real / 1_000_000.0) == 0.0 <==> amount == 0.0 || tier == 0
  {
    ProductZero(Abs(amount), tier as real / 1_000_000.0);
  }

  lemma SameRowIff(row: SwapRow, row': SwapRow)
    requires WithoutFee(row) == WithoutFee(row')
    ensures row == row' <==> row.feeAmount == row'.feeAmount
  {
  }

  /** The swap's row after its pool's creation, and before it. */
  lemma RowInBothOrders(created: Job, swap: Job) returns (after: SwapRow, before: SwapRow)
    requires created.PoolCreated? && swap.SwapProcessed? && created.poolId == swap.poolId
    requires !HasEmptyField(created) && !HasEmptyField(swap) && swap.price.Num? && swap.price.n > 0
    ensures var t, u := HandleAll(EMPTY, [created, swap]), HandleAll(EMPTY, [swap, created]);
            swap.eventId in t.swaps && after == t.swaps[swap.eventId] && swap.eventId in u.swaps && before == u.swaps[swap.eventId]
    ensures WithoutFee(after) == WithoutFee(before)
    ensures swap.feeAmount.Some? ==> after.feeAmount == before.feeAmount
    ensures swap.feeAmount.None? ==>
              before.feeAmount == 0.0 && after.feeAmount == Abs(swap.amount0.value) * (created.feeTier as real / 1_000_000.0)
  {
    SwapSecond(created, swap);
    SwapFirst(created, swap);
    DeliveriesConvergePair(created, swap);
    after, before := HandleAll(EMPTY, [created, swap]).swaps[swap.eventId], HandleAll(EMPTY, [swap, created]).swaps[swap.eventId];
  }

  /** The recorded fee survives reordering a swap and its pool's creation exactly when the event
      carries its own fee, or the derived fee is zero anyway. */
  lemma FeeSurvivesReorderingIff(created: Job, swap: Job)
    requires created.PoolCreated? && swap.SwapProcessed? && created.poolId == swap.poolId
    requires !HasEmptyField(created) && !HasEmptyField(swap) && swap.price.Num? && swap.price.n > 0
    ensures var t, u := HandleAll(EMPTY, [created, swap]), HandleAll(EMPTY, [swap, created]);
            && swap.eventId in t.swaps && swap.eventId in u.swaps
            && (t.swaps[swap.eventId] == u.swaps[swap.eventId]
                <==> swap.feeAmount.Some? || swap.amount0.value == 0.0 || created.feeTier == 0)
  {
    var after, before := RowInBothOrders(created, swap);
    DerivedFeeZero(swap.amount0.value, created.feeTier);
    SameRowIff(after, before);
  }
}
