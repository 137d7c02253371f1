/** Keyed dead-letter replays of apps/api/src/indexer/indexer-replay.service.ts: requests share an
    execution in flight, keyed successes are remembered for a while, failures never. Each request
    runs as two steps, up to the await and after it. */
module DlqReplay {
  import opened OrderedMap
  import opened Wrappers

  const RESULT_TTL_MS := 600_000
  const RESULT_MAX := 1000
  const ID_MAX_LENGTH := 128

  // ----- keys --------------------------------------------------------------------

  predicate IdChar(c: char) {
    'A' <= c <= 'Z' || 'a' <= c <= 'z' || '0' <= c <= '9' || c == '.' || c == '_' || c == ':' || c == '-'
  }

  /** What the controller accepts as an idempotency key: absent, or `[A-Za-z0-9._:-]{1,128}`. */
  predicate ValidKey(key: Option<string>) {
    key.Some? ==> 0 < |key.value| <= ID_MAX_LENGTH && forall i :: 0 <= i < |key.value| ==> IdChar(key.value[i])
  }

  function Target(jobId: Option<string>): string {
    if jobId.Some? && jobId.value != "" then "job:" + jobId.value else "all"
  }

  function KeyOf(jobId: Option<string>, idempotencyKey: Option<string>): string {
    Target(jobId) + "|" + (if idempotencyKey.Some? then idempotencyKey.value else "")
  }

  lemma BarInTail(a: string, b: string, c: string, d: string)
    requires a + "|" + b == c + "|" + d && |a| < |c|
    ensures |c| - |a| - 1 < |b| && b[|c| - |a| - 1] == '|'
  {
    var s := c + "|" + d;
    assert s[|c|] == '|' && (a + "|" + b)[|c|] == b[|c| - |a| - 1];
  }

  lemma LastBarSplits(a: string, b: string, c: string, d: string)
    requires a + "|" + b == c + "|" + d
    requires (forall i :: 0 <= i < |b| ==> b[i] != '|') && (forall i :: 0 <= i < |d| ==> d[i] != '|')
    ensures a == c && b == d
  {
    var s, t := a + "|" + b, c + "|" + d;
    assert s[|a|] == '|' && t[|c|] == '|';
    if |a| < |c| {
      BarInTail(a, b, c, d);
    } else if |c| < |a| {
      BarInTail(c, d, a, b);
    }
    assert a == s[..|a|] && c == t[..|c|] && b == s[|a| + 1..] && d == t[|c| + 1..];
  }

  ghost predicate NoBar(s: string) {
    forall i :: 0 <= i < |s| ==> s[i] != '|'
  }

  /** What the controller lets through has no bar, and is not empty. */
  lemma ValidKeyHasNoBar(key: Option<string>)
    requires ValidKey(key) && key.Some?
    ensures key.value != "" && NoBar(key.value)
  {
    forall i | 0 <= i < |key.value| ensures key.value[i] != '|' {
      assert IdChar(key.value[i]);
    }
  }

  /** Without a bar in the idempotency key, the key string determines which replay is meant and under
      which idempotency key, whatever the job ids. */
  lemma KeyDeterminesRequest(jobId: Option<string>, key: Option<string>, jobId': Option<string>, key': Option<string>)
    requires (key.Some? ==> key.value != "" && NoBar(key.value)) && (key'.Some? ==> key'.value != "" && NoBar(key'.value))
    requires KeyOf(jobId, key) == KeyOf(jobId', key')
    ensures Target(jobId) == Target(jobId') && key == key'
    ensures Target(jobId) != "all" ==> jobId == jobId'
  {
    var k, k' := if key.Some? then key.value else "", if key'.Some? then key'.value else "";
    LastBarSplits(Target(jobId), k, Target(jobId'), k');
    if Target(jobId) != "all" && jobId.Some? && jobId'.Some? {
      assert "job:" + jobId.value == "job:" + jobId'.value;
      assert ("job:" + jobId.value)[4..] == jobId.value && ("job:" + jobId'.value)[4..] == jobId'.value;
    }
  }

  // ----- the state ---------------------------------------------------------------

  type RunId = nat

  datatype Summary = Summary(replayed: seq<string>, skipped: seq<string>, total: nat)

  datatype Request = Request(jobId: Option<string>, idempotencyKey: Option<string>)

  /** An execution between its two steps: the key and clock it captured when it began. */
  datatype Run = Run(key: string, keyed: bool, startedAt: int)

  datatype Remembered = Remembered(at: int, summary: Summary)

  datatype State = State(inFlight: map<string, RunId>, running: map<RunId, Run>,
                         completed: seq<Entry<string, Remembered>>, nextRun: RunId)

  const IDLE := State(map[], map[], [], 0)

  datatype Reply = FromCompleted(summary: Summary) | Joined(run: RunId) | Started(run: RunId)

  datatype Outcome = Success(summary: Summary) | Failure

  predicate IsKeyed(request: Request) {
    request.idempotencyKey.Some? && request.idempotencyKey.value != ""
  }

  // ----- steps -------------------------------------------------------------------

  /** A request up to its await: answer from memory, join, or start an execution. */
  function Arrive(s: State, request: Request, now: int): (State, Reply) {
    var key := KeyOf(request.jobId, request.idempotencyKey);
    var completed := if IsKeyed(request) then Get(s.completed, key) else None;
    if completed.Some? && now - completed.value.at < RESULT_TTL_MS then (s, FromCompleted(completed.value.summary))
    else if key in s.inFlight then (s, Joined(s.inFlight[key]))
    else
      (State(s.inFlight[key := s.nextRun], s.running[s.nextRun := Run(key, IsKeyed(request), now)],
             s.completed, s.nextRun + 1), Started(s.nextRun))
  }

  /** The sweep of expired results. */
  function Sweep(completed: seq<Entry<string, Remembered>>, now: int): seq<Entry<string, Remembered>> {
    if completed == [] then []
    else
      var last := completed[|completed| - 1];
      Sweep(completed[..|completed| - 1], now) + (if now - last.value.at >= RESULT_TTL_MS then [] else [last])
  }

  function Remember(completed: seq<Entry<string, Remembered>>, key: string, summary: Summary, now: int)
    : seq<Entry<string, Remembered>>
  {
    var kept := Sweep(completed, now);
    var room := if |kept| >= RESULT_MAX then kept[1..] else kept;
    Set(room, key, Remembered(now, summary))
  }

  /** An execution after its await: remember a keyed success, and leave the in-flight map. */
  function Finish(s: State, id: RunId, outcome: Outcome): State
    requires id in s.running
  {
    var run := s.running[id];
    State(s.inFlight - {run.key}, s.running - {id},
          if outcome.Success? && run.keyed then Remember(s.completed, run.key, outcome.summary, run.startedAt)
          else s.completed,
          s.nextRun)
  }

  class IndexerReplayService {
    var inFlightDlqReplays: map<string, RunId>
    var completedDlqReplays: seq<Entry<string, Remembered>>
    var running: map<RunId, Run>  // the executions suspended at their await
    var nextRun: RunId

    function View(): State
      reads this
    {
      State(inFlightDlqReplays, running, completedDlqReplays, nextRun)
    }

    constructor ()
      ensures View() == IDLE
    {
      inFlightDlqReplays, completedDlqReplays, running, nextRun := map[], [], map[], 0;
    }

    method ReplayDeadLettersIdempotent(request: Request, now: int) returns (reply: Reply)
      modifies this
      ensures (View(), reply) == Arrive(old(View()), request, now)
    {
      var key := KeyOf(request.jobId, request.idempotencyKey);
      if IsKeyed(request) {
        var completed := Get(completedDlqReplays, key);
        if completed.Some? && now - completed.value.at < RESULT_TTL_MS {
          return FromCompleted(completed.value.summary);
        }
      }
      if key in inFlightDlqReplays { return Joined(inFlightDlqReplays[key]); }
      inFlightDlqReplays := inFlightDlqReplays[key := nextRun];
      running := running[nextRun := Run(key, IsKeyed(request), now)];
      nextRun := nextRun + 1;
      return Started(nextRun - 1);
    }

    method FinishReplay(id: RunId, outcome: Outcome)
      requires id in running
      modifies this
      ensures View() == Finish(old(View()), id, outcome)
    {
      var run := running[id];
      if outcome.Success? && run.keyed {
        RememberDlqReplay(run.key, outcome.summary, run.startedAt);
      }
      inFlightDlqReplays := inFlightDlqReplays - {run.key};
      running := running - {id};
    }

    method RememberDlqReplay(key: string, summary: Summary, now: int)
      modifies this`completedDlqReplays
      ensures completedDlqReplays == Remember(old(completedDlqReplays), key, summary, now)
    {
      var all, kept := completedDlqReplays, [];
      for i := 0 to |all|
        invariant kept == Sweep(all[..i], now)
      {
        assert all[..i + 1][..i] == all[..i];
        if !(now - all[i].value.at >= RESULT_TTL_MS) {
          kept := kept + [all[i]];
        }
      }
      assert all[..|all|] == all;
      if |kept| >= RESULT_MAX {
        kept := kept[1..];
      }
      completedDlqReplays := Set(kept, key, Remembered(now, summary));
    }
  }

  // ----- the invariant -----------------------------------------------------------

  /** In-flight keys and suspended executions correspond one to one. */
  ghost predicate OnePerKey(s: State) {
    && (forall k :: k in s.inFlight ==> s.inFlight[k] in s.running && s.running[s.inFlight[k]].key == k)
    && (forall id :: id in s.running ==>
          id < s.nextRun && s.running[id].key in s.inFlight && s.inFlight[s.running[id].key] == id)
  }

  /** While a keyed execution runs, any remembered result of its key had expired when it began. */
  ghost predicate StaleWhileRunning(s: State) {
    forall id :: id in s.running && s.running[id].keyed ==>
      var earlier := Get(s.completed, s.running[id].key);
      earlier.Some? ==> s.running[id].startedAt - earlier.value.at >= RESULT_TTL_MS
  }

  ghost predicate Inv(s: State) {
    OnePerKey(s) && StaleWhileRunning(s) && UniqueKeys(s.completed) && |s.completed| <= RESULT_MAX
  }

  lemma UniqueLast(completed: seq<Entry<string, Remembered>>, e: Entry<string, Remembered>)
    requires UniqueKeys(completed) && completed != [] && e in completed[..|completed| - 1]
    ensures e.key != completed[|completed| - 1].key
  {
    var j :| 0 <= j < |completed| - 1 && completed[..|completed| - 1][j] == e;
    assert completed[j].key != completed[|completed| - 1].key;
  }

  lemma {:induction false} SweepKeepsFresh(completed: seq<Entry<string, Remembered>>, now: int)
    requires UniqueKeys(completed)
    ensures UniqueKeys(Sweep(completed, now)) && |Sweep(completed, now)| <= |completed|
    ensures forall e :: e in Sweep(completed, now) <==> e in completed && now - e.value.at < RESULT_TTL_MS
  {
    if completed != [] {
      var before, last := completed[..|completed| - 1], completed[|completed| - 1];
      SweepKeepsFresh(before, now);
      var kept := Sweep(before, now);
      forall i | 0 <= i < |kept| ensures kept[i].key != last.key {
        assert kept[i] in before;
        UniqueLast(completed, kept[i]);
      }
      assert completed == before + [last];
    }
  }

  /** A result not yet in memory is appended; everything else kept was there before. */
  lemma RememberAppends(completed: seq<Entry<string, Remembered>>, key: string, summary: Summary, now: int)
    requires UniqueKeys(completed) && |completed| <= RESULT_MAX
    requires Get(completed, key).Some? ==> now - Get(completed, key).value.at >= RESULT_TTL_MS
    ensures var kept := Sweep(completed, now);
            var room := if |kept| >= RESULT_MAX then kept[1..] else kept;
            var r := Remember(completed, key, summary, now);
            && r == room + [Entry(key, Remembered(now, summary))]
            && UniqueKeys(r) && |r| <= RESULT_MAX
            && forall e :: e in r ==> e == Entry(key, Remembered(now, summary)) || e in completed
  {
    var kept := Sweep(completed, now);
    SweepKeepsFresh(completed, now);
    var room := if |kept| >= RESULT_MAX then kept[1..] else kept;
    forall i | 0 <= i < |room| ensures room[i].key != key {
      assert room[i] in kept;
      GetIffPresent(completed, key);
      assert room[i] == Entry(room[i].key, room[i].value);
    }
    SetAbsent(room, key, Remembered(now, summary));
  }

  lemma ArriveKeepsInv(s: State, request: Request, now: int)
    requires Inv(s)
    ensures Inv(Arrive(s, request, now).0)
  {
  }

  lemma FinishKeepsInv(s: State, id: RunId, outcome: Outcome)
    requires Inv(s) && id in s.running
    ensures Inv(Finish(s, id, outcome))
  {
    var run, s' := s.running[id], Finish(s, id, outcome);
    if outcome.Success? && run.keyed {
      RememberAppends(s.completed, run.key, outcome.summary, run.startedAt);
      forall other | other in s'.running && s'.running[other].keyed
        ensures var was := Get(s'.completed, s'.running[other].key);
                was.Some? ==> s'.running[other].startedAt - was.value.at >= RESULT_TTL_MS
      {
        var k := s.running[other].key;
        assert k != run.key;
        GetIffPresent(s.completed, k);
        GetIffPresent(s'.completed, k);
        var now := Get(s'.completed, k);
        if now.Some? {
          assert Entry(k, now.value) in s.completed;
        }
      }
    }
  }

  // ----- what a request and an execution do --------------------------------------

  /** The key a request is filed under. */
  function RequestKey(request: Request): string {
    (if request.jobId.Some? && request.jobId.value != "" then "job:" + request.jobId.value else "all")
    + "|" + (if request.idempotencyKey.Some? then request.idempotencyKey.value else "")
  }

  /** The request carries a key under which a result not ten minutes old is remembered. */
  ghost predicate Remembers(s: State, request: Request, now: int, summary: Summary) {
    && request.idempotencyKey.Some? && request.idempotencyKey.value != ""
    && exists e :: e in s.completed && e.key == RequestKey(request) && e.value.summary == summary && now - e.value.at < 600_000
  }

  lemma FoundUnderKey(s: State, request: Request, now: int, summary: Summary)
    requires UniqueKeys(s.completed)
    ensures Remembers(s, request, now, summary)
            <==> && request.idempotencyKey.Some? && request.idempotencyKey.value != ""
                 && var found := Get(s.completed, RequestKey(request));
                    found.Some? && found.value.summary == summary && now - found.value.at < 600_000
  {
    GetIffPresent(s.completed, RequestKey(request));
    var found := Get(s.completed, RequestKey(request));
    if Remembers(s, request, now, summary) {
      var e :| e in s.completed && e.key == RequestKey(request) && e.value.summary == summary && now - e.value.at < 600_000;
      assert e == Entry(RequestKey(request), e.value);
    }
    if found.Some? {
      assert Entry(RequestKey(request), found.value) in s.completed;
    }
  }

  /** A request is answered from memory exactly when a fresh result is remembered under its own key,
      joins the execution in flight exactly when there is one and no such result, and starts one
      otherwise; only then does anything change. */
  lemma ReplyIff(s: State, request: Request, now: int)
    requires UniqueKeys(s.completed)
    ensures var (t, reply) := Arrive(s, request, now);
            var key := RequestKey(request);
            && (forall summary :: reply == FromCompleted(summary) <==> Remembers(s, request, now, summary))
            && (forall run :: reply == Joined(run) <==>
                  !reply.FromCompleted? && key in s.inFlight && s.inFlight[key] == run)
            && (forall run :: reply == Started(run) <==> !reply.FromCompleted? && key !in s.inFlight && run == s.nextRun)
            && t == if !reply.Started? then s
                    else s.(inFlight := s.inFlight[key := s.nextRun], nextRun := s.nextRun + 1,
                            running := s.running[s.nextRun := Run(key, request.idempotencyKey.Some? && request.idempotencyKey.value != "", now)])
  {
    forall summary ensures Arrive(s, request, now).1 == FromCompleted(summary) <==> Remembers(s, request, now, summary) {
      FoundUnderKey(s, request, now, summary);
    }
  }

  /** An execution that comes back makes way for the next one of its key, and touches no other. A
      failure, or a success without a key, is not remembered; a keyed success is the newest memory. */
  lemma FinishIff(s: State, id: RunId, outcome: Outcome)
    requires Inv(s) && id in s.running
    ensures var t, run := Finish(s, id, outcome), s.running[id];
            && id !in t.running && run.key !in t.inFlight
            && (forall other :: other in s.running && other != id ==> other in t.running && t.running[other] == s.running[other])
            && (forall key :: key in s.inFlight && key != run.key ==> key in t.inFlight && t.inFlight[key] == s.inFlight[key])
            && (outcome.Failure? || !run.keyed ==> t.completed == s.completed)
            && (outcome.Success? && run.keyed ==>
                  t.completed != [] && t.completed[|t.completed| - 1] == Entry(run.key, Remembered(run.startedAt, outcome.summary)))
  {
    if outcome.Success? && s.running[id].keyed {
      RememberAppends(s.completed, s.running[id].key, outcome.summary, s.running[id].startedAt);
    }
  }

  /** After a failure, the same request starts over unless an older success still answers it. */
  lemma FailureRunsAgain(s: State, id: RunId, request: Request, now: int)
    requires Inv(s) && id in s.running && s.running[id].key == RequestKey(request)
    requires forall summary :: !Remembers(s, request, now, summary)
    ensures Arrive(Finish(s, id, Failure), request, now).1 == Started(s.nextRun)
  {
    var t := Finish(s, id, Failure);
    ReplyIff(t, request, now);
    assert forall summary :: Remembers(t, request, now, summary) <==> Remembers(s, request, now, summary);
  }

  // ----- whole runs --------------------------------------------------------------

  /** A request arriving at a clock reading, or an execution coming back from its await. */
  datatype Event = Arrives(request: Request, now: int) | Finishes(id: RunId, outcome: Outcome)

  function Step(s: State, e: Event): State {
    match e
    case Arrives(request, now) => Arrive(s, request, now).0
    case Finishes(id, outcome) => if id in s.running then Finish(s, id, outcome) else s
  }

  function RunAll(s: State, events: seq<Event>): State {
    if events == [] then s else Step(RunAll(s, events[..|events| - 1]), events[|events| - 1])
  }

  /** The result a step hands to memory, if it is a keyed success. */
  function KeyedSuccess(s: State, e: Event): Option<Entry<string, Remembered>> {
    if e.Finishes? && e.id in s.running && e.outcome.Success? && s.running[e.id].keyed
    then Some(Entry(s.running[e.id].key, Remembered(s.running[e.id].startedAt, e.outcome.summary)))
    else None
  }

  /** All keyed successes of a run, in order. */
  function KeyedSuccesses(s: State, events: seq<Event>): seq<Entry<string, Remembered>> {
    if events == [] then []
    else
      var before := events[..|events| - 1];
      var last := KeyedSuccess(RunAll(s, before), events[|events| - 1]);
      KeyedSuccesses(s, before) + (if last.Some? then [last.value] else [])
  }

  /** In every run at most one execution per key is in flight, the memory never exceeds 1000
      results, and holds nothing but keyed successes: no failure, and nothing unkeyed. */
  lemma {:induction false} RunKeepsInv(events: seq<Event>)
    ensures var s := RunAll(IDLE, events);
            && Inv(s)
            && (forall a, b :: a in s.running && b in s.running && s.running[a].key == s.running[b].key ==> a == b)
            && |s.completed| <= 1000
            && forall e :: e in s.completed ==> e in KeyedSuccesses(IDLE, events)
  {
    if events != [] {
      var before, last := events[..|events| - 1], events[|events| - 1];
      RunKeepsInv(before);
      var s := RunAll(IDLE, before);
      match last {
        case Arrives(request, now) => ArriveKeepsInv(s, request, now);
        case Finishes(id, outcome) =>
          if id in s.running {
            FinishKeepsInv(s, id, outcome);
            if outcome.Success? && s.running[id].keyed {
              RememberAppends(s.completed, s.running[id].key, outcome.summary, s.running[id].startedAt);
            }
          }
      }
    }
  }

  /** `e` is in memory with at most `n` later results behind it. */
  ghost predicate HasWithin(completed: seq<Entry<string, Remembered>>, e: Entry<string, Remembered>, n: int) {
    exists i :: 0 <= i < |completed| && completed[i] == e && |completed| - 1 - i <= n
  }

  lemma {:induction false} SweepKeepsPlace(completed: seq<Entry<string, Remembered>>, now: int, e: Entry<string, Remembered>, n: int)
    requires HasWithin(completed, e, n) && now - e.value.at < RESULT_TTL_MS
    ensures HasWithin(Sweep(completed, now), e, n)
  {
    var i :| 0 <= i < |completed| && completed[i] == e && |completed| - 1 - i <= n;
    var before, kept := completed[..|completed| - 1], Sweep(completed, now);
    if i == |completed| - 1 {
      assert kept[|kept| - 1] == e;
    } else {
      assert before[i] == e;
      SweepKeepsPlace(before, now, e, n - 1);
      var j :| 0 <= j < |Sweep(before, now)| && Sweep(before, now)[j] == e && |Sweep(before, now)| - 1 - j <= n - 1;
      assert kept[j] == e;
    }
  }

  /** One more keyed success pushes a fresh result at most one place back, and never out before
      the thousandth. */
  lemma RememberKeepsPlace(completed: seq<Entry<string, Remembered>>, key: string, summary: Summary, now: int,
                           e: Entry<string, Remembered>, n: int)
    requires UniqueKeys(completed) && |completed| <= RESULT_MAX && HasWithin(completed, e, n)
    requires Get(completed, key).Some? ==> now - Get(completed, key).value.at >= RESULT_TTL_MS
    requires now - e.value.at < RESULT_TTL_MS && n + 1 < RESULT_MAX
    ensures HasWithin(Remember(completed, key, summary, now), e, n + 1)
  {
    SweepKeepsPlace(completed, now, e, n);
    RememberAppends(completed, key, summary, now);
    var kept, r := Sweep(completed, now), Remember(completed, key, summary, now);
    var i :| 0 <= i < |kept| && kept[i] == e && |kept| - 1 - i <= n;
    var j := if |kept| >= RESULT_MAX then i - 1 else i;
    assert r[j] == e;
  }

  lemma StepKeepsPlace(s: State, event: Event, e: Entry<string, Remembered>, n: nat)
    requires Inv(s) && HasWithin(s.completed, e, n)
    requires var later := KeyedSuccess(s, event);
             later.Some? ==> n + 1 < RESULT_MAX && later.value.value.at - e.value.at < RESULT_TTL_MS
    ensures Inv(Step(s, event))
    ensures HasWithin(Step(s, event).completed, e, n + (if KeyedSuccess(s, event).Some? then 1 else 0))
  {
    match event {
      case Arrives(request, now) => ArriveKeepsInv(s, request, now);
      case Finishes(id, outcome) =>
        if id in s.running {
          FinishKeepsInv(s, id, outcome);
          if outcome.Success? && s.running[id].keyed {
            RememberKeepsPlace(s.completed, s.running[id].key, outcome.summary, s.running[id].startedAt, e, n);
          }
        }
    }
  }

  lemma {:induction false} RunKeepsPlace(s: State, events: seq<Event>, e: Entry<string, Remembered>, n: nat)
    requires Inv(s) && HasWithin(s.completed, e, n)
    requires n + |KeyedSuccesses(s, events)| < RESULT_MAX
    requires forall later :: later in KeyedSuccesses(s, events) ==> later.value.at - e.value.at < RESULT_TTL_MS
    ensures Inv(RunAll(s, events))
    ensures HasWithin(RunAll(s, events).completed, e, n + |KeyedSuccesses(s, events)|)
  {
    if events != [] {
      var before, last := events[..|events| - 1], events[|events| - 1];
      var earlier, now := KeyedSuccesses(s, before), KeyedSuccess(RunAll(s, before), last);
      assert forall later :: later in earlier ==> later in KeyedSuccesses(s, events);
      RunKeepsPlace(s, before, e, n);
      var t := RunAll(s, before);
      StepKeepsPlace(t, last, e, n + |earlier|);
    }
  }

  /** A keyed success answers its own key until its TTL is over or a thousand later keyed
      successes came in, whatever else happens in between. */
  lemma RememberedUntilTtlOrThousand(s: State, id: RunId, summary: Summary, events: seq<Event>, request: Request, now: int)
    requires Inv(s) && id in s.running && s.running[id].keyed
    requires IsKeyed(request) && KeyOf(request.jobId, request.idempotencyKey) == s.running[id].key
    requires var after := Finish(s, id, Success(summary));
             && |KeyedSuccesses(after, events)| < RESULT_MAX
             && forall later :: later in KeyedSuccesses(after, events) ==>
                  later.value.at - s.running[id].startedAt < RESULT_TTL_MS
    requires now - s.running[id].startedAt < RESULT_TTL_MS
    ensures Arrive(RunAll(Finish(s, id, Success(summary)), events), request, now).1 == FromCompleted(summary)
  {
    var run, after := s.running[id], Finish(s, id, Success(summary));
    var e := Entry(run.key, Remembered(run.startedAt, summary));
    FinishKeepsInv(s, id, Success(summary));
    RememberAppends(s.completed, run.key, summary, run.startedAt);
    assert after.completed[|after.completed| - 1] == e;
    RunKeepsPlace(after, events, e, 0);
    var end := RunAll(after, events);
    assert e in end.completed;
    GetIffPresent(end.completed, run.key);
  }
}
