/** How long the dead-letter replay remembers: over any stretch of clock shorter than the TTL its
    memory is the keyed successes in order, cut to the last thousand. */
module ReplayMemory {
  import opened DlqReplay
  import opened OrderedMap
  import opened Wrappers

  type Memory = seq<Entry<string, Remembered>>

  // ----- the clock ---------------------------------------------------------------

  /** The clock readings of a trace never go back, and start no earlier than `from`. */
  ghost predicate ClockRuns(events: seq<Event>, from: int) {
    && (forall i :: 0 <= i < |events| && events[i].Arrives? ==> from <= events[i].now)
    && (forall i, j :: 0 <= i < j < |events| && events[i].Arrives? && events[j].Arrives? ==> events[i].now <= events[j].now)
  }

  ghost predicate ArrivesBetween(events: seq<Event>, lo: int, hi: int) {
    forall i :: 0 <= i < |events| && events[i].Arrives? ==> lo <= events[i].now <= hi
  }

  lemma ClockBounds(events: seq<Event>, request: Request, lo: int, now: int)
    requires ClockRuns(events + [Arrives(request, now)], lo)
    ensures lo <= now && ArrivesBetween(events, lo, now)
  {
    var all := events + [Arrives(request, now)];
    assert all[|events|] == Arrives(request, now);
    assert forall i :: 0 <= i < |events| ==> all[i] == events[i];
  }

  /** Every execution under way began between the two readings. */
  ghost predicate StartedBetween(s: State, lo: int, hi: int) {
    forall id :: id in s.running ==> lo <= s.running[id].startedAt <= hi
  }

  lemma StepStartedBetween(s: State, e: Event, lo: int, hi: int)
    requires StartedBetween(s, lo, hi) && (e.Arrives? ==> lo <= e.now <= hi)
    ensures StartedBetween(Step(s, e), lo, hi)
    ensures KeyedSuccess(s, e).Some? ==> lo <= KeyedSuccess(s, e).value.value.at <= hi
  {
  }

  lemma BetweenInit(events: seq<Event>, lo: int, hi: int)
    requires events != [] && ArrivesBetween(events, lo, hi)
    ensures ArrivesBetween(events[..|events| - 1], lo, hi)
  {
    assert forall i :: 0 <= i < |events| - 1 ==> events[..|events| - 1][i] == events[i];
  }

  lemma {:induction false} RunStartedBetween(s: State, events: seq<Event>, lo: int, hi: int)
    requires StartedBetween(s, lo, hi) && ArrivesBetween(events, lo, hi)
    ensures StartedBetween(RunAll(s, events), lo, hi)
    ensures forall e :: e in KeyedSuccesses(s, events) ==> lo <= e.value.at <= hi
  {
    if events != [] {
      var before, last := events[..|events| - 1], events[|events| - 1];
      BetweenInit(events, lo, hi);
      RunStartedBetween(s, before, lo, hi);
      StepStartedBetween(RunAll(s, before), last, lo, hi);
    }
  }

  // ----- the tail of the memory --------------------------------------------------

  function LastThousand(results: Memory): Memory {
    if |results| <= RESULT_MAX then results else results[|results| - RESULT_MAX..]
  }

  ghost predicate EndsWith(completed: Memory, tail: Memory) {
    |tail| <= |completed| && completed[|completed| - |tail|..] == tail
  }

  ghost predicate AllFresh(results: Memory, now: int) {
    forall e :: e in results ==> now - e.value.at < RESULT_TTL_MS
  }

  lemma {:induction false} SweepConcat(a: Memory, b: Memory, now: int)
    ensures Sweep(a + b, now) == Sweep(a, now) + Sweep(b, now)
  {
    if b == [] {
      assert a + b == a;
    } else {
      assert (a + b)[..|a + b| - 1] == a + b[..|b| - 1];
      SweepConcat(a, b[..|b| - 1], now);
    }
  }

  lemma FreshInit(results: Memory, now: int)
    requires results != [] && AllFresh(results, now)
    ensures AllFresh(results[..|results| - 1], now) && now - results[|results| - 1].value.at < RESULT_TTL_MS
  {
    assert results[|results| - 1] in results;
    assert forall e :: e in results[..|results| - 1] ==> e in results;
  }

  lemma SweepSnoc(results: Memory, now: int)
    requires results != [] && now - results[|results| - 1].value.at < RESULT_TTL_MS
    ensures Sweep(results, now) == Sweep(results[..|results| - 1], now) + [results[|results| - 1]]
  {
  }

  lemma {:induction false} SweepFresh(results: Memory, now: int)
    requires AllFresh(results, now)
    ensures Sweep(results, now) == results
  {
    if results != [] {
      FreshInit(results, now);
      SweepFresh(results[..|results| - 1], now);
      SweepSnoc(results, now);
      assert results == results[..|results| - 1] + [results[|results| - 1]];
    }
  }

  lemma {:induction false} SweepShrinks(results: Memory, now: int)
    ensures |Sweep(results, now)| <= |results|
  {
    if results != [] {
      SweepShrinks(results[..|results| - 1], now);
    }
  }

  /** The sweep leaves a fresh tail alone. */
  lemma SweepKeepsTail(completed: Memory, tail: Memory, now: int) returns (older: Memory)
    requires EndsWith(completed, tail) && AllFresh(tail, now)
    ensures Sweep(completed, now) == older + tail && |older| <= |completed| - |tail|
  {
    var head := completed[..|completed| - |tail|];
    assert completed == head + tail;
    SweepConcat(head, tail, now);
    SweepFresh(tail, now);
    SweepShrinks(head, now);
    older := Sweep(head, now);
  }

  lemma LastThousandSnoc(results: Memory, e: Entry<string, Remembered>)
    ensures var tail := LastThousand(results);
            LastThousand(results + [e]) == (if |tail| == RESULT_MAX then tail[1..] else tail) + [e]
  {
    var all, n := results + [e], |results| - RESULT_MAX;
    if |results| > RESULT_MAX {
      assert all[|all| - RESULT_MAX..] == results[n + 1..] + [e];
      assert results[n..][1..] == results[n + 1..];
    } else if |results| == RESULT_MAX {
      assert all[1..] == results[1..] + [e];
    }
  }

  /** Making room for one more result takes from before the tail, or from its front if it is full. */
  lemma RoomKeepsTail(older: Memory, tail: Memory, e: Entry<string, Remembered>)
    requires |older| + |tail| <= RESULT_MAX
    ensures var kept := older + tail;
            var room := if |kept| >= RESULT_MAX then kept[1..] else kept;
            EndsWith(room + [e], (if |tail| == RESULT_MAX then tail[1..] else tail) + [e])
  {
  }

  lemma TailIsFresh(results: Memory, now: int)
    requires AllFresh(results, now)
    ensures AllFresh(LastThousand(results), now)
  {
  }

  lemma RememberKeepsTail(completed: Memory, results: Memory, key: string, summary: Summary, now: int)
    requires UniqueKeys(completed) && |completed| <= RESULT_MAX
    requires Get(completed, key).Some? ==> now - Get(completed, key).value.at >= RESULT_TTL_MS
    requires EndsWith(completed, LastThousand(results)) && AllFresh(results, now)
    ensures EndsWith(Remember(completed, key, summary, now), LastThousand(results + [Entry(key, Remembered(now, summary))]))
  {
    TailIsFresh(results, now);
    var older := SweepKeepsTail(completed, LastThousand(results), now);
    RememberAppends(completed, key, summary, now);
    RoomKeepsTail(older, LastThousand(results), Entry(key, Remembered(now, summary)));
    LastThousandSnoc(results, Entry(key, Remembered(now, summary)));
  }

  /** What a step adds to the keyed successes. */
  function Added(s: State, event: Event): Memory {
    if KeyedSuccess(s, event).Some? then [KeyedSuccess(s, event).value] else []
  }

  lemma StepKeepsTail(s: State, event: Event, results: Memory, lo: int, hi: int)
    requires Inv(s) && EndsWith(s.completed, LastThousand(results)) && hi - lo < RESULT_TTL_MS
    requires (forall e :: e in results ==> lo <= e.value.at) && StartedBetween(s, lo, hi)
    ensures Inv(Step(s, event))
    ensures EndsWith(Step(s, event).completed,
                     LastThousand(results + Added(s, event)))
  {
    assert results + [] == results;
    match event {
      case Arrives(request, now) => ArriveKeepsInv(s, request, now);
      case Finishes(id, outcome) =>
        if id in s.running {
          FinishKeepsInv(s, id, outcome);
          if outcome.Success? && s.running[id].keyed {
            RememberKeepsTail(s.completed, results, s.running[id].key, outcome.summary, s.running[id].startedAt);
          }
        }
    }
  }

  lemma OneMoreEvent(s: State, events: seq<Event>, results: Memory)
    requires events != []
    ensures var before := events[..|events| - 1];
            results + KeyedSuccesses(s, events)
            == results + KeyedSuccesses(s, before) + Added(RunAll(s, before), events[|events| - 1])
  {
    var earlier := KeyedSuccesses(s, events[..|events| - 1]);
    var added := Added(RunAll(s, events[..|events| - 1]), events[|events| - 1]);
    assert KeyedSuccesses(s, events) == earlier + added;
    assert results + (earlier + added) == results + earlier + added;
  }

  lemma BothSince(a: Memory, b: Memory, lo: int)
    requires (forall e :: e in a ==> lo <= e.value.at) && forall e :: e in b ==> lo <= e.value.at
    ensures forall e :: e in a + b ==> lo <= e.value.at
  {
  }

  /** While the clock stays within the TTL, memory ends with the last thousand of the results given
      and of the keyed successes since, in order. */
  lemma {:induction false} RunKeepsTail(s: State, events: seq<Event>, results: Memory, lo: int, hi: int)
    requires Inv(s) && EndsWith(s.completed, LastThousand(results)) && hi - lo < RESULT_TTL_MS
    requires (forall e :: e in results ==> lo <= e.value.at)
    requires StartedBetween(s, lo, hi) && ArrivesBetween(events, lo, hi)
    ensures Inv(RunAll(s, events))
    ensures EndsWith(RunAll(s, events).completed, LastThousand(results + KeyedSuccesses(s, events)))
  {
    if events == [] {
      assert results + [] == results;
    } else {
      var before := events[..|events| - 1];
      BetweenInit(events, lo, hi);
      RunKeepsTail(s, before, results, lo, hi);
      RunStartedBetween(s, before, lo, hi);
      BothSince(results, KeyedSuccesses(s, before), lo);
      StepKeepsTail(RunAll(s, before), events[|events| - 1], results + KeyedSuccesses(s, before), lo, hi);
      OneMoreEvent(s, events, results);
    }
  }

  // ----- exactly how long --------------------------------------------------------

  lemma TailIsAllThereIs(completed: Memory, all: Memory)
    requires EndsWith(completed, LastThousand(all)) && |completed| <= 1000 <= |all|
    ensures completed == all[|all| - 1000..]
  {
    assert completed[0..] == completed;
  }

  /** A thousand keyed successes within the TTL fill the memory: it is the last thousand, in order,
      and nothing older. */
  lemma MemoryIsLastThousand(s: State, events: seq<Event>, request: Request, lo: int, now: int)
    requires Inv(s) && StartedBetween(s, lo, now) && now - lo < 600_000
    requires ClockRuns(events + [Arrives(request, now)], lo)
    requires |KeyedSuccesses(s, events)| >= 1000
    ensures var all := KeyedSuccesses(s, events); RunAll(s, events).completed == all[|all| - 1000..]
  {
    ClockBounds(events, request, lo, now);
    RunKeepsTail(s, events, [], lo, now);
    assert [] + KeyedSuccesses(s, events) == KeyedSuccesses(s, events);
    TailIsAllThereIs(RunAll(s, events).completed, KeyedSuccesses(s, events));
  }

  lemma {:induction false} FoundIsMember(completed: Memory, key: string)
    requires Get(completed, key).Some?
    ensures Entry(key, Get(completed, key).value) in completed
  {
    if completed[0].key != key {
      FoundIsMember(completed[1..], key);
    }
  }

  /** A success of another key cannot be found under this one. */
  lemma NotUnderKey(completed: Memory, results: Memory, key: string)
    requires completed == LastThousand(results) && forall e :: e in results ==> e.key != key
    ensures Get(completed, key) == None
  {
    assert forall e :: e in completed ==> e in results;
    if Get(completed, key).Some? {
      FoundIsMember(completed, key);
    }
  }

  /** The state right after an execution succeeded, with the clock's bounds. */
  lemma SuccessStartedBetween(s: State, id: RunId, summary: Summary, lo: int, now: int)
    requires Inv(s) && id in s.running && StartedBetween(s, lo, now)
    ensures Inv(Finish(s, id, Success(summary))) && StartedBetween(Finish(s, id, Success(summary)), lo, now)
  {
    FinishKeepsInv(s, id, Success(summary));
  }

  lemma StillAnswered(s: State, id: RunId, summary: Summary, events: seq<Event>, request: Request, lo: int, now: int)
    requires Inv(s) && id in s.running && s.running[id].keyed
    requires IsKeyed(request) && KeyOf(request.jobId, request.idempotencyKey) == s.running[id].key
    requires StartedBetween(s, lo, now) && ArrivesBetween(events, lo, now) && now - lo < RESULT_TTL_MS
    requires |KeyedSuccesses(Finish(s, id, Success(summary)), events)| < RESULT_MAX
    ensures Arrive(RunAll(Finish(s, id, Success(summary)), events), request, now).1 == FromCompleted(summary)
  {
    SuccessStartedBetween(s, id, summary, lo, now);
    RunStartedBetween(Finish(s, id, Success(summary)), events, lo, now);
    RememberedUntilTtlOrThousand(s, id, summary, events, request, now);
  }

  /** With the clock running forward, and everything under way begun less than a TTL ago: a keyed
      success answers its key if and only if fewer than a thousand keyed successes of other keys
      came in since. */
  lemma AnsweredIffFewerThanThousand(s: State, id: RunId, summary: Summary, events: seq<Event>, request: Request, lo: int, now: int)
    requires Inv(s) && id in s.running && s.running[id].keyed
    requires IsKeyed(request) && KeyOf(request.jobId, request.idempotencyKey) == s.running[id].key
    requires StartedBetween(s, lo, now) && now - lo < 600_000 && ClockRuns(events + [Arrives(request, now)], lo)
    requires forall e :: e in KeyedSuccesses(Finish(s, id, Success(summary)), events) ==> e.key != s.running[id].key
    ensures Arrive(RunAll(Finish(s, id, Success(summary)), events), request, now).1 == FromCompleted(summary)
            <==> |KeyedSuccesses(Finish(s, id, Success(summary)), events)| < 1000
  {
    var after := Finish(s, id, Success(summary));
    if |KeyedSuccesses(after, events)| < RESULT_MAX {
      ClockBounds(events, request, lo, now);
      StillAnswered(s, id, summary, events, request, lo, now);
    } else {
      SuccessStartedBetween(s, id, summary, lo, now);
      MemoryIsLastThousand(after, events, request, lo, now);
      NotUnderKey(RunAll(after, events).completed, KeyedSuccesses(after, events), s.running[id].key);
    }
  }
}
