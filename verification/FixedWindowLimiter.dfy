/** The fixed-window limiter of apps/api/src/indexer/dlq-replay.guard.ts and its behaviour over
    whole traces of calls. */
module RateLimiter {
  datatype State = State(windowStart: int, count: nat)

  const FRESH := State(0, 0)

  /** One call: the next state and the returned wait, 0 meaning admitted. */
  function TakeStep(s: State, max: int, windowMs: int, now: int): (State, int) {
    var s' := if now - s.windowStart >= windowMs then State(now, 0) else s;
    if s'.count >= max then (s', s'.windowStart + windowMs - now)
    else (s'.(count := s'.count + 1), 0)
  }

  class FixedWindowLimiter {
    var windowStart: int
    var count: nat

    function View(): State
      reads this
    {
      State(windowStart, count)
    }

    constructor ()
      ensures View() == FRESH
    {
      windowStart, count := 0, 0;
    }

    method Take(max: int, windowMs: int, now: int) returns (wait: int)
      modifies this
      ensures (View(), wait) == TakeStep(old(View()), max, windowMs, now)
    {
      if now - windowStart >= windowMs {
        windowStart := now;
        count := 0;
      }
      if count >= max { return windowStart + windowMs - now; }
      count := count + 1;
      return 0;
    }

    method Reset()
      modifies this
      ensures View() == FRESH
    {
      windowStart, count := 0, 0;
    }
  }

  // ----- traces ------------------------------------------------------------------

  function RunState(s: State, max: int, windowMs: int, times: seq<int>): State
    decreases |times|
  {
    if times == [] then s else RunState(TakeStep(s, max, windowMs, times[0]).0, max, windowMs, times[1..])
  }

  /** Calls admitted at a time in `[lo, hi]`. */
  function Admitted(s: State, max: int, windowMs: int, times: seq<int>, lo: int, hi: int): nat
    decreases |times|
  {
    if times == [] then 0
    else
      var (s', wait) := TakeStep(s, max, windowMs, times[0]);
      (if wait == 0 && lo <= times[0] <= hi then 1 else 0) + Admitted(s', max, windowMs, times[1..], lo, hi)
  }

  /** Times of a trace never go back, and start no earlier than `now`. */
  ghost predicate NonDecreasingFrom(times: seq<int>, now: int) {
    times != [] ==> times[0] >= now && NonDecreasingFrom(times[1..], times[0])
  }

  function Room(s: State, max: int): nat {
    if max <= s.count then 0 else max - s.count
  }

  function Positive(max: int): nat {
    if max < 0 then 0 else max
  }

  lemma {:induction false} NoneAfter(s: State, max: int, windowMs: int, times: seq<int>, now: int, lo: int, hi: int)
    requires now > hi && NonDecreasingFrom(times, now)
    ensures Admitted(s, max, windowMs, times, lo, hi) == 0
    decreases |times|
  {
    if times != [] {
      NoneAfter(TakeStep(s, max, windowMs, times[0]).0, max, windowMs, times[1..], times[0], lo, hi);
    }
  }

  /** A window opened late enough to cover the rest of the span bounds it on its own. */
  lemma {:induction false} SpanWithinWindow(s: State, max: int, windowMs: int, times: seq<int>, now: int, lo: int, hi: int)
    requires windowMs > 0 && s.windowStart <= now && NonDecreasingFrom(times, now)
    requires s.windowStart + windowMs > hi
    ensures Admitted(s, max, windowMs, times, lo, hi) <= Room(s, max)
    decreases |times|
  {
    if times != [] {
      var t := times[0];
      var s' := TakeStep(s, max, windowMs, t).0;
      if t > hi {
        NoneAfter(s', max, windowMs, times[1..], t, lo, hi);
      } else {
        SpanWithinWindow(s', max, windowMs, times[1..], t, lo, hi);
      }
    }
  }

  /** A window still open at the start of the span and the next one are all the span can meet. */
  lemma {:induction false} SpanMeetsTwoWindows(s: State, max: int, windowMs: int, times: seq<int>, now: int, lo: int, hi: int)
    requires windowMs > 0 && s.windowStart <= now && NonDecreasingFrom(times, now)
    requires s.windowStart + windowMs > lo && hi <= lo + windowMs
    ensures Admitted(s, max, windowMs, times, lo, hi) <= Room(s, max) + Positive(max)
    decreases |times|
  {
    if times != [] {
      var t := times[0];
      var s' := TakeStep(s, max, windowMs, t).0;
      if t - s.windowStart >= windowMs {
        SpanWithinWindow(s', max, windowMs, times[1..], t, lo, hi);
      } else {
        SpanMeetsTwoWindows(s', max, windowMs, times[1..], t, lo, hi);
      }
    }
  }

  /** However the calls fall, no closed span of one window admits more than twice the limit. */
  lemma {:induction false} AtMostTwiceTheLimit(s: State, max: int, windowMs: int, times: seq<int>, now: int, lo: int)
    requires windowMs > 0 && s.windowStart <= now && NonDecreasingFrom(times, now)
    ensures Admitted(s, max, windowMs, times, lo, lo + windowMs) <= 2 * Positive(max)
    decreases |times|
  {
    if s.windowStart + windowMs > lo {
      SpanMeetsTwoWindows(s, max, windowMs, times, now, lo, lo + windowMs);
    } else if times != [] {
      var t := times[0];
      var (s', wait) := TakeStep(s, max, windowMs, t);
      if t < lo {
        AtMostTwiceTheLimit(s', max, windowMs, times[1..], t, lo);
      } else if t == lo {
        SpanMeetsTwoWindows(s', max, windowMs, times[1..], t, lo, lo + windowMs);
      } else {
        SpanWithinWindow(s', max, windowMs, times[1..], t, lo, lo + windowMs);
      }
    }
  }

  // ----- how tight the bounds are ------------------------------------------------

  /** `n` calls at one time. */
  function Burst(t: int, n: nat): seq<int> {
    if n == 0 then [] else [t] + Burst(t, n - 1)
  }

  lemma BurstHead(t: int, n: nat, rest: seq<int>)
    requires n > 0
    ensures Burst(t, n) + rest == [t] + (Burst(t, n - 1) + rest)
  {
  }

  lemma {:induction false} BurstInOrder(t: int, n: nat, rest: seq<int>)
    requires NonDecreasingFrom(rest, t)
    ensures NonDecreasingFrom(Burst(t, n) + rest, t)
  {
    if n == 0 {
      assert Burst(t, n) + rest == rest;
    } else {
      BurstInOrder(t, n - 1, rest);
      assert (Burst(t, n) + rest)[1..] == Burst(t, n - 1) + rest;
    }
  }

  /** A burst into an open window with room for it is admitted whole. */
  lemma {:induction false} BurstFits(s: State, max: int, windowMs: int, t: int, n: nat, rest: seq<int>, lo: int, hi: int)
    requires s.windowStart <= t < s.windowStart + windowMs && s.count + n <= max && lo <= t <= hi
    ensures Admitted(s, max, windowMs, Burst(t, n) + rest, lo, hi)
         == n + Admitted(State(s.windowStart, s.count + n), max, windowMs, rest, lo, hi)
    decreases n
  {
    if n == 0 {
      assert Burst(t, n) + rest == rest;
    } else {
      assert (Burst(t, n) + rest)[1..] == Burst(t, n - 1) + rest;
      BurstFits(State(s.windowStart, s.count + 1), max, windowMs, t, n - 1, rest, lo, hi);
    }
  }

  lemma CallOpens(s: State, max: int, windowMs: int, t: int, later: seq<int>, lo: int, hi: int)
    requires t - s.windowStart >= windowMs && max > 0 && lo <= t <= hi
    ensures Admitted(s, max, windowMs, [t] + later, lo, hi) == 1 + Admitted(State(t, 1), max, windowMs, later, lo, hi)
  {
    assert ([t] + later)[1..] == later;
  }

  /** A burst after the window is over opens a new one, at its own time. */
  lemma BurstOpens(s: State, max: int, windowMs: int, t: int, n: nat, rest: seq<int>, lo: int, hi: int)
    requires windowMs > 0 && t - s.windowStart >= windowMs && 0 < n <= max && lo <= t <= hi
    ensures Admitted(s, max, windowMs, Burst(t, n) + rest, lo, hi)
         == n + Admitted(State(t, n), max, windowMs, rest, lo, hi)
  {
    BurstHead(t, n, rest);
    CallOpens(s, max, windowMs, t, Burst(t, n - 1) + rest, lo, hi);
    BurstFits(State(t, 1), max, windowMs, t, n - 1, rest, lo, hi);
  }

  /** For every limit and window, at any time: the whole limit at one moment and again one window
      later, all within one closed span. */
  lemma TwiceTheLimitReached(s: State, max: nat, windowMs: int, t: int)
    requires max > 0 && windowMs > 0 && t - s.windowStart >= windowMs
    ensures NonDecreasingFrom(Burst(t, max) + Burst(t + windowMs, max), t)
    ensures Admitted(s, max, windowMs, Burst(t, max) + Burst(t + windowMs, max), t, t + windowMs) == 2 * max
  {
    var later := Burst(t + windowMs, max);
    BurstInOrder(t + windowMs, max, []);
    assert later + [] == later;
    BurstInOrder(t, max, later);
    BurstOpens(s, max, windowMs, t, max, later, t, t + windowMs);
    BurstOpens(State(t, max), max, windowMs, t + windowMs, max, [], t, t + windowMs);
  }

  ghost predicate WithinLimit(max: int, windowMs: int, times: seq<int>, lo: int) {
    Admitted(FRESH, max, windowMs, times, lo, lo + windowMs) <= Positive(max)
  }

  /** Every trace of a new limiter whose clock is already past one window length keeps to the limit
      in every closed span of one window. */
  ghost predicate OneLimitPerClosedSpan(max: int, windowMs: int) {
    forall times: seq<int>, lo: int :: NonDecreasingFrom(times, windowMs) ==> WithinLimit(max, windowMs, times, lo)
  }

  /** That holds only of a limit that admits nothing. */
  lemma OneLimitIffNothingAdmitted(max: int, windowMs: int)
    requires windowMs > 0
    ensures OneLimitPerClosedSpan(max, windowMs) <==> max <= 0
  {
    if max > 0 {
      TwiceTheLimitReached(FRESH, max, windowMs, windowMs);
      assert !WithinLimit(max, windowMs, Burst(windowMs, max) + Burst(windowMs + windowMs, max), windowMs);
    } else {
      forall times: seq<int>, lo: int | NonDecreasingFrom(times, windowMs)
        ensures WithinLimit(max, windowMs, times, lo)
      {
        AtMostTwiceTheLimit(FRESH, max, windowMs, times, windowMs, lo);
      }
    }
  }

  /** The open window, if calls can still meet it, was opened by a call that was admitted. */
  ghost predicate OpenedByCall(s: State, windowMs: int, times: seq<int>) {
    s.count > 0 || (times != [] ==> times[0] - s.windowStart >= windowMs)
  }

  /** A span one shorter than the window misses the opening call of the earlier of two windows. */
  lemma {:induction false} AtMostTwiceLessOne(s: State, max: int, windowMs: int, times: seq<int>, now: int, lo: int)
    requires max > 0 && windowMs > 0 && s.windowStart <= now && NonDecreasingFrom(times, now)
    requires OpenedByCall(s, windowMs, times)
    ensures Admitted(s, max, windowMs, times, lo, lo + windowMs - 1) <= 2 * max - 1
    decreases |times|
  {
    var hi := lo + windowMs - 1;
    if s.windowStart >= lo {
      SpanWithinWindow(s, max, windowMs, times, now, lo, hi);
    } else if s.count > 0 && s.windowStart + windowMs > lo {
      SpanMeetsTwoWindows(s, max, windowMs, times, now, lo, hi);
    } else if times != [] {
      var t := times[0];
      var s' := TakeStep(s, max, windowMs, t).0;
      if t < lo {
        AtMostTwiceLessOne(s', max, windowMs, times[1..], t, lo);
      } else {
        SpanWithinWindow(s', max, windowMs, times[1..], t, lo, hi);
      }
    }
  }

  /** For every window longer than one tick of the clock that bound is reached too. */
  lemma TwiceLessOneReached(s: State, max: nat, windowMs: int, t: int)
    requires max > 0 && windowMs > 1 && t - s.windowStart >= windowMs
    ensures var times := [t] + (Burst(t + windowMs - 1, max - 1) + Burst(t + windowMs, max));
            && NonDecreasingFrom(times, t) && OpenedByCall(s, windowMs, times)
            && Admitted(s, max, windowMs, times, t + 1, t + windowMs) == 2 * max - 1
  {
    var early, late := Burst(t + windowMs - 1, max - 1), Burst(t + windowMs, max);
    BurstInOrder(t + windowMs, max, []);
    assert late + [] == late;
    BurstInOrder(t + windowMs - 1, max - 1, late);
    assert ([t] + (early + late))[1..] == early + late;
    BurstFits(State(t, 1), max, windowMs, t + windowMs - 1, max - 1, late, t + 1, t + windowMs);
    BurstOpens(State(t, max), max, windowMs, t + windowMs, max, [], t + 1, t + windowMs);
  }

  // ----- refusals ----------------------------------------------------------------

  lemma {:induction false} LastIsLatest(times: seq<int>, now: int)
    requires NonDecreasingFrom(times, now) && times != []
    ensures now <= times[0] <= times[|times| - 1]
    decreases |times|
  {
    if |times| > 1 {
      LastIsLatest(times[1..], times[0]);
    }
  }

  /** A refused call is refused again at every earlier moment than the wait says. */
  lemma RefusedUntilThen(s: State, max: int, windowMs: int, t: int, u: int)
    requires windowMs > 0
    requires t <= u < t + TakeStep(s, max, windowMs, t).1
    ensures TakeStep(TakeStep(s, max, windowMs, t).0, max, windowMs, u).1 != 0
  {
  }

  /** Every state reached in a trace is refused only for a wait in `(0, windowMs]`, and a lone retry
      after that wait is admitted when the limit allows anything at all. */
  lemma {:induction false} RefusalIsHonoured(s: State, max: int, windowMs: int, times: seq<int>, now: int, t: int)
    requires windowMs > 0 && s.windowStart <= now && NonDecreasingFrom(times, now)
    requires t >= now && (times != [] ==> t >= times[|times| - 1])
    ensures var reached := RunState(s, max, windowMs, times);
            var (s', wait) := TakeStep(reached, max, windowMs, t);
            wait != 0 ==>
              && 0 < wait <= windowMs
              && (max > 0 ==> TakeStep(s', max, windowMs, t + wait).1 == 0)
              && (forall u :: t <= u < t + wait ==> TakeStep(s', max, windowMs, u).1 != 0)
    decreases |times|
  {
    if times != [] {
      LastIsLatest(times, now);
      RefusalIsHonoured(TakeStep(s, max, windowMs, times[0]).0, max, windowMs, times[1..], times[0], t);
    } else {
      var (s', wait) := TakeStep(s, max, windowMs, t);
      forall u | t <= u < t + wait ensures TakeStep(s', max, windowMs, u).1 != 0 {
        RefusedUntilThen(s, max, windowMs, t, u);
      }
    }
  }
}
