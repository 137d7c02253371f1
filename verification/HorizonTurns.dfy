/** Two questions about the Horizon poller: when can a turn of an account be trusted to pass no
    record, whatever fault hits it, and how many good polls does it take to catch up. */
module HorizonTurns {
  import opened Horizon
  import opened OrderedMap

  // ----- the windows of any page -------------------------------------------------

  ghost predicate InSomeGroup(groups: Groups, r: Record) {
    exists i :: 0 <= i < |groups| && r in groups[i].value
  }

  /** Each window holds records of its own ledger, in page order, and every record is in one. */
  ghost predicate SortsPage(groups: Groups, page: seq<Record>) {
    && UniqueKeys(groups)
    && (forall i, r :: 0 <= i < |groups| && r in groups[i].value ==> r in page && r.ledger == groups[i].key)
    && (forall r :: r in page ==> InSomeGroup(groups, r))
    && (forall i :: 0 <= i < |groups| ==> groups[i].value != [] && AscendingTokens(groups[i].value))
  }

  lemma AddNewLedger(groups: Groups, last: Record)
    requires forall i :: 0 <= i < |groups| ==> groups[i].key != last.ledger
    ensures AddToGroup(groups, last) == groups + [Entry(last.ledger, [last])]
  {
    SetAbsent(groups, last.ledger, [last]);
    assert [] + [last] == [last];
  }

  lemma StillInSomeGroup(groups: Groups, more: Groups, r: Record)
    requires InSomeGroup(groups, r)
    ensures InSomeGroup(groups + more, r)
  {
    var i :| 0 <= i < |groups| && r in groups[i].value;
    assert (groups + more)[i] == groups[i];
  }

  lemma SortsNewLedger(groups: Groups, before: seq<Record>, last: Record)
    requires SortsPage(groups, before) && forall i :: 0 <= i < |groups| ==> groups[i].key != last.ledger
    ensures SortsPage(groups + [Entry(last.ledger, [last])], before + [last])
  {
    var added := [Entry(last.ledger, [last])];
    forall r | r in before + [last] ensures InSomeGroup(groups + added, r) {
      if r in before {
        StillInSomeGroup(groups, added, r);
      } else {
        assert last in (groups + added)[|groups|].value;
      }
    }
  }

  lemma AscendingSnoc(before: seq<Record>, last: Record, own: seq<Record>)
    requires AscendingTokens(before + [last]) && AscendingTokens(own) && forall r :: r in own ==> r in before
    ensures AscendingTokens(own + [last])
  {
    forall i | 0 <= i < |own| ensures own[i].token < last.token {
      var p := PlaceOf(before, own[i]);
      assert (before + [last])[p] == own[i] && (before + [last])[|before|] == last;
    }
  }

  lemma SortsSameLedger(groups: Groups, before: seq<Record>, last: Record, m: nat)
    requires SortsPage(groups, before) && AscendingTokens(before + [last])
    requires m < |groups| && groups[m].key == last.ledger
    ensures SortsPage(AddToGroup(groups, last), before + [last])
  {
    var v := groups[m].value + [last];
    SetPresent(groups, m, v);
    var after := groups[m := Entry(last.ledger, v)];
    assert AddToGroup(groups, last) == after;
    AscendingSnoc(before, last, groups[m].value);
    forall r | r in before + [last] ensures InSomeGroup(after, r) {
      if r in before {
        var i :| 0 <= i < |groups| && r in groups[i].value;
        assert r in after[i].value;
      } else {
        assert last in after[m].value;
      }
    }
  }

  lemma {:induction false} GroupSortsPage(page: seq<Record>)
    requires AscendingTokens(page)
    ensures SortsPage(Group(page), page)
  {
    if page != [] {
      var before, last := page[..|page| - 1], page[|page| - 1];
      GroupSortsPage(before);
      assert page == before + [last];
      if m: nat :| m < |Group(before)| && Group(before)[m].key == last.ledger {
        SortsSameLedger(Group(before), before, last, m);
      } else {
        AddNewLedger(Group(before), last);
        SortsNewLedger(Group(before), before, last);
      }
    }
  }

  // ----- windows in token order --------------------------------------------------

  /** Window `i + 1` starts after window `i` ends. */
  ghost predicate InOrderAt(windows: seq<seq<Record>>, i: nat)
    requires i + 1 < |windows|
  {
    windows[i] != [] && windows[i + 1] != [] && windows[i][|windows[i]| - 1].token < windows[i + 1][0].token
  }

  ghost predicate InTokenOrder(windows: seq<seq<Record>>) {
    forall i: nat :: i + 1 < |windows| ==> InOrderAt(windows, i)
  }

  lemma {:induction false} EarlierWindowsEndEarlier(windows: seq<seq<Record>>, i: nat, j: nat)
    requires i < j < |windows| && InTokenOrder(windows)
    requires forall k :: 0 <= k < |windows| ==> windows[k] != [] && AscendingTokens(windows[k])
    ensures windows[i][|windows[i]| - 1].token < windows[j][0].token
  {
    assert InOrderAt(windows, j - 1);
    if i < j - 1 {
      EarlierWindowsEndEarlier(windows, i, j - 1);
    }
  }

  lemma EarlierWindowEarlierRecord(windows: seq<seq<Record>>, i: nat, j: nat, a: Record, b: Record)
    requires i < j < |windows| && InTokenOrder(windows) && a in windows[i] && b in windows[j]
    requires forall k :: 0 <= k < |windows| ==> windows[k] != [] && AscendingTokens(windows[k])
    ensures a.token < b.token
  {
    EarlierWindowsEndEarlier(windows, i, j);
    var p := PlaceOf(windows[i], a);
    var q := PlaceOf(windows[j], b);
  }

  lemma GroupOf(groups: Groups, page: seq<Record>, r: Record) returns (i: nat)
    requires SortsPage(groups, page) && r in page
    ensures i < |groups| && r in groups[i].value && groups[i].key == r.ledger
  {
    assert InSomeGroup(groups, r);
    i :| 0 <= i < |groups| && r in groups[i].value;
  }

  /** Only a page that keeps each ledger's records together has its windows in token order. */
  lemma TokenOrderIsContiguous(page: seq<Record>)
    requires AscendingTokens(page) && InTokenOrder(Windows(page))
    ensures Contiguous(page)
  {
    GroupSortsPage(page);
    var groups, windows := Group(page), Windows(page);
    assert forall k :: 0 <= k < |windows| ==> windows[k] == groups[k].value;
    forall i, j, k | 0 <= i < j < k < |page| && page[i].ledger == page[k].ledger ensures page[j].ledger == page[i].ledger {
      var m := GroupOf(groups, page, page[i]);
      var m' := GroupOf(groups, page, page[k]);
      var n := GroupOf(groups, page, page[j]);
      assert m == m';
      if m < n {
        EarlierWindowEarlierRecord(windows, m, n, page[k], page[j]);
      } else if n < m {
        EarlierWindowEarlierRecord(windows, n, m, page[j], page[i]);
      }
    }
  }

  // ----- when a turn is safe -----------------------------------------------------

  /** The turn's cursor passes only records whose jobs are in the queues or which build none. */
  ghost predicate TurnSafe(s: State, history: History, account: string, o: Outcome)
    requires account in s.cursors
  {
    var t := PollAccount(s, history, account, o).0;
    && account in t.cursors
    && forall r :: r in RecordsOf(history, account) && s.cursors[account] < r.token <= t.cursors[account] ==>
         Handled(t.queued, r, account)
  }

  lemma ContiguousTurnSafe(s: State, history: History, account: string, o: Outcome)
    requires Inv(s, history) && AscendingHistory(history) && account in s.tracked
    requires o.Answer? ==> Contiguous(PageOf(RecordsOf(history, account), s.cursors[account], o.upto))
    ensures TurnSafe(s, history, account, o)
  {
    TurnKeepsInv(s, history, account, o);
    assert Covered(PollAccount(s, history, account, o).0, history, account);
  }

  /** A job already queued, or built from a record of one of the windows before the `m`-th. */
  ghost predicate QueuedBefore(j: Job, queued: seq<Job>, windows: seq<seq<Record>>, m: nat) {
    j in queued || exists k :: 0 <= k < m && k < |windows| && j.source in windows[k]
  }

  lemma DiscoveryKeepsQueue(s: State, records: seq<Record>, cursor: int)
    ensures DiscoverAll(s, records, cursor).queued == s.queued
  {
  }

  /** The account is where it was, but for its cursor and what is queued. */
  ghost predicate StillThere(s: State, t: State, account: string) {
    && account in t.tracked && account in t.cursors && account in t.starts
    && (account in s.starts ==> t.starts[account] == s.starts[account])
    && forall j :: j in s.queued ==> j in t.queued
  }

  lemma {:induction false} DiscoveryKeepsAccount(s: State, records: seq<Record>, cursor: int, account: string)
    requires account in s.tracked && account in s.cursors && account in s.starts
    ensures var d := DiscoverAll(s, records, cursor);
            StillThere(s, d, account) && d.cursors[account] == s.cursors[account] && d.queued == s.queued
  {
    if records != [] {
      DiscoveryKeepsAccount(s, records[..|records| - 1], cursor, account);
    }
  }

  lemma AllQueued(d: State, account: string, window: seq<Record>)
    ensures forall r :: r in window ==> Handled(Enqueue(d, account, window, ALL_KINDS).queued, r, account)
  {
    JobsOfWindow(window, account, ALL_KINDS);
    forall r | r in window ensures Handled(Enqueue(d, account, window, ALL_KINDS).queued, r, account) {
      EveryKind(r.kind);
    }
  }

  /** Where one window leaves the cursor, and that it queues the jobs of what it passed. */
  lemma WindowStops(s: State, account: string, cursor: int, window: seq<Record>, fault: WindowFault) returns (t: State, ok: bool)
    requires account in s.tracked && account in s.cursors && account in s.starts && window != []
    ensures ProcessWindow(s, account, cursor, window, fault) == (t, ok) && StillThere(s, t, account)
    ensures t.cursors[account] == if ok then window[|window| - 1].token else s.cursors[account]
    ensures ok ==> forall r :: r in window ==> Handled(t.queued, r, account)
  {
    var result := ProcessWindow(s, account, cursor, window, fault);
    t, ok := result.0, result.1;
    if fault.PublishFails? && fault.at < |window| {
      DiscoveryKeepsAccount(s, window[..fault.at], cursor, account);
    } else {
      DiscoveryKeepsAccount(s, window, cursor, account);
      AllQueued(DiscoverAll(s, window, cursor), account, window);
    }
  }

  /** The token a window ends at. */
  function EndOf(window: seq<Record>): int
    requires window != []
  {
    window[|window| - 1].token
  }

  /** The cursor once the first `f` windows are done. */
  ghost function CursorAfter(start: int, windows: seq<seq<Record>>, f: nat): int
    requires f <= |windows| && NoneEmpty(windows)
  {
    if f == 0 then start else EndOf(windows[f - 1])
  }

  /** A turn that got through the first `f` windows and no further. */
  ghost predicate StopsAt(s: State, t: State, account: string, windows: seq<seq<Record>>, f: nat)
    requires account in s.cursors && NoneEmpty(windows)
  {
    && f <= |windows| && StillThere(s, t, account)
    && t.cursors[account] == CursorAfter(s.cursors[account], windows, f)
    && forall k, r :: 0 <= k < f && r in windows[k] ==> Handled(t.queued, r, account)
  }

  lemma StopsOneLater(s: State, t: State, u: State, account: string, windows: seq<seq<Record>>, f: nat)
    requires account in s.cursors && account in s.starts && windows != [] && NoneEmpty(windows)
    requires StillThere(s, t, account) && t.cursors[account] == EndOf(windows[0])
    requires forall r :: r in windows[0] ==> Handled(t.queued, r, account)
    requires StopsAt(t, u, account, windows[1..], f)
    ensures StopsAt(s, u, account, windows, f + 1)
  {
    forall k, r | 0 <= k < f + 1 && r in windows[k] ensures Handled(u.queued, r, account) {
      if k > 0 {
        assert windows[1..][k - 1] == windows[k];
      }
    }
  }

  /** Whatever its fault, a turn stops between two windows. */
  lemma {:induction false} StopsSomewhere(s: State, account: string, cursor: int, windows: seq<seq<Record>>, i: nat, o: Outcome)
    returns (f: nat)
    requires account in s.tracked && account in s.cursors && account in s.starts
    requires NoneEmpty(windows)
    ensures StopsAt(s, ProcessWindows(s, account, cursor, windows, i, o).0, account, windows, f)
    decreases |windows|
  {
    f := 0;
    if windows != [] {
      var t, ok := WindowStops(s, account, cursor, windows[0], FaultAt(o, i));
      UnfoldWindows(s, account, cursor, windows, i, o, t, ok);
      if ok {
        f := StopsSomewhere(t, account, cursor, windows[1..], i + 1, o);
        StopsOneLater(s, t, ProcessWindows(t, account, cursor, windows[1..], i + 1, o).0, account, windows, f);
        f := f + 1;
      }
    }
  }

  /** A window that meets no fault: its jobs queued, the cursor at its end. */
  lemma GoodWindow(s: State, account: string, cursor: int, window: seq<Record>) returns (t: State)
    requires account in s.tracked && account in s.cursors && window != []
    ensures ProcessWindow(s, account, cursor, window, NoFault) == (t, true)
    ensures account in t.tracked && account in t.cursors && t.cursors[account] == window[|window| - 1].token
    ensures forall j :: j in t.queued ==> j in s.queued || j.source in window
  {
    t := ProcessWindow(s, account, cursor, window, NoFault).0;
    DiscoveryKeepsOthers(s, window, cursor, account);
    DiscoveryKeepsQueue(s, window, cursor);
    JobsOfWindow(window, account, ALL_KINDS);
  }

  lemma {:induction false} NoQueueNoJobs(window: seq<Record>, account: string)
    ensures BuildJobs(window, account, {}) == []
  {
    if window != [] {
      NoQueueNoJobs(window[..|window| - 1], account);
    }
  }

  /** A window no queue accepts: nothing queued, the cursor where it was. */
  lemma RefusedWindow(s: State, account: string, cursor: int, window: seq<Record>) returns (t: State)
    requires account in s.tracked && account in s.cursors
    ensures ProcessWindow(s, account, cursor, window, EnqueueFails({})) == (t, false)
    ensures account in t.cursors && t.cursors[account] == s.cursors[account] && t.queued == s.queued
  {
    t := ProcessWindow(s, account, cursor, window, EnqueueFails({})).0;
    DiscoveryKeepsOthers(s, window, cursor, account);
    DiscoveryKeepsQueue(s, window, cursor);
    NoQueueNoJobs(window, account);
  }

  /** A turn stopped by its queues: the cursor after `m` windows, nothing of a later one queued. */
  ghost predicate RefusedAt(s: State, t: State, account: string, windows: seq<seq<Record>>, m: nat)
    requires account in s.cursors && m <= |windows| && NoneEmpty(windows)
  {
    && account in t.cursors && t.cursors[account] == CursorAfter(s.cursors[account], windows, m)
    && forall j :: j in t.queued ==> QueuedBefore(j, s.queued, windows, m)
  }

  lemma BeforeFromRest(j: Job, queued: seq<Job>, later: seq<Job>, windows: seq<seq<Record>>, m: nat)
    requires 0 < m < |windows| && QueuedBefore(j, later, windows[1..], m - 1)
    requires j in later ==> j in queued || j.source in windows[0]
    ensures QueuedBefore(j, queued, windows, m)
  {
    if j !in later {
      var k :| 0 <= k < m - 1 && k < |windows[1..]| && j.source in windows[1..][k];
      assert j.source in windows[k + 1];
    }
  }

  lemma RefusedOneLater(s: State, t: State, u: State, account: string, windows: seq<seq<Record>>, m: nat)
    requires account in s.cursors && account in t.cursors && 0 < m < |windows| && NoneEmpty(windows)
    requires t.cursors[account] == EndOf(windows[0])
    requires forall j :: j in t.queued ==> j in s.queued || j.source in windows[0]
    requires RefusedAt(t, u, account, windows[1..], m - 1)
    ensures RefusedAt(s, u, account, windows, m)
  {
    forall j | j in u.queued ensures QueuedBefore(j, s.queued, windows, m) {
      BeforeFromRest(j, s.queued, t.queued, windows, m);
    }
  }

  lemma RefusedHere(s: State, account: string, cursor: int, windows: seq<seq<Record>>, i: nat, o: Outcome)
    requires account in s.tracked && account in s.cursors && windows != [] && NoneEmpty(windows)
    requires FaultAt(o, i) == EnqueueFails({})
    ensures RefusedAt(s, ProcessWindows(s, account, cursor, windows, i, o).0, account, windows, 0)
  {
    var t := RefusedWindow(s, account, cursor, windows[0]);
    UnfoldWindows(s, account, cursor, windows, i, o, t, false);
  }

  /** A window before the one that fails: the turn goes on with the others. */
  lemma GoodWindowFirst(s: State, account: string, cursor: int, windows: seq<seq<Record>>, i: nat, o: Outcome) returns (t: State)
    requires account in s.tracked && account in s.cursors && windows != [] && windows[0] != [] && FaultAt(o, i) == NoFault
    ensures account in t.tracked && account in t.cursors && t.cursors[account] == EndOf(windows[0])
    ensures forall j :: j in t.queued ==> j in s.queued || j.source in windows[0]
    ensures ProcessWindows(s, account, cursor, windows, i, o) == ProcessWindows(t, account, cursor, windows[1..], i + 1, o)
  {
    t := GoodWindow(s, account, cursor, windows[0]);
    UnfoldWindows(s, account, cursor, windows, i, o, t, true);
  }

  /** With every queue down at the `m`-th window from here, the cursor stops at the end of the one
      before it, and only the windows before it are in the queues. */
  lemma {:induction false} StoppedAt(s: State, account: string, cursor: int, windows: seq<seq<Record>>, i: nat, m: nat, o: Outcome)
    requires account in s.tracked && account in s.cursors && m < |windows| && NoneEmpty(windows)
    requires o.Answer? && o.faultyWindow == i + m && o.fault == EnqueueFails({})
    ensures RefusedAt(s, ProcessWindows(s, account, cursor, windows, i, o).0, account, windows, m)
    decreases |windows|
  {
    if m == 0 {
      RefusedHere(s, account, cursor, windows, i, o);
    } else {
      var t := GoodWindowFirst(s, account, cursor, windows, i, o);
      StoppedAt(t, account, cursor, windows[1..], i + 1, m - 1, o);
      RefusedOneLater(s, t, ProcessWindows(t, account, cursor, windows[1..], i + 1, o).0, account, windows, m);
    }
  }

  lemma WindowIsGroup(page: seq<Record>, k: nat)
    requires k < |Windows(page)|
    ensures |Windows(page)| == |Group(page)| && Windows(page)[k] == Group(page)[k].value
  {
  }

  /** The windows of a page, as far as the next lemmas look. */
  ghost predicate CutOf(windows: seq<seq<Record>>, page: seq<Record>) {
    && NoneEmpty(windows)
    && (forall k, r :: 0 <= k < |windows| && r in windows[k] ==> r in page)
    && (forall k, m, r :: 0 <= k < |windows| && 0 <= m < |windows| && r in windows[k] && r in windows[m] ==> k == m)
  }

  lemma GroupsCut(groups: Groups, page: seq<Record>)
    requires SortsPage(groups, page)
    ensures CutOf(Values(groups), page)
  {
    var windows := Values(groups);
    forall k: nat, m: nat, r: Record | k < |groups| && m < |groups| && r in windows[k] && r in windows[m] ensures k == m {
      assert groups[k].key == r.ledger == groups[m].key;
    }
  }

  lemma WindowsOfPage(page: seq<Record>)
    requires AscendingTokens(page)
    ensures CutOf(Windows(page), page)
  {
    GroupSortsPage(page);
    GroupsCut(Group(page), page);
  }

  lemma PageMembers(records: seq<Record>, cursor: int, upto: int)
    requires AscendingTokens(records)
    ensures var page := PageOf(records, cursor, upto);
            AscendingTokens(page) && forall r :: r in page ==> r in records && cursor < r.token
  {
    AfterMembers(records, cursor, upto);
    assert forall r :: r in PageOf(records, cursor, upto) ==> r in After(records, cursor, upto);
  }

  /** The record builds a job that is not in the queues yet. */
  predicate BuildsNewJob(r: Record, account: string, queued: seq<Job>) {
    BuildJob(r, account).Some? && BuildJob(r, account).value !in queued
  }

  /** No record that builds a new job lies, by token, at or before the end of a window processed
      before its own. */
  ghost predicate NoJobOvertaken(queued: seq<Job>, account: string, windows: seq<seq<Record>>) {
    forall k, m, r :: 0 <= k < m < |windows| && windows[k] != [] && r in windows[m] && BuildsNewJob(r, account, queued) ==>
      EndOf(windows[k]) < r.token
  }

  lemma SkipIsUnsafe(s: State, history: History, account: string, o: Outcome, r: Record)
    requires account in s.cursors && r in RecordsOf(history, account) && s.cursors[account] < r.token
    requires var t := PollAccount(s, history, account, o).0;
             account in t.cursors && r.token <= t.cursors[account] && !Handled(t.queued, r, account)
    ensures !TurnSafe(s, history, account, o)
  {
  }

  /** A record of a later window has no job after the earlier ones. */
  lemma NotHandledYet(windows: seq<seq<Record>>, page: seq<Record>, f: nat, m: nat, r: Record, account: string,
                      before: seq<Job>, queued: seq<Job>)
    requires CutOf(windows, page) && f <= m < |windows| && r in windows[m] && BuildsNewJob(r, account, before)
    requires forall j :: j in queued ==> QueuedBefore(j, before, windows, f)
    ensures !Handled(queued, r, account)
  {
    var j := BuildJob(r, account).value;
    assert !QueuedBefore(j, before, windows, f);
  }

  lemma TurnStopsAt(s: State, history: History, account: string, upto: int, f: nat) returns (t: State)
    requires account in s.tracked && account in s.cursors
    requires var windows := Windows(PageOf(RecordsOf(history, account), s.cursors[account], upto));
             f < |windows| && NoneEmpty(windows)
    ensures t == PollAccount(s, history, account, Answer(upto, f, EnqueueFails({}))).0
    ensures RefusedAt(s, t, account, Windows(PageOf(RecordsOf(history, account), s.cursors[account], upto)), f)
  {
    t := PollAccount(s, history, account, Answer(upto, f, EnqueueFails({}))).0;
    StoppedAt(s, account, s.cursors[account], Windows(PageOf(RecordsOf(history, account), s.cursors[account], upto)), 0, f, Answer(upto, f, EnqueueFails({})));
  }

  /** With the queues down right after a window that ends at or beyond a record of a later one, the
      record is passed without its job. */
  lemma OutOfOrderSkips(s: State, history: History, account: string, upto: int, k: nat, m: nat, r: Record)
    requires AscendingHistory(history) && account in s.tracked && account in s.cursors
    requires var windows := Windows(PageOf(RecordsOf(history, account), s.cursors[account], upto));
             && k < m < |windows| && windows[k] != [] && r in windows[m] && BuildsNewJob(r, account, s.queued)
             && r.token <= EndOf(windows[k])
    ensures !TurnSafe(s, history, account, Answer(upto, k + 1, EnqueueFails({})))
  {
    var records, cursor := RecordsOf(history, account), s.cursors[account];
    var page := PageOf(records, cursor, upto);
    PageMembers(records, cursor, upto);
    WindowsOfPage(page);
    var t := TurnStopsAt(s, history, account, upto, k + 1);
    NotHandledYet(Windows(page), page, k + 1, m, r, account, s.queued, t.queued);
    SkipIsUnsafe(s, history, account, Answer(upto, k + 1, EnqueueFails({})), r);
  }

  /** Every record of the account up to one of the page, from the cursor on, is on the page. */
  lemma OnThePage(records: seq<Record>, cursor: int, upto: int, x: Record, r: Record)
    requires AscendingTokens(records) && x in PageOf(records, cursor, upto)
    requires r in records && cursor < r.token <= x.token
    ensures r in PageOf(records, cursor, upto)
  {
    var to := PageIsStretch(records, cursor, upto);
    AfterMembers(records, cursor, to);
  }

  /** A stopped turn has passed nothing new, when no new job is overtaken. */
  lemma StopHandles(s: State, t: State, account: string, windows: seq<seq<Record>>, f: nat, m: nat, r: Record)
    requires account in s.cursors && NoneEmpty(windows)
    requires StopsAt(s, t, account, windows, f) && NoJobOvertaken(s.queued, account, windows)
    requires m < |windows| && r in windows[m] && s.cursors[account] < r.token <= t.cursors[account]
    ensures Handled(t.queued, r, account)
  {
    if m >= f {
      assert f > 0 && windows[f - 1] != [];
      assert !BuildsNewJob(r, account, s.queued);
    }
  }

  lemma InSomeWindow(page: seq<Record>, r: Record) returns (m: nat)
    requires AscendingTokens(page) && r in page
    ensures m < |Windows(page)| && r in Windows(page)[m]
  {
    GroupSortsPage(page);
    m := GroupOf(Group(page), page, r);
    WindowIsGroup(page, m);
  }

  /** The last record a stopped turn went over is on the page. */
  lemma StopOnPage(s: State, t: State, account: string, windows: seq<seq<Record>>, page: seq<Record>, f: nat) returns (x: Record)
    requires account in s.cursors && CutOf(windows, page) && StopsAt(s, t, account, windows, f) && f > 0
    ensures x in page && x.token == t.cursors[account]
  {
    x := windows[f - 1][|windows[f - 1]| - 1];
    assert x in windows[f - 1];
  }

  lemma NotOvertakenSafe(s: State, history: History, account: string, upto: int, i: nat, fault: WindowFault)
    requires AscendingHistory(history) && account in s.tracked && account in s.cursors && account in s.starts
    requires NoJobOvertaken(s.queued, account, Windows(PageOf(RecordsOf(history, account), s.cursors[account], upto)))
    ensures TurnSafe(s, history, account, Answer(upto, i, fault))
  {
    var records, cursor, o := RecordsOf(history, account), s.cursors[account], Answer(upto, i, fault);
    var page := PageOf(records, cursor, upto);
    PageMembers(records, cursor, upto);
    WindowsOfPage(page);
    var f := StopsSomewhere(s, account, cursor, Windows(page), 0, o);
    var t := PollAccount(s, history, account, o).0;
    forall r | r in records && cursor < r.token <= t.cursors[account] ensures Handled(t.queued, r, account) {
      var x := StopOnPage(s, t, account, Windows(page), page, f);
      OnThePage(records, cursor, upto, x, r);
      var m := InSomeWindow(page, r);
      StopHandles(s, t, account, Windows(page), f, m, r);
    }
  }

  lemma OvertakenUnsafe(s: State, history: History, account: string, upto: int) returns (i: nat, fault: WindowFault)
    requires AscendingHistory(history) && account in s.tracked && account in s.cursors
    requires !NoJobOvertaken(s.queued, account, Windows(PageOf(RecordsOf(history, account), s.cursors[account], upto)))
    ensures !TurnSafe(s, history, account, Answer(upto, i, fault))
  {
    var windows := Windows(PageOf(RecordsOf(history, account), s.cursors[account], upto));
    var k: nat, m: nat, r: Record :| 0 <= k < m < |windows| && windows[k] != [] && r in windows[m] && BuildsNewJob(r, account, s.queued)
                   && r.token <= EndOf(windows[k]);
    i, fault := k + 1, EnqueueFails({});
    OutOfOrderSkips(s, history, account, upto, k, m, r);
  }

  /** No fault, at whatever window, makes a turn pass a record without its job if and only if no
      record that builds a new job lies at or before the end of a window processed before its own. */
  lemma TurnsSafeIff(s: State, history: History, account: string, upto: int)
    requires AscendingHistory(history) && account in s.tracked && account in s.cursors && account in s.starts
    ensures NoJobOvertaken(s.queued, account, Windows(PageOf(RecordsOf(history, account), s.cursors[account], upto)))
            <==> forall i: nat, fault: WindowFault :: TurnSafe(s, history, account, Answer(upto, i, fault))
  {
    if NoJobOvertaken(s.queued, account, Windows(PageOf(RecordsOf(history, account), s.cursors[account], upto))) {
      forall i: nat, fault: WindowFault ensures TurnSafe(s, history, account, Answer(upto, i, fault)) {
        NotOvertakenSafe(s, history, account, upto, i, fault);
      }
    } else {
      var i, fault := OvertakenUnsafe(s, history, account, upto);
    }
  }

  /** Where every record builds a new job, none is overtaken only if the windows are in token order. */
  lemma NewJobsInOrder(queued: seq<Job>, account: string, page: seq<Record>)
    requires AscendingTokens(page) && NoJobOvertaken(queued, account, Windows(page))
    requires forall r :: r in page ==> BuildsNewJob(r, account, queued)
    ensures InTokenOrder(Windows(page))
  {
    var windows := Windows(page);
    WindowsOfPage(page);
    forall i: nat | i + 1 < |windows| ensures InOrderAt(windows, i) {
      assert windows[i] != [] && windows[i + 1][0] in windows[i + 1];
    }
  }

  /** For a page of records that all build jobs not yet queued: no fault, at whatever window, makes
      the turn pass a record without its job if and only if the page keeps each ledger's records
      together. */
  lemma TurnsSafeIffContiguous(s: State, history: History, account: string, upto: int)
    requires Inv(s, history) && AscendingHistory(history) && account in s.tracked
    requires forall r :: r in PageOf(RecordsOf(history, account), s.cursors[account], upto) ==>
               BuildsNewJob(r, account, s.queued)
    ensures Contiguous(PageOf(RecordsOf(history, account), s.cursors[account], upto))
            <==> forall i: nat, fault: WindowFault :: TurnSafe(s, history, account, Answer(upto, i, fault))
  {
    var records, cursor := RecordsOf(history, account), s.cursors[account];
    if Contiguous(PageOf(records, cursor, upto)) {
      forall i: nat, fault: WindowFault ensures TurnSafe(s, history, account, Answer(upto, i, fault)) {
        ContiguousTurnSafe(s, history, account, Answer(upto, i, fault));
      }
    } else {
      TurnsSafeIff(s, history, account, upto);
      if NoJobOvertaken(s.queued, account, Windows(PageOf(records, cursor, upto))) {
        PageMembers(records, cursor, upto);
        NewJobsInOrder(s.queued, account, PageOf(records, cursor, upto));
        TokenOrderIsContiguous(PageOf(records, cursor, upto));
      }
    }
  }

  // ----- catching up -------------------------------------------------------------

  /** How many visible records lie beyond the account's cursor. */
  ghost function Left(s: State, history: History, a: string, upto: int): nat
    requires a in s.cursors
  {
    |After(RecordsOf(history, a), s.cursors[a], upto)|
  }

  ghost function LessOnePage(n: nat): nat {
    if n <= PAGE_LIMIT then 0 else n - PAGE_LIMIT
  }

  lemma LeftShrinks(records: seq<Record>, c: int, c': int, upto: int)
    requires AscendingTokens(records) && c <= c'
    ensures |After(records, c', upto)| <= |After(records, c, upto)|
  {
    if c' <= upto {
      AfterSplits(records, c, c', upto);
    } else if After(records, c', upto) != [] {
      AfterBounds(records, c', upto, 0);
    }
  }

  lemma PageLeaves(records: seq<Record>, c: int, upto: int)
    requires AscendingTokens(records) && PageOf(records, c, upto) != []
    ensures var page := PageOf(records, c, upto);
            |After(records, page[|page| - 1].token, upto)| == LessOnePage(|After(records, c, upto)|)
  {
    AfterCut(records, c, upto, |PageOf(records, c, upto)|);
  }

  lemma GoodTurnTakesPage(s: State, history: History, a: string, upto: int)
    requires Inv(s, history) && OrderedHistory(history) && a in s.tracked
    ensures var t := PollAccount(s, history, a, Answer(upto, 0, NoFault)).0;
            a in t.cursors && Left(t, history, a, upto) == LessOnePage(Left(s, history, a, upto))
  {
    FaultlessPollTakesPage(s, history, a, upto);
    if PageOf(RecordsOf(history, a), s.cursors[a], upto) != [] {
      PageLeaves(RecordsOf(history, a), s.cursors[a], upto);
    }
  }

  lemma OwnTurn(s: State, t: State, history: History, a: string, upto: int)
    requires Inv(t, history) && OrderedHistory(history) && a in t.tracked
    requires a in s.cursors && s.cursors[a] <= t.cursors[a]
    ensures var u := PollAccount(t, history, a, Answer(upto, 0, NoFault)).0;
            a in u.cursors && Left(u, history, a, upto) <= LessOnePage(Left(s, history, a, upto))
  {
    LeftShrinks(RecordsOf(history, a), s.cursors[a], t.cursors[a], upto);
    GoodTurnTakesPage(t, history, a, upto);
  }

  lemma OtherTurn(t: State, history: History, b: string, o: Outcome, a: string, upto: int)
    requires Inv(t, history) && OrderedHistory(history) && a in t.tracked && b in t.tracked
    ensures var u := PollAccount(t, history, b, o).0;
            a in u.cursors && Left(u, history, a, upto) <= Left(t, history, a, upto)
  {
    PollAccountKeepsInv(t, history, b, o);
    LeftShrinks(RecordsOf(history, a), t.cursors[a], PollAccount(t, history, b, o).0.cursors[a], upto);
  }

  /** The last account's turn of a poll. */
  lemma UnfoldPoll(s: State, history: History, accounts: seq<string>, outcomes: map<string, Outcome>) returns (t: State)
    requires Inv(s, history) && OrderedHistory(history) && forall b :: b in accounts ==> b in s.tracked
    requires accounts != []
    ensures var last := accounts[|accounts| - 1];
            && t == PollAll(s, history, accounts[..|accounts| - 1], outcomes).0
            && Inv(t, history) && Advances(s, t) && last in t.tracked
            && PollAll(s, history, accounts, outcomes).0 == PollAccount(t, history, last, OutcomeFor(outcomes, last)).0
  {
    t := PollAll(s, history, accounts[..|accounts| - 1], outcomes).0;
    PollAllKeepsInv(s, history, accounts[..|accounts| - 1], outcomes);
    assert accounts[|accounts| - 1] in accounts;
  }

  /** Whatever happens to the other accounts, a poll that answers this one takes a page off it. */
  lemma {:induction false} PollTakesPage(s: State, history: History, accounts: seq<string>, outcomes: map<string, Outcome>,
                                         a: string, upto: int)
    requires Inv(s, history) && OrderedHistory(history) && forall b :: b in accounts ==> b in s.tracked
    requires a in accounts && OutcomeFor(outcomes, a) == Answer(upto, 0, NoFault)
    ensures var t := PollAll(s, history, accounts, outcomes).0;
            a in t.cursors && Left(t, history, a, upto) <= LessOnePage(Left(s, history, a, upto))
  {
    var before, last := accounts[..|accounts| - 1], accounts[|accounts| - 1];
    var t := UnfoldPoll(s, history, accounts, outcomes);
    if last == a {
      OwnTurn(s, t, history, a, upto);
    } else {
      assert accounts == before + [last];
      PollTakesPage(s, history, before, outcomes, a, upto);
      OtherTurn(t, history, last, OutcomeFor(outcomes, last), a, upto);
    }
  }

  /** Each poll is attempted, and answers this account up to the same record without a fault. */
  ghost predicate Answers(p: Poller, history: History, polls: seq<Poll>, a: string, upto: int) {
    forall i :: 0 <= i < |polls| ==>
      && polls[i].now >= RunPolls(p, history, polls[..i]).nextAttemptAt
      && OutcomeFor(polls[i].outcomes, a) == Answer(upto, 0, NoFault)
  }

  lemma AnswersPrefix(p: Poller, history: History, polls: seq<Poll>, a: string, upto: int)
    requires polls != [] && Answers(p, history, polls, a, upto)
    ensures Answers(p, history, polls[..|polls| - 1], a, upto)
  {
    assert forall i :: 0 <= i < |polls| - 1 ==> polls[..|polls| - 1][i] == polls[i] && polls[..|polls| - 1][..i] == polls[..i];
  }

  lemma AttemptTakesPage(p: Poller, history: History, poll: Poll, a: string, upto: int)
    requires Inv(p.core, history) && OrderedHistory(history) && a in p.core.tracked
    requires poll.now >= p.nextAttemptAt && OutcomeFor(poll.outcomes, a) == Answer(upto, 0, NoFault)
    ensures var q := PollOnce(p, history, poll);
            a in q.core.cursors && Left(q.core, history, a, upto) <= LessOnePage(Left(p.core, history, a, upto))
  {
    PollTakesPage(p.core, history, p.core.tracked, poll.outcomes, a, upto);
  }

  ghost function LessPages(n: nat, k: nat): nat {
    if n <= k * PAGE_LIMIT then 0 else n - k * PAGE_LIMIT
  }

  lemma {:induction false} PollsTakePages(p: Poller, history: History, polls: seq<Poll>, a: string, upto: int)
    requires Inv(p.core, history) && OrderedHistory(history) && a in p.core.tracked && Answers(p, history, polls, a, upto)
    ensures var q := RunPolls(p, history, polls);
            a in q.core.cursors && Left(q.core, history, a, upto) <= LessPages(Left(p.core, history, a, upto), |polls|)
  {
    if polls != [] {
      var n := |polls| - 1;
      var before := RunPolls(p, history, polls[..n]);
      AnswersPrefix(p, history, polls, a, upto);
      PollsTakePages(p, history, polls[..n], a, upto);
      RunKeepsInv(p, history, polls[..n]);
      AttemptTakesPage(before, history, polls[n], a, upto);
    }
  }

  /** As many good polls as the records fill pages, rounded up, leave none behind: every record the
      account had to show is passed, and queued or rejected by the builder. Other accounts may fail
      all the while. */
  lemma NothingLeftBehind(p: Poller, history: History, polls: seq<Poll>, a: string, upto: int)
    requires Inv(p.core, history) && OrderedHistory(history) && a in p.core.tracked && Answers(p, history, polls, a, upto)
    requires |polls| >= (Left(p.core, history, a, upto) + 49) / 50
    ensures var q := RunPolls(p, history, polls).core;
            && a in q.cursors && After(RecordsOf(history, a), q.cursors[a], upto) == []
            && forall r :: r in RecordsOf(history, a) && p.core.starts[a] < r.token <= upto ==>
                 r.token <= q.cursors[a] && Handled(q.queued, r, a) && AnnouncedTracked(q.tracked, r)
  {
    var q := RunPolls(p, history, polls).core;
    var records := RecordsOf(history, a);
    PollsTakePages(p, history, polls, a, upto);
    RunKeepsInv(p, history, polls);
    AfterMembers(records, q.cursors[a], upto);
    forall r | r in records && p.core.starts[a] < r.token <= upto
      ensures r.token <= q.cursors[a] && Handled(q.queued, r, a) && AnnouncedTracked(q.tracked, r)
    {
      assert r !in After(records, q.cursors[a], upto);
      assert Covered(q, history, a);
    }
  }
}
