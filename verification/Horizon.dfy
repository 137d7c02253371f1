/** The Horizon poller of apps/api/src/horizon/horizon.service.ts: pages of effects per account,
    enqueued one ledger window at a time, with a paging cursor that moves only after a window is in
    the queues. Timeouts, failing broadcasts and failing queues are part of the environment. */
module Horizon {
  import opened OrderedMap
  import opened Wrappers

  const PAGE_LIMIT := 50

  datatype Kind = PoolCreated | SwapProcessed | PositionMinted | PositionBurned | FeesCollected | OtherEvent

  const ALL_KINDS := {PoolCreated, SwapProcessed, PositionMinted, PositionBurned, FeesCollected, OtherEvent}

  /** An effect record; a missing text field is the empty string. */
  datatype Record = Record(token: int, ledger: Option<int>, kind: Kind, eventId: Option<string>, poolId: Option<string>,
                           tokenA: string, tokenB: string, sender: string, recipient: string, owner: string,
                           tokenId: string)

  /** A job's name: the event id, or the paging token in its place. */
  datatype JobName = EventId(id: string) | PagingToken(token: int)

  datatype Job = Job(account: string, kind: Kind, name: JobName, poolId: string, source: Record)

  // ----- the job builder ---------------------------------------------------------

  /** The payload has the fields its queue needs. */
  predicate Complete(r: Record) {
    match r.kind
    case PoolCreated => r.tokenA != "" && r.tokenB != ""
    case SwapProcessed => r.sender != "" && r.recipient != ""
    case PositionMinted => r.owner != "" && r.tokenId != ""
    case PositionBurned => r.owner != "" && r.tokenId != ""
    case FeesCollected => r.recipient != ""
    case OtherEvent => false
  }

  function BuildJob(r: Record, account: string): Option<Job> {
    if !Complete(r) then None
    else Some(Job(account, r.kind, if r.eventId.Some? then EventId(r.eventId.value) else PagingToken(r.token),
                  if r.poolId.Some? then r.poolId.value else account, r))
  }

  /** The jobs of a window for the given queues, in record order. */
  function BuildJobs(records: seq<Record>, account: string, kinds: set<Kind>): seq<Job> {
    if records == [] then []
    else
      var job := BuildJob(records[|records| - 1], account);
      BuildJobs(records[..|records| - 1], account, kinds)
      + (if job.Some? && job.value.kind in kinds then [job.value] else [])
  }

  // ----- which records get a job, and which job ----------------------------------

  /** A record carries what the queue of its kind asks for: a created pool its two tokens, a swap its
      two parties, a position its owner and token, collected fees their recipient. */
  ghost predicate HasFields(r: Record) {
    && (r.kind == PoolCreated ==> r.tokenA != "" && r.tokenB != "")
    && (r.kind == SwapProcessed ==> r.sender != "" && r.recipient != "")
    && (r.kind == PositionMinted || r.kind == PositionBurned ==> r.owner != "" && r.tokenId != "")
    && (r.kind == FeesCollected ==> r.recipient != "")
    && r.kind != OtherEvent
  }

  /** The job of a record that was read from an account: named by the event id or else the paging
      token, for the record's pool or else the account. */
  ghost predicate IsJobOf(j: Job, r: Record, account: string) {
    && j.account == account && j.source == r && j.kind == r.kind
    && (r.eventId.Some? ==> j.name == EventId(r.eventId.value)) && (r.eventId.None? ==> j.name == PagingToken(r.token))
    && (r.poolId.Some? ==> j.poolId == r.poolId.value) && (r.poolId.None? ==> j.poolId == account)
  }

  lemma BuiltIff(r: Record, account: string)
    ensures BuildJob(r, account).Some? <==> HasFields(r)
    ensures forall j :: BuildJob(r, account) == Some(j) <==> HasFields(r) && IsJobOf(j, r, account)
  {
  }

  /** `jobs` are what a window owes the queues that accept these kinds: in record order, `at` giving
      the places, one job for each record of an accepted kind that has its fields, and no other. */
  ghost predicate OwedJobs(window: seq<Record>, account: string, accepted: set<Kind>, jobs: seq<Job>, at: seq<nat>) {
    && |at| == |jobs|
    && (forall i :: 0 <= i < |at| ==> at[i] < |window| && IsJobOf(jobs[i], window[at[i]], account))
    && (forall i, k :: 0 <= i < k < |at| ==> at[i] < at[k])
    && (forall k :: 0 <= k < |window| ==> (k in at <==> HasFields(window[k]) && window[k].kind in accepted))
  }

  lemma OwedSnoc(window: seq<Record>, last: Record, account: string, accepted: set<Kind>, jobs: seq<Job>, at: seq<nat>, j: Job)
    requires OwedJobs(window, account, accepted, jobs, at)
    requires HasFields(last) && last.kind in accepted && IsJobOf(j, last, account)
    ensures OwedJobs(window + [last], account, accepted, jobs + [j], at + [|window|])
  {
    assert forall i :: i in at ==> i < |window|;
    assert forall i :: i in at + [|window|] <==> i in at || i == |window|;
  }

  lemma OwedSkip(window: seq<Record>, last: Record, account: string, accepted: set<Kind>, jobs: seq<Job>, at: seq<nat>)
    requires OwedJobs(window, account, accepted, jobs, at)
    requires !(HasFields(last) && last.kind in accepted)
    ensures OwedJobs(window + [last], account, accepted, jobs, at)
  {
    assert forall i :: i in at ==> i < |window|;
  }

  /** The jobs built for a window are the ones it owes. */
  lemma {:induction false} WindowOwes(window: seq<Record>, account: string, accepted: set<Kind>) returns (at: seq<nat>)
    ensures OwedJobs(window, account, accepted, BuildJobs(window, account, accepted), at)
  {
    at := [];
    if window != [] {
      var before, last := window[..|window| - 1], window[|window| - 1];
      at := WindowOwes(before, account, accepted);
      BuiltIff(last, account);
      assert window == before + [last];
      var job := BuildJob(last, account);
      if job.Some? && last.kind in accepted {
        OwedSnoc(before, last, account, accepted, BuildJobs(before, account, accepted), at, job.value);
        at := at + [|before|];
      } else {
        OwedSkip(before, last, account, accepted, BuildJobs(before, account, accepted), at);
      }
    }
  }

  // ----- state -------------------------------------------------------------------

  /** `starts` and `origins` are history variables: the cursor each account began with, and the
      paging token of the record a pool was discovered by. */
  datatype State = State(tracked: seq<string>, cursors: map<string, int>, queued: seq<Job>,
                         starts: map<string, int>, origins: map<string, int>)

  datatype WindowFault = NoFault | PublishFails(at: nat) | EnqueueFails(accepted: set<Kind>)

  /** How polling one account goes: no page, or the records visible up to a token, with possibly a
      fault in one of its windows. */
  datatype Outcome = Timeout | Answer(upto: int, faultyWindow: nat, fault: WindowFault)

  type History = map<string, seq<Record>>

  function RecordsOf(history: History, account: string): seq<Record> {
    if account in history then history[account] else []
  }

  /** Effects after the cursor that Horizon can already see. */
  function After(records: seq<Record>, cursor: int, upto: int): seq<Record> {
    if records == [] then []
    else
      var last := records[|records| - 1];
      After(records[..|records| - 1], cursor, upto) + (if cursor < last.token <= upto then [last] else [])
  }

  function PageOf(records: seq<Record>, cursor: int, upto: int): seq<Record> {
    var found := After(records, cursor, upto);
    if |found| <= PAGE_LIMIT then found else found[..PAGE_LIMIT]
  }

  // ----- grouping by ledger ------------------------------------------------------

  /** `byLedger.get(key).push(record)`, with a new list for a new ledger. */
  function AddToGroup(groups: seq<Entry<Option<int>, seq<Record>>>, r: Record): seq<Entry<Option<int>, seq<Record>>> {
    var existing := Get(groups, r.ledger);
    Set(groups, r.ledger, (if existing.Some? then existing.value else []) + [r])
  }

  function Group(page: seq<Record>): seq<Entry<Option<int>, seq<Record>>> {
    if page == [] then [] else AddToGroup(Group(page[..|page| - 1]), page[|page| - 1])
  }

  function Values(groups: seq<Entry<Option<int>, seq<Record>>>): seq<seq<Record>> {
    seq(|groups|, i requires 0 <= i < |groups| => groups[i].value)
  }

  function Windows(page: seq<Record>): seq<seq<Record>> {
    Values(Group(page))
  }

  ghost predicate NoneEmpty(windows: seq<seq<Record>>) {
    forall k :: 0 <= k < |windows| ==> windows[k] != []
  }

  // ----- one window, one account, one poll ---------------------------------------

  /** A new account, watched from a cursor before the record that announced it. */
  function Added(s: State, p: string, cursor: int, origin: int): State {
    s.(tracked := s.tracked + [p], cursors := s.cursors[p := cursor],
       starts := s.starts[p := cursor], origins := s.origins[p := origin])
  }

  function Discover(s: State, r: Record, cursor: int): State {
    if r.kind == PoolCreated && r.poolId.Some? && r.poolId.value != "" && r.poolId.value !in s.tracked
    then
      Added(s, r.poolId.value, cursor, r.token)
    else s
  }

  function DiscoverAll(s: State, records: seq<Record>, cursor: int): State {
    if records == [] then s
    else Discover(DiscoverAll(s, records[..|records| - 1], cursor), records[|records| - 1], cursor)
  }

  function Min(a: int, b: int): int {
    if b < a then b else a
  }

  function Enqueue(s: State, account: string, window: seq<Record>, kinds: set<Kind>): State {
    s.(queued := s.queued + BuildJobs(window, account, kinds))
  }

  function MoveCursor(s: State, account: string, window: seq<Record>): State {
    if window == [] then s else s.(cursors := s.cursors[account := window[|window| - 1].token])
  }

  /** One ledger window: broadcasts and discovery, then the queues, then the cursor. */
  function ProcessWindow(s: State, account: string, cursor: int, window: seq<Record>, fault: WindowFault): (State, bool) {
    if fault.PublishFails? && fault.at < |window| then (DiscoverAll(s, window[..fault.at], cursor), false)
    else if fault.EnqueueFails? then (Enqueue(DiscoverAll(s, window, cursor), account, window, fault.accepted), false)
    else (MoveCursor(Enqueue(DiscoverAll(s, window, cursor), account, window, ALL_KINDS), account, window), true)
  }

  function FaultAt(o: Outcome, i: nat): WindowFault {
    if o.Answer? && o.faultyWindow == i then o.fault else NoFault
  }

  /** Windows from the `i`-th on; the first failing one ends the account's turn. */
  function ProcessWindows(s: State, account: string, cursor: int, windows: seq<seq<Record>>, i: nat, o: Outcome): (State, bool)
    decreases |windows|
  {
    if windows == [] then (s, true)
    else
      var (s', ok) := ProcessWindow(s, account, cursor, windows[0], FaultAt(o, i));
      if !ok then (s', false) else ProcessWindows(s', account, cursor, windows[1..], i + 1, o)
  }

  function PollAccount(s: State, history: History, account: string, o: Outcome): (State, bool)
    requires account in s.cursors
  {
    if o.Timeout? then (s, false)
    else
      var cursor := s.cursors[account];
      ProcessWindows(s, account, cursor, Windows(PageOf(RecordsOf(history, account), cursor, o.upto)), 0, o)
  }

  function OutcomeFor(outcomes: map<string, Outcome>, account: string): Outcome {
    if account in outcomes then outcomes[account] else Timeout
  }

  /** One turn over a snapshot of the tracked accounts; a failing account does not stop the others. */
  function PollAll(s: State, history: History, accounts: seq<string>, outcomes: map<string, Outcome>): (State, bool) {
    if accounts == [] then (s, false)
    else
      var last := accounts[|accounts| - 1];
      var (t, failed) := PollAll(s, history, accounts[..|accounts| - 1], outcomes);
      if last !in t.cursors then (t, failed)
      else
        var (u, ok) := PollAccount(t, history, last, OutcomeFor(outcomes, last));
        (u, failed || !ok)
  }

  lemma PollOneMore(s: State, history: History, accounts: seq<string>, i: nat, outcomes: map<string, Outcome>)
    requires i < |accounts|
    ensures var (t, failed) := PollAll(s, history, accounts[..i], outcomes);
            PollAll(s, history, accounts[..i + 1], outcomes)
            == if accounts[i] !in t.cursors then (t, failed)
               else var (u, ok) := PollAccount(t, history, accounts[i], OutcomeFor(outcomes, accounts[i])); (u, failed || !ok)
  {
    assert accounts[..i + 1][..i] == accounts[..i];
  }

  /** The service between polls: accounts and cursors, and the backoff after failing polls. */
  datatype Poller = Poller(core: State, consecutiveFailures: nat, nextAttemptAt: int)

  /** `1000 * 2 ** (failures - 1)`, at most 30 seconds. */
  function Backoff(failures: nat): int {
    if failures <= 1 then 1_000 else Min(30_000, 2 * Backoff(failures - 1))
  }

  /** A poll begun at `now` and over at `later`. */
  datatype Poll = Poll(now: int, later: int, outcomes: map<string, Outcome>)

  function PollOnce(p: Poller, history: History, poll: Poll): Poller {
    if poll.now < p.nextAttemptAt then p
    else
      var (s, failed) := PollAll(p.core, history, p.core.tracked, poll.outcomes);
      if failed then Poller(s, p.consecutiveFailures + 1, poll.later + Backoff(p.consecutiveFailures + 1))
      else Poller(s, 0, 0)
  }

  function RunPolls(p: Poller, history: History, polls: seq<Poll>): Poller {
    if polls == [] then p else PollOnce(RunPolls(p, history, polls[..|polls| - 1]), history, polls[|polls| - 1])
  }

  /** The service as it starts: some accounts, all at one numeric cursor. */
  function StartAt(accounts: seq<string>, cursor: int): Poller {
    var cursors := map a | a in accounts :: cursor;
    Poller(State(accounts, cursors, [], cursors, map[]), 0, 0)
  }

  method GroupByLedger(page: seq<Record>) returns (byLedger: seq<Entry<Option<int>, seq<Record>>>)
    ensures byLedger == Group(page)
  {
    byLedger := [];
    for i := 0 to |page|
      invariant byLedger == Group(page[..i])
    {
      assert page[..i + 1][..i] == page[..i];
      byLedger := AddToGroup(byLedger, page[i]);
    }
    assert page[..|page|] == page;
  }

  class HorizonService {
    var trackedAccounts: seq<string>
    var cursors: map<string, int>
    var queued: seq<Job>
    ghost var starts: map<string, int>
    ghost var origins: map<string, int>
    var consecutiveFailures: nat
    var nextAttemptAt: int

    ghost function View(): State
      reads this
    {
      State(trackedAccounts, cursors, queued, starts, origins)
    }

    ghost function Whole(): Poller
      reads this
    {
      Poller(View(), consecutiveFailures, nextAttemptAt)
    }

    method DoPoll(history: History, poll: Poll)
      modifies this
      ensures Whole() == PollOnce(old(Whole()), history, poll)
    {
      if poll.now < nextAttemptAt { return; }
      var accounts, anyFailure := trackedAccounts, false;
      for i := 0 to |accounts|
        invariant (View(), anyFailure) == PollAll(old(View()), history, accounts[..i], poll.outcomes)
        invariant consecutiveFailures == old(consecutiveFailures)
      {
        PollOneMore(old(View()), history, accounts, i, poll.outcomes);
        if accounts[i] in cursors {
          var ok := DoPollAccount(history, accounts[i], OutcomeFor(poll.outcomes, accounts[i]));
          anyFailure := anyFailure || !ok;
        }
      }
      assert accounts[..|accounts|] == accounts;
      if anyFailure {
        consecutiveFailures := consecutiveFailures + 1;
        nextAttemptAt := poll.later + Backoff(consecutiveFailures);
      } else {
        consecutiveFailures, nextAttemptAt := 0, 0;
      }
    }

    method DoPollAccount(history: History, account: string, o: Outcome) returns (ok: bool)
      requires account in cursors
      modifies this`trackedAccounts, this`cursors, this`queued, this`starts, this`origins
      ensures (View(), ok) == PollAccount(old(View()), history, account, o)
    {
      if o.Timeout? { return false; }
      var cursor := cursors[account];
      var byLedger := GroupByLedger(PageOf(RecordsOf(history, account), cursor, o.upto));
      ghost var windows := Values(byLedger);
      for i := 0 to |byLedger|
        invariant ProcessWindows(View(), account, cursor, windows[i..], i, o)
               == ProcessWindows(old(View()), account, cursor, windows, 0, o)
      {
        assert windows[i..][0] == byLedger[i].value && windows[i..][1..] == windows[i + 1..];
        ok := DoWindow(account, cursor, byLedger[i].value, FaultAt(o, i));
        if !ok { return; }
      }
      return true;
    }

    method DoWindow(account: string, cursor: int, window: seq<Record>, fault: WindowFault) returns (ok: bool)
      modifies this`trackedAccounts, this`cursors, this`queued, this`starts, this`origins
      ensures (View(), ok) == ProcessWindow(old(View()), account, cursor, window, fault)
    {
      var upto := if fault.PublishFails? && fault.at < |window| then fault.at else |window|;
      for i := 0 to upto
        invariant View() == DiscoverAll(old(View()), window[..i], cursor)
      {
        assert window[..i + 1][..i] == window[..i];
        DoDiscover(window[i], cursor);
      }
      assert window[..|window|] == window;
      if upto < |window| { return false; }
      BatchEnqueueLedgerWindow(window, account, if fault.EnqueueFails? then fault.accepted else ALL_KINDS);
      if fault.EnqueueFails? { return false; }
      MoveCursorOver(account, window);
      return true;
    }

    method MoveCursorOver(account: string, window: seq<Record>)
      modifies this`cursors
      ensures View() == MoveCursor(old(View()), account, window)
    {
      for i := 0 to |window|
        invariant View() == MoveCursor(old(View()), account, window[..i])
      {
        cursors := cursors[account := window[i].token];
      }
      assert window[..|window|] == window;
    }

    method DoDiscover(r: Record, cursor: int)
      modifies this`trackedAccounts, this`cursors, this`starts, this`origins
      ensures View() == Discover(old(View()), r, cursor)
    {
      if r.kind == PoolCreated && r.poolId.Some? && r.poolId.value != "" && r.poolId.value !in trackedAccounts {
        trackedAccounts := trackedAccounts + [r.poolId.value];
        cursors := cursors[r.poolId.value := cursor];
        starts := starts[r.poolId.value := cursor];
        origins := origins[r.poolId.value := r.token];
      }
    }

    method BatchEnqueueLedgerWindow(records: seq<Record>, account: string, accepted: set<Kind>)
      modifies this`queued
      ensures View() == Enqueue(old(View()), account, records, accepted)
      ensures |old(queued)| <= |queued| && queued[..|old(queued)|] == old(queued)
      ensures exists at :: OwedJobs(records, account, accepted, queued[|old(queued)|..], at)
    {
      ghost var at := WindowOwes(records, account, accepted);
      var jobs: seq<Job> := [];
      for i := 0 to |records|
        invariant jobs == BuildJobs(records[..i], account, accepted)
      {
        assert records[..i + 1][..i] == records[..i];
        var job := BuildJob(records[i], account);
        if job.Some? && job.value.kind in accepted {
          jobs := jobs + [job.value];
        }
      }
      assert records[..|records|] == records;
      queued := queued + jobs;
      assert queued[|old(queued)|..] == jobs;
    }
  }

  // ----- grouping keeps page order -----------------------------------------------

  function Flatten(windows: seq<seq<Record>>): seq<Record> {
    if windows == [] then [] else Flatten(windows[..|windows| - 1]) + windows[|windows| - 1]
  }

  /** Records of one ledger stand together, as they do when ledgers come in page order. */
  ghost predicate Contiguous(page: seq<Record>) {
    forall i, j, k :: 0 <= i < j < k < |page| && page[i].ledger == page[k].ledger ==> page[j].ledger == page[i].ledger
  }

  ghost predicate LedgersInPageOrder(page: seq<Record>) {
    && (forall i :: 0 <= i < |page| ==> page[i].ledger.Some?)
    && (forall i, j :: 0 <= i < j < |page| ==> page[i].ledger.value <= page[j].ledger.value)
  }

  lemma PageOrderIsContiguous(page: seq<Record>)
    requires LedgersInPageOrder(page)
    ensures Contiguous(page)
  {
    forall i, j, k | 0 <= i < j < k < |page| && page[i].ledger == page[k].ledger ensures page[j].ledger == page[i].ledger {
      assert page[i].ledger.value <= page[j].ledger.value <= page[k].ledger.value;
    }
  }

  type Groups = seq<Entry<Option<int>, seq<Record>>>

  function Ledgers(page: seq<Record>): set<Option<int>> {
    set r | r in page :: r.ledger
  }

  /** The groups cut the page into non-empty pieces, in page order. */
  ghost predicate CutsPage(groups: Groups, page: seq<Record>) {
    Flatten(Values(groups)) == page && forall i :: 0 <= i < |groups| ==> groups[i].value != []
  }

  /** One group per ledger present, the last one still growing. */
  ghost predicate KeyedByLedger(groups: Groups, page: seq<Record>) {
    && UniqueKeys(groups)
    && (forall i :: 0 <= i < |groups| ==> groups[i].key in Ledgers(page))
    && (page != [] ==> groups != [] && groups[|groups| - 1].key == page[|page| - 1].ledger)
  }

  lemma FlattenSnoc(windows: seq<seq<Record>>, w: seq<Record>)
    ensures Flatten(windows + [w]) == Flatten(windows) + w
  {
    assert (windows + [w])[..|windows|] == windows;
  }

  lemma {:induction false} SetLast(groups: seq<Entry<Option<int>, seq<Record>>>, v: seq<Record>)
    requires groups != [] && UniqueKeys(groups)
    ensures var n := |groups| - 1;
            && Get(groups, groups[n].key) == Some(groups[n].value)
            && Set(groups, groups[n].key, v) == groups[..n] + [Entry(groups[n].key, v)]
  {
    if |groups| > 1 {
      SetLast(groups[1..], v);
      assert groups == [groups[0]] + groups[1..];
    }
  }

  lemma CutsAppend(init: Groups, last: Entry<Option<int>, seq<Record>>, page: seq<Record>, r: Record)
    requires CutsPage(init + [last], page)
    ensures CutsPage(init + [Entry(last.key, last.value + [r])], page + [r])
  {
    var before, after := init + [last], init + [Entry(last.key, last.value + [r])];
    assert Values(before) == Values(init) + [last.value];
    assert Values(after) == Values(init) + [last.value + [r]];
    FlattenSnoc(Values(init), last.value);
    FlattenSnoc(Values(init), last.value + [r]);
    assert forall i :: 0 <= i < |init| ==> before[i] == init[i] && after[i] == init[i];
  }

  lemma LedgersSnoc(before: seq<Record>, last: Record)
    ensures Ledgers(before + [last]) == Ledgers(before) + {last.ledger}
  {
    assert forall r :: r in before + [last] <==> r in before || r == last;
  }

  lemma SameKeys(groups: Groups, groups': Groups, before: seq<Record>, last: Record)
    requires |groups'| == |groups| && forall i :: 0 <= i < |groups| ==> groups'[i].key == groups[i].key
    requires KeyedByLedger(groups, before) && before != [] && before[|before| - 1].ledger == last.ledger
    requires Ledgers(before + [last]) == Ledgers(before) + {last.ledger}
    ensures KeyedByLedger(groups', before + [last])
  {
  }

  lemma GroupSameLedger(groups: Groups, before: seq<Record>, last: Record)
    requires CutsPage(groups, before) && KeyedByLedger(groups, before)
    requires before != [] && before[|before| - 1].ledger == last.ledger
    ensures CutsPage(AddToGroup(groups, last), before + [last])
    ensures KeyedByLedger(AddToGroup(groups, last), before + [last])
  {
    var n := |groups| - 1;
    SetLast(groups, groups[n].value + [last]);
    assert groups == groups[..n] + [groups[n]];
    CutsAppend(groups[..n], groups[n], before, last);
    LedgersSnoc(before, last);
    SameKeys(groups, groups[..n] + [Entry(last.ledger, groups[n].value + [last])], before, last);
  }

  lemma CutsNewWindow(groups: Groups, before: seq<Record>, last: Record)
    requires CutsPage(groups, before)
    ensures CutsPage(groups + [Entry(last.ledger, [last])], before + [last])
  {
    assert Values(groups + [Entry(last.ledger, [last])]) == Values(groups) + [[last]];
    FlattenSnoc(Values(groups), [last]);
  }

  lemma GroupNewLedger(groups: Groups, before: seq<Record>, last: Record)
    requires CutsPage(groups, before) && KeyedByLedger(groups, before) && last.ledger !in Ledgers(before)
    ensures CutsPage(AddToGroup(groups, last), before + [last])
    ensures KeyedByLedger(AddToGroup(groups, last), before + [last])
  {
    forall i | 0 <= i < |groups| ensures groups[i].key != last.ledger {
      assert groups[i].key in Ledgers(before);
    }
    SetAbsent(groups, last.ledger, [last]);
    assert [] + [last] == [last];
    LedgersSnoc(before, last);
    CutsNewWindow(groups, before, last);
  }

  /** In a page with each ledger's records together, a ledger left behind does not come back. */
  lemma NewLedgerIsNew(page: seq<Record>)
    requires Contiguous(page) && |page| >= 2 && page[|page| - 2].ledger != page[|page| - 1].ledger
    ensures page[|page| - 1].ledger !in Ledgers(page[..|page| - 1])
  {
    var n := |page| - 1;
    forall j | 0 <= j < n - 1 ensures page[j].ledger == page[n].ledger ==> page[n - 1].ledger == page[n].ledger {
    }
  }

  lemma GroupStep(groups: Groups, before: seq<Record>, last: Record)
    requires Contiguous(before + [last]) && CutsPage(groups, before) && KeyedByLedger(groups, before)
    ensures CutsPage(AddToGroup(groups, last), before + [last])
    ensures KeyedByLedger(AddToGroup(groups, last), before + [last])
  {
    if before != [] && before[|before| - 1].ledger == last.ledger {
      GroupSameLedger(groups, before, last);
    } else {
      if before != [] {
        NewLedgerIsNew(before + [last]);
        assert (before + [last])[..|before|] == before;
      }
      GroupNewLedger(groups, before, last);
    }
  }

  /** With each ledger's records together, grouping only cuts the page into windows. */
  lemma {:induction false} GroupKeepsOrder(page: seq<Record>)
    requires Contiguous(page)
    ensures CutsPage(Group(page), page) && KeyedByLedger(Group(page), page)
  {
    if page == [] {
      assert Values(Group(page)) == [];
    } else {
      var before, last := page[..|page| - 1], page[|page| - 1];
      GroupKeepsOrder(before);
      assert page == before + [last];
      GroupStep(Group(before), before, last);
    }
  }

  // ----- windows cover the history -----------------------------------------------

  ghost predicate AscendingTokens(records: seq<Record>) {
    forall i, j :: 0 <= i < j < |records| ==> records[i].token < records[j].token
  }

  lemma {:induction false} AfterMembers(records: seq<Record>, cursor: int, upto: int)
    requires AscendingTokens(records)
    ensures AscendingTokens(After(records, cursor, upto))
    ensures forall r :: r in After(records, cursor, upto) <==> r in records && cursor < r.token <= upto
  {
    if records != [] {
      var n := |records| - 1;
      var before, last := records[..n], records[n];
      assert records == before + [last];
      AfterMembers(before, cursor, upto);
      var found := After(before, cursor, upto);
      forall i | 0 <= i < |found| ensures found[i].token < last.token {
        assert found[i] in found;
        var j :| 0 <= j < n && before[j] == found[i];
        assert records[j].token < records[n].token;
      }
    }
  }

  lemma {:induction false} AfterNothing(records: seq<Record>, cursor: int, upto: int)
    requires forall i :: 0 <= i < |records| ==> records[i].token <= cursor
    ensures After(records, cursor, upto) == []
  {
    if records != [] {
      AfterNothing(records[..|records| - 1], cursor, upto);
    }
  }

  lemma AscendingInit(before: seq<Record>, last: Record)
    requires AscendingTokens(before + [last])
    ensures AscendingTokens(before) && (before != [] ==> before[|before| - 1].token < last.token)
  {
    var all := before + [last];
    assert forall i :: 0 <= i < |before| ==> all[i] == before[i];
    assert before != [] ==> all[|before| - 1].token < all[|before|].token;
  }

  lemma AfterSnoc(before: seq<Record>, last: Record, cursor: int, upto: int)
    ensures After(before + [last], cursor, upto)
         == if cursor < last.token <= upto then After(before, cursor, upto) + [last] else After(before, cursor, upto)
  {
    assert (before + [last])[..|before|] == before;
  }

  lemma SplitSnoc(a: seq<Record>, b: seq<Record>, c: seq<Record>, last: Record)
    requires a == b + c
    ensures a + [last] == b + (c + [last]) && (c == [] ==> a + [last] == (b + [last]) + c)
  {
  }

  lemma {:induction false} AfterSplits(records: seq<Record>, lo: int, mid: int, hi: int)
    requires AscendingTokens(records) && lo <= mid <= hi
    ensures After(records, lo, hi) == After(records, lo, mid) + After(records, mid, hi)
  {
    if records != [] {
      var before, last := records[..|records| - 1], records[|records| - 1];
      AfterSplits(before, lo, mid, hi);
      if last.token <= mid {
        AfterNothing(before, mid, hi);
      }
      SplitSnoc(After(before, lo, hi), After(before, lo, mid), After(before, mid, hi), last);
    }
  }

  /** Elements of a stretch lie inside its bounds. */
  lemma {:induction false} AfterBounds(records: seq<Record>, cursor: int, upto: int, i: nat)
    requires i < |After(records, cursor, upto)|
    ensures cursor < After(records, cursor, upto)[i].token <= upto
  {
    var before := After(records[..|records| - 1], cursor, upto);
    if i < |before| {
      AfterBounds(records[..|records| - 1], cursor, upto, i);
    }
  }

  lemma CutByToken(found: seq<Record>, low: seq<Record>, high: seq<Record>, k: nat, m: int,
                   records: seq<Record>, cursor: int, upto: int)
    requires found == low + high && AscendingTokens(found) && 0 < k <= |found| && found[k - 1].token == m
    requires low == After(records, cursor, m) && high == After(records, m, upto)
    ensures found[..k] == low && found[k..] == high
  {
    if |low| < k {
      assert found[k - 1] == high[k - 1 - |low|];
      AfterBounds(records, m, upto, k - 1 - |low|);
    } else if |low| > k {
      assert found[|low| - 1] == low[|low| - 1];
      AfterBounds(records, cursor, m, |low| - 1);
    }
  }

  /** Cutting a stretch of the history after an element cuts it at that element's token. */
  lemma AfterCut(records: seq<Record>, cursor: int, upto: int, k: nat)
    requires AscendingTokens(records) && 0 < k <= |After(records, cursor, upto)|
    ensures var found := After(records, cursor, upto);
            var m := found[k - 1].token;
            && cursor < m <= upto
            && found[..k] == After(records, cursor, m) && found[k..] == After(records, m, upto)
  {
    var found := After(records, cursor, upto);
    var m := found[k - 1].token;
    AfterBounds(records, cursor, upto, k - 1);
    AfterSplits(records, cursor, m, upto);
    AfterMembers(records, cursor, upto);
    CutByToken(found, After(records, cursor, m), After(records, m, upto), k, m, records, cursor, upto);
  }

  /** A page is everything of the account from the cursor to some token. */
  lemma PageIsStretch(records: seq<Record>, cursor: int, upto: int) returns (to: int)
    requires AscendingTokens(records)
    ensures PageOf(records, cursor, upto) == After(records, cursor, to)
  {
    var found := After(records, cursor, upto);
    to := upto;
    if |found| > PAGE_LIMIT {
      AfterCut(records, cursor, upto, PAGE_LIMIT);
      to := found[PAGE_LIMIT - 1].token;
    }
  }

  /** Each window in turn is everything of the account from the cursor before it to its own last
      token. */
  ghost predicate WindowsSafe(records: seq<Record>, cursor: int, windows: seq<seq<Record>>)
    decreases |windows|
  {
    windows == [] ||
    (windows[0] != []
     && var next := windows[0][|windows[0]| - 1].token;
        cursor < next && windows[0] == After(records, cursor, next) && WindowsSafe(records, next, windows[1..]))
  }

  lemma {:induction false} FlattenCons(w: seq<Record>, rest: seq<seq<Record>>)
    ensures Flatten([w] + rest) == w + Flatten(rest)
  {
    if rest == [] {
      assert [w] + rest == [w] && [w][..0] == [];
    } else {
      assert ([w] + rest)[..|rest|] == [w] + rest[..|rest| - 1];
      FlattenCons(w, rest[..|rest| - 1]);
    }
  }

  lemma {:induction false} CutsAreSafe(records: seq<Record>, cursor: int, to: int, windows: seq<seq<Record>>)
    requires AscendingTokens(records) && Flatten(windows) == After(records, cursor, to)
    requires forall i :: 0 <= i < |windows| ==> windows[i] != []
    ensures WindowsSafe(records, cursor, windows)
    decreases |windows|
  {
    if windows != [] {
      var w, rest := windows[0], windows[1..];
      assert windows == [w] + rest;
      FlattenCons(w, rest);
      AfterCut(records, cursor, to, |w|);
      assert After(records, cursor, to)[..|w|] == w && After(records, cursor, to)[|w|..] == Flatten(rest);
      CutsAreSafe(records, w[|w| - 1].token, to, rest);
    }
  }

  /** A page with each ledger's records together is processed in safe windows. */
  lemma PageWindowsSafe(records: seq<Record>, cursor: int, upto: int)
    requires AscendingTokens(records) && Contiguous(PageOf(records, cursor, upto))
    ensures WindowsSafe(records, cursor, Windows(PageOf(records, cursor, upto)))
  {
    var page := PageOf(records, cursor, upto);
    var to := PageIsStretch(records, cursor, upto);
    GroupKeepsOrder(page);
    CutsAreSafe(records, cursor, to, Windows(page));
  }

  // ----- the invariant -----------------------------------------------------------

  /** The record's job is in the queues, or the builder rejects the record. */
  ghost predicate Handled(queued: seq<Job>, r: Record, account: string) {
    BuildJob(r, account).Some? ==> BuildJob(r, account).value in queued
  }

  /** A pool the record announces is being polled. */
  ghost predicate AnnouncedTracked(tracked: seq<string>, r: Record) {
    r.kind == PoolCreated && r.poolId.Some? && r.poolId.value != "" ==> r.poolId.value in tracked
  }

  ghost predicate Covered(s: State, history: History, a: string)
    requires a in s.starts && a in s.cursors
  {
    forall r :: r in RecordsOf(history, a) && s.starts[a] < r.token <= s.cursors[a] ==>
      Handled(s.queued, r, a) && AnnouncedTracked(s.tracked, r)
  }

  /** A queued job was built from a record of a tracked account. */
  ghost predicate Genuine(j: Job, s: State, history: History) {
    j.account in s.tracked && j.source in RecordsOf(history, j.account) && BuildJob(j.source, j.account) == Some(j)
  }

  ghost predicate Inv(s: State, history: History) {
    && (forall a :: a in s.tracked ==> a in s.cursors && a in s.starts && s.starts[a] <= s.cursors[a] && Covered(s, history, a))
    && (forall a :: a in s.starts ==> a in s.tracked)
    && (forall p :: p in s.origins ==> p in s.starts && s.starts[p] < s.origins[p])
    && (forall j :: j in s.queued ==> Genuine(j, s, history))
  }

  /** Nothing tracked is dropped, no cursor moves back, no start or queued job changes. */
  ghost predicate Advances(s: State, s': State) {
    && (forall a :: a in s.tracked && a in s.cursors && a in s.starts ==>
          a in s'.tracked && a in s'.cursors && a in s'.starts
          && s.cursors[a] <= s'.cursors[a] && s'.starts[a] == s.starts[a])
    && (forall j :: j in s.queued ==> j in s'.queued)
  }

  /** Paging tokens ascend, as Horizon promises. */
  ghost predicate AscendingHistory(history: History) {
    forall a :: a in history ==> AscendingTokens(history[a])
  }

  /** In every stretch of `n` records each ledger's records stand together, and so do the records
      that carry none. */
  ghost predicate ContiguousWithin(records: seq<Record>, n: nat) {
    forall i, j, k :: 0 <= i < j < k < |records| && k < i + n && records[i].ledger == records[k].ledger ==>
      records[j].ledger == records[i].ledger
  }

  /** Besides, no stretch that fits a page has a ledger's records apart. */
  ghost predicate OrderedHistory(history: History) {
    AscendingHistory(history) && forall a :: a in history ==> ContiguousWithin(history[a], PAGE_LIMIT)
  }

  /** Records that all carry a ledger, in ledger order, are one such history. */
  lemma LedgerOrderIsOrdered(history: History)
    requires AscendingHistory(history) && forall a :: a in history ==> LedgersInPageOrder(history[a])
    ensures OrderedHistory(history)
  {
    forall a | a in history ensures ContiguousWithin(history[a], PAGE_LIMIT) {
      PageOrderIsContiguous(history[a]);
    }
  }

  /** What announcing pools does to the service. */
  ghost predicate OnlyAddsAccounts(s: State, s': State, history: History) {
    && Inv(s', history) && Advances(s, s') && s'.queued == s.queued
    && forall a :: a in s.tracked && a in s.cursors ==> a in s'.tracked && a in s'.cursors && s'.cursors[a] == s.cursors[a]
  }

  /** More accounts and more jobs leave an account whose cursor stands still covered. */
  lemma CoveredStays(s: State, s': State, history: History, a: string)
    requires a in s.starts && a in s.cursors && a in s'.starts && a in s'.cursors && Covered(s, history, a)
    requires s'.starts[a] == s.starts[a] && s'.cursors[a] == s.cursors[a]
    requires (forall j :: j in s.queued ==> j in s'.queued) && (forall p :: p in s.tracked ==> p in s'.tracked)
    ensures Covered(s', history, a)
  {
  }

  lemma NewAccountAdvances(s: State, p: string, cursor: int, origin: int)
    requires p !in s.tracked
    ensures Advances(s, Added(s, p, cursor, origin))
  {
  }

  lemma NewAccountInv(s: State, history: History, p: string, cursor: int, origin: int)
    requires Inv(s, history) && cursor < origin && p !in s.tracked
    ensures Inv(Added(s, p, cursor, origin), history)
  {
    var s' := Added(s, p, cursor, origin);
    forall a | a in s'.tracked ensures a in s'.cursors && a in s'.starts && s'.starts[a] <= s'.cursors[a] && Covered(s', history, a) {
      if a in s.tracked {
        CoveredStays(s, s', history, a);
      }
    }
    forall j | j in s'.queued ensures Genuine(j, s', history) {
      assert Genuine(j, s, history);
    }
  }

  lemma NewAccountKeepsInv(s: State, history: History, p: string, cursor: int, origin: int)
    requires Inv(s, history) && cursor < origin && p !in s.tracked
    ensures OnlyAddsAccounts(s, Added(s, p, cursor, origin), history)
  {
    NewAccountAdvances(s, p, cursor, origin);
    NewAccountInv(s, history, p, cursor, origin);
  }

  lemma DiscoverKeepsInv(s: State, history: History, r: Record, cursor: int)
    requires Inv(s, history) && cursor < r.token
    ensures OnlyAddsAccounts(s, Discover(s, r, cursor), history)
  {
    if Discover(s, r, cursor) != s {
      NewAccountKeepsInv(s, history, r.poolId.value, cursor, r.token);
    }
  }

  lemma AdvancesTransitive(s: State, t: State, u: State)
    requires Advances(s, t) && Advances(t, u)
    ensures Advances(s, u)
  {
  }

  lemma OnlyAddsTransitive(s: State, t: State, u: State, history: History)
    requires OnlyAddsAccounts(s, t, history) && OnlyAddsAccounts(t, u, history)
    ensures OnlyAddsAccounts(s, u, history)
  {
    AdvancesTransitive(s, t, u);
  }

  lemma {:induction false} DiscoverAllKeepsInv(s: State, history: History, records: seq<Record>, cursor: int)
    requires Inv(s, history) && forall i :: 0 <= i < |records| ==> cursor < records[i].token
    ensures OnlyAddsAccounts(s, DiscoverAll(s, records, cursor), history)
  {
    if records != [] {
      var t := DiscoverAll(s, records[..|records| - 1], cursor);
      DiscoverAllKeepsInv(s, history, records[..|records| - 1], cursor);
      DiscoverKeepsInv(t, history, records[|records| - 1], cursor);
      OnlyAddsTransitive(s, t, DiscoverAll(s, records, cursor), history);
    }
  }

  lemma {:induction false} DiscoverAllTracks(s: State, records: seq<Record>, cursor: int)
    ensures forall r :: r in records ==> AnnouncedTracked(DiscoverAll(s, records, cursor).tracked, r)
  {
    if records != [] {
      var before, last := records[..|records| - 1], records[|records| - 1];
      DiscoverAllTracks(s, before, cursor);
      assert records == before + [last];
      assert forall r :: r in records <==> r in before || r == last;
    }
  }

  lemma {:induction false} JobsOfWindow(records: seq<Record>, account: string, kinds: set<Kind>)
    ensures forall j :: j in BuildJobs(records, account, kinds) ==>
              j.account == account && j.kind in kinds && j.source in records && BuildJob(j.source, account) == Some(j)
    ensures forall r :: r in records && BuildJob(r, account).Some? && r.kind in kinds ==>
              BuildJob(r, account).value in BuildJobs(records, account, kinds)
  {
    if records != [] {
      var before, last := records[..|records| - 1], records[|records| - 1];
      JobsOfWindow(before, account, kinds);
      assert records == before + [last];
      assert forall r :: r in records <==> r in before || r == last;
    }
  }

  lemma EveryKind(kind: Kind)
    ensures kind in ALL_KINDS
  {
    match kind
    case PoolCreated =>
    case SwapProcessed =>
    case PositionMinted =>
    case PositionBurned =>
    case FeesCollected =>
    case OtherEvent =>
  }

  lemma EnqueueKeepsInv(s: State, history: History, account: string, records: seq<Record>, kinds: set<Kind>)
    requires Inv(s, history) && account in s.tracked
    requires forall r :: r in records ==> r in RecordsOf(history, account)
    ensures Inv(Enqueue(s, account, records, kinds), history) && Advances(s, Enqueue(s, account, records, kinds))
    ensures kinds == ALL_KINDS ==>
              forall r :: r in records ==> Handled(Enqueue(s, account, records, kinds).queued, r, account)
  {
    var s' := Enqueue(s, account, records, kinds);
    JobsOfWindow(records, account, kinds);
    forall a | a in s'.tracked ensures Covered(s', history, a) {
      CoveredStays(s, s', history, a);
    }
    forall j | j in s'.queued ensures Genuine(j, s', history) {
      if j in s.queued { assert Genuine(j, s, history); }
    }
    forall r | r in records && kinds == ALL_KINDS ensures Handled(s'.queued, r, account) {
      EveryKind(r.kind);
    }
  }

  /** Moving the cursor over records that are all handled keeps everything covered. */
  lemma CursorKeepsInv(s: State, history: History, account: string, window: seq<Record>)
    requires Inv(s, history) && account in s.tracked && window != []
    requires s.cursors[account] <= window[|window| - 1].token
    requires forall r :: r in RecordsOf(history, account) && s.cursors[account] < r.token <= window[|window| - 1].token
                         ==> Handled(s.queued, r, account) && AnnouncedTracked(s.tracked, r)
    ensures Inv(MoveCursor(s, account, window), history) && Advances(s, MoveCursor(s, account, window))
  {
    var s' := MoveCursor(s, account, window);
    forall a | a in s'.tracked ensures a in s'.cursors && a in s'.starts && s'.starts[a] <= s'.cursors[a] && Covered(s', history, a) {
      if a != account {
        CoveredStays(s, s', history, a);
      }
    }
    forall j | j in s'.queued ensures Genuine(j, s', history) {
      assert Genuine(j, s, history);
    }
  }

  /** The window is everything of the account from its cursor to the window's last token. */
  ghost predicate NextWindow(s: State, history: History, account: string, window: seq<Record>) {
    && account in s.tracked && account in s.cursors && window != []
    && s.cursors[account] < window[|window| - 1].token
    && window == After(RecordsOf(history, account), s.cursors[account], window[|window| - 1].token)
  }

  /** The window's records are the account's records from its cursor to the window's last token. */
  ghost predicate HasNextRecords(s: State, history: History, account: string, window: seq<Record>) {
    && account in s.tracked && account in s.cursors && window != []
    && s.cursors[account] < window[|window| - 1].token
    && forall r :: r in window <==>
         r in RecordsOf(history, account) && s.cursors[account] < r.token <= window[|window| - 1].token
  }

  lemma WindowMembers(s: State, history: History, account: string, window: seq<Record>)
    requires AscendingHistory(history) && NextWindow(s, history, account, window)
    ensures HasNextRecords(s, history, account, window)
  {
    AfterMembers(RecordsOf(history, account), s.cursors[account], window[|window| - 1].token);
  }

  /** A window that went through all queues moves the cursor safely. */
  lemma WindowDone(d: State, history: History, account: string, window: seq<Record>)
    requires Inv(d, history) && HasNextRecords(d, history, account, window)
    requires forall r :: r in window ==> AnnouncedTracked(d.tracked, r)
    ensures var u := MoveCursor(Enqueue(d, account, window, ALL_KINDS), account, window);
            && Inv(u, history) && Advances(d, u)
            && account in u.cursors && u.cursors[account] == window[|window| - 1].token
  {
    EnqueueKeepsInv(d, history, account, window, ALL_KINDS);
    var e := Enqueue(d, account, window, ALL_KINDS);
    CursorKeepsInv(e, history, account, window);
    AdvancesTransitive(d, e, MoveCursor(e, account, window));
  }

  lemma ProcessWindowKeepsInv(s: State, history: History, account: string, cursor: int, window: seq<Record>, fault: WindowFault)
    requires Inv(s, history) && AscendingHistory(history) && NextWindow(s, history, account, window)
    requires cursor <= s.cursors[account]
    ensures var (s', ok) := ProcessWindow(s, account, cursor, window, fault);
            && Inv(s', history) && Advances(s, s')
            && (ok ==> account in s'.cursors && s'.cursors[account] == window[|window| - 1].token)
  {
    WindowMembers(s, history, account, window);
    forall i | 0 <= i < |window| ensures cursor < window[i].token {
      assert window[i] in window;
    }
    if fault.PublishFails? && fault.at < |window| {
      DiscoverAllKeepsInv(s, history, window[..fault.at], cursor);
    } else {
      var d := DiscoverAll(s, window, cursor);
      DiscoverAllKeepsInv(s, history, window, cursor);
      DiscoverAllTracks(s, window, cursor);
      if fault.EnqueueFails? {
        EnqueueKeepsInv(d, history, account, window, fault.accepted);
        AdvancesTransitive(s, d, Enqueue(d, account, window, fault.accepted));
      } else {
        WindowDone(d, history, account, window);
        AdvancesTransitive(s, d, MoveCursor(Enqueue(d, account, window, ALL_KINDS), account, window));
      }
    }
  }

  /** A turn that still has these windows to go through. */
  ghost predicate TurnReady(s: State, history: History, account: string, cursor: int, windows: seq<seq<Record>>) {
    && Inv(s, history) && account in s.tracked && account in s.cursors && account in s.starts && cursor <= s.cursors[account]
    && WindowsSafe(RecordsOf(history, account), s.cursors[account], windows)
  }

  lemma FirstWindow(s: State, history: History, account: string, windows: seq<seq<Record>>)
    requires account in s.tracked && account in s.cursors && windows != []
    requires WindowsSafe(RecordsOf(history, account), s.cursors[account], windows)
    ensures NextWindow(s, history, account, windows[0])
  {
  }

  lemma RestSafe(records: seq<Record>, cursor: int, windows: seq<seq<Record>>)
    requires windows != [] && WindowsSafe(records, cursor, windows)
    ensures windows[0] != [] && cursor < windows[0][|windows[0]| - 1].token
    ensures WindowsSafe(records, windows[0][|windows[0]| - 1].token, windows[1..])
  {
  }

  lemma StillReady(s: State, t: State, history: History, account: string, cursor: int, next: int, rest: seq<seq<Record>>)
    requires account in s.tracked && account in s.cursors && account in s.starts && cursor <= s.cursors[account] < next
    requires Inv(t, history) && Advances(s, t) && account in t.cursors && t.cursors[account] == next
    requires WindowsSafe(RecordsOf(history, account), next, rest)
    ensures TurnReady(t, history, account, cursor, rest)
  {
  }

  lemma OneWindow(s: State, history: History, account: string, cursor: int, window: seq<Record>, rest: seq<seq<Record>>,
                  fault: WindowFault)
    returns (t: State, ok: bool)
    requires Inv(s, history) && AscendingHistory(history) && NextWindow(s, history, account, window)
    requires cursor <= s.cursors[account] && WindowsSafe(RecordsOf(history, account), window[|window| - 1].token, rest)
    ensures (t, ok) == ProcessWindow(s, account, cursor, window, fault)
    ensures Inv(t, history) && Advances(s, t)
    ensures ok ==> TurnReady(t, history, account, cursor, rest)
  {
    var result := ProcessWindow(s, account, cursor, window, fault);
    t, ok := result.0, result.1;
    ProcessWindowKeepsInv(s, history, account, cursor, window, fault);
    if ok {
      StillReady(s, t, history, account, cursor, window[|window| - 1].token, rest);
    }
  }

  lemma ReadyWindow(s: State, history: History, account: string, cursor: int, windows: seq<seq<Record>>, fault: WindowFault)
    returns (t: State, ok: bool)
    requires AscendingHistory(history) && TurnReady(s, history, account, cursor, windows) && windows != []
    ensures (t, ok) == ProcessWindow(s, account, cursor, windows[0], fault)
    ensures Inv(t, history) && Advances(s, t)
    ensures ok ==> TurnReady(t, history, account, cursor, windows[1..])
  {
    FirstWindow(s, history, account, windows);
    RestSafe(RecordsOf(history, account), s.cursors[account], windows);
    t, ok := OneWindow(s, history, account, cursor, windows[0], windows[1..], fault);
  }

  lemma UnfoldWindows(s: State, account: string, cursor: int, windows: seq<seq<Record>>, i: nat, o: Outcome, t: State, ok: bool)
    requires windows != [] && (t, ok) == ProcessWindow(s, account, cursor, windows[0], FaultAt(o, i))
    ensures ProcessWindows(s, account, cursor, windows, i, o) ==
            if ok then ProcessWindows(t, account, cursor, windows[1..], i + 1, o) else (t, false)
  {
  }

  lemma {:induction false} ProcessWindowsKeepInv(s: State, history: History, account: string, cursor: int,
                                                 windows: seq<seq<Record>>, i: nat, o: Outcome)
    requires AscendingHistory(history) && TurnReady(s, history, account, cursor, windows)
    ensures var s' := ProcessWindows(s, account, cursor, windows, i, o).0; Inv(s', history) && Advances(s, s')
    decreases |windows|
  {
    if windows != [] {
      var t, ok := ReadyWindow(s, history, account, cursor, windows, FaultAt(o, i));
      UnfoldWindows(s, account, cursor, windows, i, o, t, ok);
      if ok {
        ProcessWindowsKeepInv(t, history, account, cursor, windows[1..], i + 1, o);
        AdvancesTransitive(s, t, ProcessWindows(t, account, cursor, windows[1..], i + 1, o).0);
      }
    }
  }

  lemma PlaceOf(records: seq<Record>, r: Record) returns (i: nat)
    requires r in records
    ensures i < |records| && records[i] == r
  {
    i :| 0 <= i < |records| && records[i] == r;
  }

  lemma SameTokenSamePlace(records: seq<Record>, i: nat, j: nat)
    requires AscendingTokens(records) && i < |records| && j < |records| && records[i].token == records[j].token
    ensures i == j
  {
  }

  lemma PlaceInSlice(records: seq<Record>, p: nat, n: nat, e: nat)
    requires AscendingTokens(records) && p + n <= |records| && e < |records| && records[e] in records[p..p + n]
    ensures p <= e < p + n
  {
    var q := PlaceOf(records[p..p + n], records[e]);
    SameTokenSamePlace(records, p + q, e);
  }

  /** `found` stands in `records` from place `p` on. */
  ghost predicate SliceAt(records: seq<Record>, p: nat, found: seq<Record>) {
    p + |found| <= |records| && found == records[p..p + |found|]
  }

  /** A record that may be shown is, if some record is. */
  lemma EndIsShown(records: seq<Record>, cursor: int, upto: int)
    requires AscendingTokens(records) && After(records, cursor, upto) != [] && records[|records| - 1].token <= upto
    ensures records[|records| - 1] in After(records, cursor, upto)
  {
    var first, end := After(records, cursor, upto)[0], records[|records| - 1];
    AfterBounds(records, cursor, upto, 0);
    AfterMembers(records, cursor, upto);
    assert first in After(records, cursor, upto);
    var i := PlaceOf(records, first);
    assert end in records && records[i].token <= end.token;
  }

  /** What was found reaches to the end, if nothing comes after what may be shown. */
  lemma FoundReachesEnd(records: seq<Record>, cursor: int, upto: int, p: nat)
    requires AscendingTokens(records) && After(records, cursor, upto) != [] && records[|records| - 1].token <= upto
    requires SliceAt(records, p, After(records, cursor, upto))
    ensures p + |After(records, cursor, upto)| == |records|
  {
    EndIsShown(records, cursor, upto);
    PlaceInSlice(records, p, |After(records, cursor, upto)|, |records| - 1);
  }

  lemma SliceStays(before: seq<Record>, last: Record, p: nat, found: seq<Record>)
    requires SliceAt(before, p, found)
    ensures SliceAt(before + [last], p, found)
    ensures p + |found| == |before| ==> SliceAt(before + [last], p, found + [last])
  {
  }

  lemma LastIsSlice(before: seq<Record>, last: Record)
    ensures SliceAt(before + [last], |before|, [last])
  {
  }

  lemma SliceStep(before: seq<Record>, last: Record, cursor: int, upto: int, q: nat) returns (p: nat)
    requires AscendingTokens(before) && (before != [] ==> before[|before| - 1].token < last.token)
    requires SliceAt(before, q, After(before, cursor, upto))
    ensures SliceAt(before + [last], p, After(before + [last], cursor, upto))
  {
    var found := After(before, cursor, upto);
    p := q;
    AfterSnoc(before, last, cursor, upto);
    if !(cursor < last.token <= upto) {
      SliceStays(before, last, q, found);
    } else if found == [] {
      p := |before|;
      LastIsSlice(before, last);
    } else {
      FoundReachesEnd(before, cursor, upto, q);
      SliceStays(before, last, q, found);
    }
  }

  /** What Horizon shows after a cursor is a stretch of consecutive records. */
  lemma {:induction false} AfterIsSlice(records: seq<Record>, cursor: int, upto: int) returns (p: nat)
    requires AscendingTokens(records)
    ensures SliceAt(records, p, After(records, cursor, upto))
  {
    p := 0;
    if records != [] {
      var before, last := records[..|records| - 1], records[|records| - 1];
      assert records == before + [last];
      AscendingInit(before, last);
      p := AfterIsSlice(before, cursor, upto);
      p := SliceStep(before, last, cursor, upto, p);
    }
  }

  lemma SliceContiguous(records: seq<Record>, p: nat, n: nat)
    requires ContiguousWithin(records, PAGE_LIMIT) && n <= PAGE_LIMIT && p + n <= |records|
    ensures Contiguous(records[p..p + n])
  {
    var page := records[p..p + n];
    forall i, j, k | 0 <= i < j < k < |page| && page[i].ledger == page[k].ledger ensures page[j].ledger == page[i].ledger {
      assert page[i] == records[p + i] && page[j] == records[p + j] && page[k] == records[p + k];
    }
  }

  lemma PageContiguous(records: seq<Record>, cursor: int, upto: int)
    requires AscendingTokens(records) && ContiguousWithin(records, PAGE_LIMIT)
    ensures Contiguous(PageOf(records, cursor, upto))
  {
    var p := AfterIsSlice(records, cursor, upto);
    var n := |PageOf(records, cursor, upto)|;
    assert PageOf(records, cursor, upto) == records[p..p + n];
    SliceContiguous(records, p, n);
  }

  /** A turn whose page keeps each ledger's records together, whatever its faults. */
  lemma TurnKeepsInv(s: State, history: History, account: string, o: Outcome)
    requires Inv(s, history) && AscendingHistory(history) && account in s.tracked
    requires o.Answer? ==> Contiguous(PageOf(RecordsOf(history, account), s.cursors[account], o.upto))
    ensures var s' := PollAccount(s, history, account, o).0; Inv(s', history) && Advances(s, s')
  {
    if o.Answer? {
      var records, cursor := RecordsOf(history, account), s.cursors[account];
      PageWindowsSafe(records, cursor, o.upto);
      ProcessWindowsKeepInv(s, history, account, cursor, Windows(PageOf(records, cursor, o.upto)), 0, o);
    }
  }

  lemma PollAccountKeepsInv(s: State, history: History, account: string, o: Outcome)
    requires Inv(s, history) && OrderedHistory(history) && account in s.tracked
    ensures var s' := PollAccount(s, history, account, o).0; Inv(s', history) && Advances(s, s')
  {
    if o.Answer? {
      PageContiguous(RecordsOf(history, account), s.cursors[account], o.upto);
    }
    TurnKeepsInv(s, history, account, o);
  }

  // ----- whole runs --------------------------------------------------------------

  lemma {:induction false} PollAllKeepsInv(s: State, history: History, accounts: seq<string>, outcomes: map<string, Outcome>)
    requires Inv(s, history) && OrderedHistory(history) && forall a :: a in accounts ==> a in s.tracked
    ensures var t := PollAll(s, history, accounts, outcomes).0; Inv(t, history) && Advances(s, t)
  {
    if accounts != [] {
      var before, last := accounts[..|accounts| - 1], accounts[|accounts| - 1];
      PollAllKeepsInv(s, history, before, outcomes);
      var t := PollAll(s, history, before, outcomes).0;
      assert last in accounts && last in t.tracked;
      PollAccountKeepsInv(t, history, last, OutcomeFor(outcomes, last));
      AdvancesTransitive(s, t, PollAccount(t, history, last, OutcomeFor(outcomes, last)).0);
    }
  }

  lemma PollOnceKeepsInv(p: Poller, history: History, poll: Poll)
    requires Inv(p.core, history) && OrderedHistory(history)
    ensures var q := PollOnce(p, history, poll); Inv(q.core, history) && Advances(p.core, q.core)
  {
    if poll.now >= p.nextAttemptAt {
      PollAllKeepsInv(p.core, history, p.core.tracked, poll.outcomes);
    }
  }

  lemma {:induction false} RunKeepsInv(p: Poller, history: History, polls: seq<Poll>)
    requires Inv(p.core, history) && OrderedHistory(history)
    ensures var q := RunPolls(p, history, polls); Inv(q.core, history) && Advances(p.core, q.core)
  {
    if polls != [] {
      var before := RunPolls(p, history, polls[..|polls| - 1]);
      RunKeepsInv(p, history, polls[..|polls| - 1]);
      PollOnceKeepsInv(before, history, polls[|polls| - 1]);
      AdvancesTransitive(p.core, before.core, RunPolls(p, history, polls).core);
    }
  }

  lemma StartSatisfiesInv(accounts: seq<string>, cursor: int, history: History)
    ensures Inv(StartAt(accounts, cursor).core, history)
  {
  }

  /** In every run of polls, with any timeouts, failing broadcasts and failing queues, and with
      pools found along the way: every record an account's cursor has passed since it began was put
      into its queue or rejected by the job builder, and a pool it announces is being polled; nothing
      else was queued; and a discovered pool began before the record that announced it. */
  lemma NoRecordSkipped(accounts: seq<string>, cursor: int, history: History, polls: seq<Poll>)
    requires OrderedHistory(history)
    ensures var s := RunPolls(StartAt(accounts, cursor), history, polls).core;
            && (forall a :: a in s.tracked ==> a in s.cursors && a in s.starts && s.starts[a] <= s.cursors[a])
            && (forall a, r :: a in s.tracked && r in RecordsOf(history, a) && s.starts[a] < r.token <= s.cursors[a]
                               ==> Handled(s.queued, r, a) && AnnouncedTracked(s.tracked, r))
            && (forall a :: a in accounts ==> a in s.tracked && a in s.starts && s.starts[a] == cursor)
            && (forall p :: p in s.origins ==> p in s.starts && s.starts[p] < s.origins[p])
            && (forall j :: j in s.queued ==> Genuine(j, s, history))
  {
    StartSatisfiesInv(accounts, cursor, history);
    RunKeepsInv(StartAt(accounts, cursor), history, polls);
    var s := RunPolls(StartAt(accounts, cursor), history, polls).core;
    assert forall a :: a in s.tracked ==> Covered(s, history, a);
  }

  lemma {:induction false} DiscoveryKeepsOthers(s: State, records: seq<Record>, cursor: int, account: string)
    requires account in s.tracked && account in s.cursors
    ensures var d := DiscoverAll(s, records, cursor);
            account in d.tracked && account in d.cursors && d.cursors[account] == s.cursors[account]
  {
    if records != [] {
      DiscoveryKeepsOthers(s, records[..|records| - 1], cursor, account);
    }
  }

  lemma {:induction false} FaultlessWindows(s: State, account: string, cursor: int, windows: seq<seq<Record>>, i: nat, upto: int)
    requires account in s.tracked && account in s.cursors && NoneEmpty(windows)
    ensures var (t, ok) := ProcessWindows(s, account, cursor, windows, i, Answer(upto, 0, NoFault));
            && ok && account in t.cursors
            && t.cursors[account] == if windows == [] then s.cursors[account]
                                     else windows[|windows| - 1][|windows[|windows| - 1]| - 1].token
    decreases |windows|
  {
    if windows != [] {
      var o := Answer(upto, 0, NoFault);
      var (t, ok) := ProcessWindow(s, account, cursor, windows[0], FaultAt(o, i));
      DiscoveryKeepsOthers(s, windows[0], cursor, account);
      UnfoldWindows(s, account, cursor, windows, i, o, t, ok);
      FaultlessWindows(t, account, cursor, windows[1..], i + 1, upto);
    }
  }

  lemma {:induction false} LastOfFlatten(windows: seq<seq<Record>>)
    requires windows != [] && windows[|windows| - 1] != []
    ensures Flatten(windows) != []
    ensures Flatten(windows)[|Flatten(windows)| - 1] == windows[|windows| - 1][|windows[|windows| - 1]| - 1]
  {
  }

  lemma WindowsEndPage(page: seq<Record>)
    requires Contiguous(page)
    ensures var windows := Windows(page);
            && NoneEmpty(windows)
            && (windows == [] <==> page == [])
            && (page != [] ==> page[|page| - 1] == windows[|windows| - 1][|windows[|windows| - 1]| - 1])
  {
    GroupKeepsOrder(page);
    if Windows(page) != [] {
      LastOfFlatten(Windows(page));
    }
  }

  lemma FaultlessTurn(s: State, history: History, account: string, upto: int, page: seq<Record>)
    requires account in s.tracked && account in s.cursors && Contiguous(page)
    requires page == PageOf(RecordsOf(history, account), s.cursors[account], upto)
    ensures var (t, ok) := PollAccount(s, history, account, Answer(upto, 0, NoFault));
            && ok && account in t.cursors
            && t.cursors[account] == if page == [] then s.cursors[account] else page[|page| - 1].token
  {
    WindowsEndPage(page);
    FaultlessWindows(s, account, s.cursors[account], Windows(page), 0, upto);
  }

  /** A poll without faults takes its whole page: the cursor ends at the page's last record. */
  lemma FaultlessPollTakesPage(s: State, history: History, account: string, upto: int)
    requires Inv(s, history) && OrderedHistory(history) && account in s.tracked
    ensures var page := PageOf(RecordsOf(history, account), s.cursors[account], upto);
            var (t, ok) := PollAccount(s, history, account, Answer(upto, 0, NoFault));
            && ok && account in t.cursors
            && t.cursors[account] == if page == [] then s.cursors[account] else page[|page| - 1].token
  {
    PageContiguous(RecordsOf(history, account), s.cursors[account], upto);
    FaultlessTurn(s, history, account, upto, PageOf(RecordsOf(history, account), s.cursors[account], upto));
  }

  lemma {:induction false} RunConcat(p: Poller, history: History, polls: seq<Poll>, more: seq<Poll>)
    ensures RunPolls(p, history, polls + more) == RunPolls(RunPolls(p, history, polls), history, more)
  {
    if more == [] {
      assert polls + more == polls;
    } else {
      assert (polls + more)[..|polls + more| - 1] == polls + more[..|more| - 1];
      RunConcat(p, history, polls, more[..|more| - 1]);
    }
  }

  /** Along a run no account is dropped and no cursor ever moves back. */
  lemma CursorsOnlyMoveForward(accounts: seq<string>, cursor: int, history: History, polls: seq<Poll>, more: seq<Poll>)
    requires OrderedHistory(history)
    ensures var s := RunPolls(StartAt(accounts, cursor), history, polls).core;
            var t := RunPolls(StartAt(accounts, cursor), history, polls + more).core;
            forall a :: a in s.tracked ==> a in s.cursors && a in t.tracked && a in t.cursors && s.cursors[a] <= t.cursors[a]
  {
    StartSatisfiesInv(accounts, cursor, history);
    RunKeepsInv(StartAt(accounts, cursor), history, polls);
    RunConcat(StartAt(accounts, cursor), history, polls, more);
    RunKeepsInv(RunPolls(StartAt(accounts, cursor), history, polls), history, more);
  }

  /** The wait after a failing poll never shrinks while failures go on, and stays within limits. */
  lemma {:induction false} BackoffBounds(failures: nat)
    ensures 1_000 <= Backoff(failures) <= Backoff(failures + 1) <= 30_000
  {
    if failures > 1 {
      BackoffBounds(failures - 1);
    }
  }

  function Power2(n: nat): nat {
    if n == 0 then 1 else 2 * Power2(n - 1)
  }

  /** After the n-th failing poll in a row the wait is 1000 * 2^(n-1) milliseconds, at most thirty
      seconds. */
  lemma {:induction false} BackoffExact(failures: nat)
    requires failures > 0
    ensures Backoff(failures) == if 1_000 * Power2(failures - 1) < 30_000 then 1_000 * Power2(failures - 1) else 30_000
  {
    if failures > 1 {
      BackoffExact(failures - 1);
    }
  }

  /** The fault of a turn strikes: it times out, or one of its windows meets a failing broadcast or
      failing queues. */
  ghost predicate Strikes(o: Outcome, windows: seq<seq<Record>>, i: nat) {
    o.Timeout? || (i <= o.faultyWindow < i + |windows|
                   && (o.fault.EnqueueFails? || (o.fault.PublishFails? && o.fault.at < |windows[o.faultyWindow - i]|)))
  }

  lemma {:induction false} WindowsFailIff(s: State, account: string, cursor: int, windows: seq<seq<Record>>, i: nat, o: Outcome)
    requires o.Answer?
    ensures ProcessWindows(s, account, cursor, windows, i, o).1 <==> !Strikes(o, windows, i)
    decreases |windows|
  {
    if windows != [] {
      var (t, ok) := ProcessWindow(s, account, cursor, windows[0], FaultAt(o, i));
      UnfoldWindows(s, account, cursor, windows, i, o, t, ok);
      WindowsFailIff(t, account, cursor, windows[1..], i + 1, o);
    }
  }

  /** A turn fails if and only if its fault strikes one of the page's windows. */
  lemma TurnFailsIff(s: State, history: History, account: string, o: Outcome)
    requires account in s.cursors
    ensures PollAccount(s, history, account, o).1
            <==> o.Answer? && !Strikes(o, Windows(PageOf(RecordsOf(history, account), s.cursors[account], o.upto)), 0)
  {
    if o.Answer? {
      WindowsFailIff(s, account, s.cursors[account], Windows(PageOf(RecordsOf(history, account), s.cursors[account], o.upto)), 0, o);
    }
  }

  /** The `i`-th account's turn of a poll fails. */
  ghost predicate FailsAt(s: State, history: History, accounts: seq<string>, outcomes: map<string, Outcome>, i: nat)
    requires i < |accounts|
  {
    var t := PollAll(s, history, accounts[..i], outcomes).0;
    accounts[i] in t.cursors && !PollAccount(t, history, accounts[i], OutcomeFor(outcomes, accounts[i])).1
  }

  lemma {:induction false} PollFailsIff(s: State, history: History, accounts: seq<string>, outcomes: map<string, Outcome>)
    ensures PollAll(s, history, accounts, outcomes).1
            <==> exists i :: 0 <= i < |accounts| && FailsAt(s, history, accounts, outcomes, i)
  {
    if accounts != [] {
      var n := |accounts| - 1;
      var before := accounts[..n];
      PollFailsIff(s, history, before, outcomes);
      assert forall i :: 0 <= i < n ==> before[..i] == accounts[..i];
      assert forall i :: 0 <= i < n ==> (FailsAt(s, history, before, outcomes, i) <==> FailsAt(s, history, accounts, outcomes, i));
      assert PollAll(s, history, accounts, outcomes).1
             <==> PollAll(s, history, before, outcomes).1 || FailsAt(s, history, accounts, outcomes, n);
    }
  }

  /** A poll before its time does nothing; one in which some account's turn fails counts a failure and
      puts the next one off by that many doublings of a second, at most thirty; any other clears both. */
  lemma PollBacksOff(p: Poller, history: History, poll: Poll)
    ensures var q := PollOnce(p, history, poll);
            var wait := 1_000 * Power2(p.consecutiveFailures);
            if poll.now < p.nextAttemptAt then q == p
            else if exists i :: 0 <= i < |p.core.tracked| && FailsAt(p.core, history, p.core.tracked, poll.outcomes, i) then
              && q.consecutiveFailures == p.consecutiveFailures + 1
              && q.nextAttemptAt == poll.later + if wait < 30_000 then wait else 30_000
            else q.consecutiveFailures == 0 && q.nextAttemptAt == 0
  {
    PollFailsIff(p.core, history, p.core.tracked, poll.outcomes);
    BackoffExact(p.consecutiveFailures + 1);
  }

  function Fees(token: int, ledger: int): Record {
    Record(token, Some(ledger), FeesCollected, None, None, "", "", "", "recipient", "", "")
  }

  lemma ThreeRecordPage(a: Record, b: Record, c: Record)
    requires a.token == 1 && b.token == 2 && c.token == 3
    ensures PageOf([a, b, c], 0, 3) == [a, b, c]
  {
    assert [a, b, c][..2] == [a, b] && [a, b][..1] == [a] && [a][..0] == [];
    assert After([a], 0, 3) == [a];
    assert After([a, b], 0, 3) == [a, b];
    assert After([a, b, c], 0, 3) == [a, b, c];
  }

  lemma ThreeRecordGroups(a: Record, b: Record, c: Record)
    requires a.ledger == c.ledger != b.ledger
    ensures Windows([a, b, c]) == [[a, c], [b]]
  {
    assert [a, b, c][..2] == [a, b] && [a, b][..1] == [a] && [a][..0] == [];
    assert [] + [a] == [a] && [] + [b] == [b] && [a] + [c] == [a, c];
    var g1 := [Entry(a.ledger, [a])];
    assert Group([a]) == AddToGroup([], a) == g1;
    var g2 := [Entry(a.ledger, [a]), Entry(b.ledger, [b])];
    SetAbsent(g1, b.ledger, [b]);
    assert Group([a, b]) == AddToGroup(g1, b) == g2;
    assert g2[1..] == [Entry(b.ledger, [b])];
    assert Group([a, b, c]) == AddToGroup(g2, c) == [Entry(a.ledger, [a, c]), Entry(b.ledger, [b])];
  }

  lemma TwoJobs(a: Record, c: Record)
    requires BuildJob(a, "pool").Some? && BuildJob(c, "pool").Some?
    ensures BuildJobs([a, c], "pool", ALL_KINDS) == [BuildJob(a, "pool").value, BuildJob(c, "pool").value]
  {
    assert [a, c][..1] == [a] && [a][..0] == [];
    EveryKind(a.kind);
    EveryKind(c.kind);
    assert BuildJobs([a], "pool", ALL_KINDS) == [BuildJob(a, "pool").value];
  }

  lemma {:induction false} NoDiscovery(s: State, records: seq<Record>)
    requires forall i :: 0 <= i < |records| ==> records[i].kind != PoolCreated
    ensures DiscoverAll(s, records, 0) == s
  {
    if records != [] {
      NoDiscovery(s, records[..|records| - 1]);
    }
  }

  /** The windows are the two records of the ledger that returns, then the one in between. */
  lemma ReturningWindows(history: History, a: Record, b: Record, c: Record)
    requires a == Fees(1, 1) && b == Fees(2, 2) && c == Fees(3, 1) && history == map["pool" := [a, b, c]]
    ensures Windows(PageOf(RecordsOf(history, "pool"), 0, 3)) == [[a, c], [b]]
  {
    ThreeRecordPage(a, b, c);
    ThreeRecordGroups(a, b, c);
    assert PageOf(RecordsOf(history, "pool"), 0, 3) == [a, b, c];
  }

  lemma NoJobYet(b: Record)
    ensures BuildJobs([b][..0], "pool", {}) == []
  {
    assert [b][..0] == [];
  }

  /** Page order matters: when a ledger comes back after another one, its window carries the cursor
      past the other ledger's records, and a queue failing next leaves them behind for good. */
  lemma ReturningLedgerSkipsRecord()
    ensures var a, b, c := Fees(1, 1), Fees(2, 2), Fees(3, 1);
            var history := map["pool" := [a, b, c]];
            var s := PollAccount(StartAt(["pool"], 0).core, history, "pool", Answer(3, 1, EnqueueFails({}))).0;
            "pool" in s.cursors && s.cursors["pool"] == 3 && !Handled(s.queued, b, "pool")
  {
    var a, b, c := Fees(1, 1), Fees(2, 2), Fees(3, 1);
    var history := map["pool" := [a, b, c]];
    var s, o := StartAt(["pool"], 0).core, Answer(3, 1, EnqueueFails({}));
    ReturningWindows(history, a, b, c);
    var windows := [[a, c], [b]];
    var first := ProcessWindow(s, "pool", 0, [a, c], NoFault).0;
    TwoJobs(a, c);
    NoDiscovery(s, [a, c]);
    assert first.queued == [BuildJob(a, "pool").value, BuildJob(c, "pool").value];
    UnfoldWindows(s, "pool", 0, windows, 0, o, first, true);
    NoDiscovery(first, [b]);
    NoJobYet(b);
    var second := ProcessWindow(first, "pool", 0, [b], FaultAt(o, 1));
    UnfoldWindows(first, "pool", 0, windows[1..], 1, o, second.0, second.1);
  }
}
