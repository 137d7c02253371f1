/** When every run of the Horizon poller can be trusted to pass no record, whatever the faults, the
    accounts it starts with and the cursor it starts from. */
module HorizonRuns {
  import opened Horizon
  import opened HorizonTurns

  /** Every record carries the fields its queue asks for. */
  ghost predicate AllHaveFields(history: History) {
    forall a, r :: a in history && r in history[a] ==> HasFields(r)
  }

  /** The record's job is in the queues. */
  ghost predicate Queued(queued: seq<Job>, r: Record, account: string) {
    exists j :: j in queued && IsJobOf(j, r, account)
  }

  /** Handled is queued, for a record that has its fields. */
  lemma HandledIff(queued: seq<Job>, r: Record, account: string)
    ensures Handled(queued, r, account) <==> (HasFields(r) ==> Queued(queued, r, account))
  {
    BuiltIff(r, account);
  }

  /** Every record an account's cursor has passed since it began is in the queues. */
  ghost predicate PassedAllQueued(s: State, history: History) {
    forall a, r :: a in s.tracked && a in s.cursors && a in s.starts
                   && r in RecordsOf(history, a) && s.starts[a] < r.token <= s.cursors[a] ==>
      Queued(s.queued, r, a)
  }

  ghost predicate RunSafe(history: History, accounts: seq<string>, cursor: int, polls: seq<Poll>) {
    PassedAllQueued(RunPolls(StartAt(accounts, cursor), history, polls).core, history)
  }

  ghost predicate EveryRunSafe(history: History) {
    forall accounts, cursor, polls :: RunSafe(history, accounts, cursor, polls)
  }

  // ----- a page made to order ----------------------------------------------------

  lemma SliceIsStretch(records: seq<Record>, found: seq<Record>, p: nat, i: nat, k: nat)
    requires AscendingTokens(records) && i <= k < |records| && p + |found| <= |records|
    requires found == records[p..p + |found|] && records[i] in found && records[k] in found
    requires records[i].token <= found[0].token && found[|found| - 1].token <= records[k].token
    ensures found == records[i..k + 1]
  {
    PlaceInSlice(records, p, |found|, i);
    PlaceInSlice(records, p, |found|, k);
    assert found[0] == records[p] && found[|found| - 1] == records[p + |found| - 1];
  }

  lemma ShownBetween(records: seq<Record>, cursor: int, upto: int, i: nat, k: nat)
    requires AscendingTokens(records) && i <= k < |records| && cursor == records[i].token - 1 && upto == records[k].token
    ensures var found := After(records, cursor, upto);
            && records[i] in found && records[k] in found
            && records[i].token <= found[0].token && found[|found| - 1].token <= records[k].token
  {
    AfterMembers(records, cursor, upto);
    assert records[i] in records && records[k] in records && records[i].token <= records[k].token;
    AfterBounds(records, cursor, upto, 0);
    AfterBounds(records, cursor, upto, |After(records, cursor, upto)| - 1);
  }

  /** From just before one record up to another, Horizon shows exactly the stretch between them. */
  lemma StretchShown(records: seq<Record>, cursor: int, upto: int, i: nat, k: nat)
    requires AscendingTokens(records) && i <= k < |records| && cursor == records[i].token - 1 && upto == records[k].token
    ensures After(records, cursor, upto) == records[i..k + 1]
  {
    var p := AfterIsSlice(records, cursor, upto);
    ShownBetween(records, cursor, upto, i, k);
    SliceIsStretch(records, After(records, cursor, upto), p, i, k);
  }

  lemma PageShown(records: seq<Record>, i: nat, k: nat)
    requires AscendingTokens(records) && i <= k < |records| && k < i + PAGE_LIMIT
    ensures PageOf(records, records[i].token - 1, records[k].token) == records[i..k + 1]
  {
    StretchShown(records, records[i].token - 1, records[k].token, i, k);
  }

  lemma BrokenStretch(records: seq<Record>, i: nat, j: nat, k: nat)
    requires i < j < k < |records| && records[i].ledger == records[k].ledger != records[j].ledger
    ensures !Contiguous(records[i..k + 1])
  {
    var page := records[i..k + 1];
    assert page[0] == records[i] && page[j - i] == records[j] && page[k - i] == records[k];
  }

  lemma BrokenPage(records: seq<Record>, i: nat, j: nat, k: nat)
    requires AscendingTokens(records) && i < j < k < |records| && k < i + PAGE_LIMIT
    requires records[i].ledger == records[k].ledger != records[j].ledger
    ensures !Contiguous(PageOf(records, records[i].token - 1, records[k].token))
  {
    PageShown(records, i, k);
    BrokenStretch(records, i, j, k);
  }

  lemma StretchApart(records: seq<Record>) returns (i: nat, j: nat, k: nat)
    requires !ContiguousWithin(records, PAGE_LIMIT)
    ensures i < j < k < |records| && k < i + PAGE_LIMIT && records[i].ledger == records[k].ledger != records[j].ledger
  {
    i, j, k :| i < j < k < |records| && k < i + PAGE_LIMIT && records[i].ledger == records[k].ledger != records[j].ledger;
  }

  // ----- a run of one poll -------------------------------------------------------

  /** The first poll of one account is one turn of it. */
  lemma FirstPollIsTurn(history: History, a: string, cursor: int, o: Outcome)
    ensures var s := StartAt([a], cursor).core;
            && a in s.cursors && s.cursors[a] == cursor
            && RunPolls(StartAt([a], cursor), history, [Poll(0, 0, map[a := o])]).core == PollAccount(s, history, a, o).0
  {
    var start, poll := StartAt([a], cursor), Poll(0, 0, map[a := o]);
    assert [poll][..0] == [] && [a][..0] == [];
    assert RunPolls(start, history, []) == start;
    assert RunPolls(start, history, [poll]) == PollOnce(start, history, poll);
    assert PollAll(start.core, history, [], poll.outcomes) == (start.core, false);
    assert OutcomeFor(poll.outcomes, a) == o;
  }

  /** A turn leaves its account where it began, as far as its start goes. */
  lemma TurnKeepsStart(s: State, history: History, a: string, o: Outcome)
    requires AscendingHistory(history) && a in s.tracked && a in s.cursors && a in s.starts
    ensures StillThere(s, PollAccount(s, history, a, o).0, a)
  {
    if o.Answer? {
      var page := PageOf(RecordsOf(history, a), s.cursors[a], o.upto);
      PageMembers(RecordsOf(history, a), s.cursors[a], o.upto);
      WindowsOfPage(page);
      var f := StopsSomewhere(s, a, s.cursors[a], Windows(page), 0, o);
    }
  }

  lemma UnsafeTurnUnsafeState(s: State, t: State, history: History, a: string, o: Outcome)
    requires a in s.cursors && a in s.starts && s.starts[a] == s.cursors[a] && !TurnSafe(s, history, a, o)
    requires t == PollAccount(s, history, a, o).0 && StillThere(s, t, a)
    requires forall r :: r in RecordsOf(history, a) ==> HasFields(r)
    ensures !PassedAllQueued(t, history)
  {
    var r :| r in RecordsOf(history, a) && s.cursors[a] < r.token <= t.cursors[a] && !Handled(t.queued, r, a);
    HandledIff(t.queued, r, a);
  }

  /** The service at its start, with one account. */
  function Started(a: string, cursor: int): (s: State)
    ensures s.tracked == [a] && a in s.cursors && a in s.starts && s.starts[a] == s.cursors[a] == cursor && s.queued == []
  {
    StartAt([a], cursor).core
  }

  lemma UnsafeTurnUnsafeRun(history: History, a: string, cursor: int, o: Outcome)
    requires AscendingHistory(history) && AllHaveFields(history) && !TurnSafe(Started(a, cursor), history, a, o)
    ensures !RunSafe(history, [a], cursor, [Poll(0, 0, map[a := o])])
  {
    var s := Started(a, cursor);
    FirstPollIsTurn(history, a, cursor, o);
    TurnKeepsStart(s, history, a, o);
    UnsafeTurnUnsafeState(s, PollAccount(s, history, a, o).0, history, a, o);
  }

  lemma BrokenPageUnsafe(history: History, a: string, cursor: int, upto: int) returns (o: Outcome)
    requires AscendingHistory(history) && AllHaveFields(history) && a in history
    requires !Contiguous(PageOf(history[a], cursor, upto))
    ensures !TurnSafe(Started(a, cursor), history, a, o)
  {
    var s := Started(a, cursor);
    StartSatisfiesInv([a], cursor, history);
    PageMembers(history[a], cursor, upto);
    forall r | r in PageOf(history[a], cursor, upto) ensures BuildsNewJob(r, a, s.queued) {
      BuiltIff(r, a);
    }
    TurnsSafeIffContiguous(s, history, a, upto);
    var i: nat, fault: WindowFault :| !TurnSafe(s, history, a, Answer(upto, i, fault));
    o := Answer(upto, i, fault);
  }

  /** A ledger apart from itself within one page's length loses a record in some run. */
  lemma BrokenHistoryUnsafe(history: History, a: string)
    requires AscendingHistory(history) && AllHaveFields(history) && a in history
    requires !ContiguousWithin(history[a], 50)
    ensures !EveryRunSafe(history)
  {
    var records := history[a];
    var i, j, k := StretchApart(records);
    BrokenPage(records, i, j, k);
    var o := BrokenPageUnsafe(history, a, records[i].token - 1, records[k].token);
    UnsafeTurnUnsafeRun(history, a, records[i].token - 1, o);
  }

  /** In every run over histories where no page-sized stretch has a ledger's records apart: each record
      between an account's start and its cursor that has its fields is in the queues, and each job in
      the queues is that of such a record of a tracked account. */
  lemma RecordsWithFieldsQueued(accounts: seq<string>, cursor: int, history: History, polls: seq<Poll>)
    requires OrderedHistory(history)
    ensures var s := RunPolls(StartAt(accounts, cursor), history, polls).core;
            && (forall a, r :: a in s.tracked && a in s.cursors && a in s.starts && r in RecordsOf(history, a)
                               && s.starts[a] < r.token <= s.cursors[a] && HasFields(r) ==>
                  Queued(s.queued, r, a))
            && (forall j :: j in s.queued ==>
                  j.account in s.tracked && j.source in RecordsOf(history, j.account)
                  && HasFields(j.source) && IsJobOf(j, j.source, j.account))
  {
    StartSatisfiesInv(accounts, cursor, history);
    RunKeepsInv(StartAt(accounts, cursor), history, polls);
    var s := RunPolls(StartAt(accounts, cursor), history, polls).core;
    forall j | j in s.queued ensures HasFields(j.source) && IsJobOf(j, j.source, j.account) {
      assert Genuine(j, s, history);
      BuiltIff(j.source, j.account);
    }
    forall a, r | a in s.tracked && a in s.cursors && a in s.starts && r in RecordsOf(history, a)
                  && s.starts[a] < r.token <= s.cursors[a] && HasFields(r) ensures Queued(s.queued, r, a) {
      assert Covered(s, history, a);
      HandledIff(s.queued, r, a);
    }
  }

  lemma OrderedRunSafe(history: History, accounts: seq<string>, cursor: int, polls: seq<Poll>)
    requires OrderedHistory(history) && AllHaveFields(history)
    ensures RunSafe(history, accounts, cursor, polls)
  {
    RecordsWithFieldsQueued(accounts, cursor, history, polls);
  }

  /** Where every record has its fields: no run, whatever it starts from and whatever faults it meets,
      passes a record without queueing it, if and only if no account has a ledger's records apart
      within any stretch of fifty, the length of a page. */
  lemma EveryRunSafeIff(history: History)
    requires AscendingHistory(history) && AllHaveFields(history)
    ensures EveryRunSafe(history) <==> forall a :: a in history ==> ContiguousWithin(history[a], 50)
  {
    if OrderedHistory(history) {
      forall accounts, cursor, polls ensures RunSafe(history, accounts, cursor, polls) {
        OrderedRunSafe(history, accounts, cursor, polls);
      }
    } else {
      var a :| a in history && !ContiguousWithin(history[a], PAGE_LIMIT);
      BrokenHistoryUnsafe(history, a);
    }
  }
}
