/** Which accounts the Horizon poller comes to poll, and from where. */
module HorizonAccounts {
  import opened Horizon
  import opened HorizonTurns
  import opened Wrappers

  /** The record announces the pool. */
  ghost predicate Announces(r: Record, p: string) {
    r.kind == PoolCreated && r.poolId == Some(p) && p != ""
  }

  /** The records of a window add exactly the pools they announce, each from the page's own cursor;
      known accounts stay where they are, and nothing is queued. */
  lemma {:induction false} DiscoveryEffect(s: State, records: seq<Record>, cursor: int)
    ensures var t := DiscoverAll(s, records, cursor);
            && (forall p :: p in t.tracked <==> p in s.tracked || exists r :: r in records && Announces(r, p))
            && (forall p :: p in t.tracked && p !in s.tracked ==> p in t.cursors && t.cursors[p] == cursor)
            && (forall p :: p in s.tracked && p in s.cursors ==> p in t.cursors && t.cursors[p] == s.cursors[p])
            && t.queued == s.queued
  {
    if records != [] {
      var before, last := records[..|records| - 1], records[|records| - 1];
      DiscoveryEffect(s, before, cursor);
      assert records == before + [last];
      assert forall r :: r in records <==> r in before || r == last;
      var d, t := DiscoverAll(s, before, cursor), DiscoverAll(s, records, cursor);
      forall p ensures p in t.tracked <==> p in s.tracked || exists r :: r in records && Announces(r, p) {
        assert p in t.tracked <==> p in d.tracked || Announces(last, p);
      }
    }
  }

  // ----- whole runs --------------------------------------------------------------

  ghost predicate AnnouncedIn(history: History, p: string) {
    exists b, r :: b in history && r in history[b] && Announces(r, p)
  }

  ghost predicate TrackedKnown(s: State, accounts: seq<string>, history: History) {
    forall p :: p in s.tracked ==> p in accounts || AnnouncedIn(history, p)
  }

  lemma DiscoveryKnown(s: State, accounts: seq<string>, history: History, account: string, records: seq<Record>, cursor: int)
    requires TrackedKnown(s, accounts, history) && forall r :: r in records ==> r in RecordsOf(history, account)
    ensures TrackedKnown(DiscoverAll(s, records, cursor), accounts, history)
  {
    DiscoveryEffect(s, records, cursor);
    forall p | p in DiscoverAll(s, records, cursor).tracked && p !in s.tracked ensures AnnouncedIn(history, p) {
      var r :| r in records && Announces(r, p);
      assert account in history && r in history[account];
    }
  }

  lemma WindowKnown(s: State, accounts: seq<string>, history: History, account: string, cursor: int, window: seq<Record>, fault: WindowFault)
    requires TrackedKnown(s, accounts, history) && forall r :: r in window ==> r in RecordsOf(history, account)
    ensures TrackedKnown(ProcessWindow(s, account, cursor, window, fault).0, accounts, history)
  {
    DiscoveryKnown(s, accounts, history, account, window, cursor);
    if fault.PublishFails? && fault.at < |window| {
      DiscoveryKnown(s, accounts, history, account, window[..fault.at], cursor);
    }
  }

  ghost predicate WindowsRead(windows: seq<seq<Record>>, history: History, account: string) {
    forall k, r :: 0 <= k < |windows| && r in windows[k] ==> r in RecordsOf(history, account)
  }

  lemma {:induction false} WindowsKnown(s: State, accounts: seq<string>, history: History, account: string, cursor: int,
                                        windows: seq<seq<Record>>, i: nat, o: Outcome)
    requires TrackedKnown(s, accounts, history) && WindowsRead(windows, history, account)
    ensures TrackedKnown(ProcessWindows(s, account, cursor, windows, i, o).0, accounts, history)
    decreases |windows|
  {
    if windows != [] {
      var (t, ok) := ProcessWindow(s, account, cursor, windows[0], FaultAt(o, i));
      WindowKnown(s, accounts, history, account, cursor, windows[0], FaultAt(o, i));
      UnfoldWindows(s, account, cursor, windows, i, o, t, ok);
      WindowsKnown(t, accounts, history, account, cursor, windows[1..], i + 1, o);
    }
  }

  lemma TurnKnown(s: State, accounts: seq<string>, history: History, account: string, o: Outcome)
    requires TrackedKnown(s, accounts, history) && AscendingHistory(history) && account in s.cursors
    ensures TrackedKnown(PollAccount(s, history, account, o).0, accounts, history)
  {
    if o.Answer? {
      var cursor := s.cursors[account];
      PageMembers(RecordsOf(history, account), cursor, o.upto);
      WindowsOfPage(PageOf(RecordsOf(history, account), cursor, o.upto));
      WindowsKnown(s, accounts, history, account, cursor, Windows(PageOf(RecordsOf(history, account), cursor, o.upto)), 0, o);
    }
  }

  lemma {:induction false} PollKnown(s: State, accounts: seq<string>, history: History, turns: seq<string>, outcomes: map<string, Outcome>)
    requires TrackedKnown(s, accounts, history) && AscendingHistory(history)
    ensures TrackedKnown(PollAll(s, history, turns, outcomes).0, accounts, history)
  {
    if turns != [] {
      var before, last := turns[..|turns| - 1], turns[|turns| - 1];
      PollKnown(s, accounts, history, before, outcomes);
      var t := PollAll(s, history, before, outcomes).0;
      if last in t.cursors {
        TurnKnown(t, accounts, history, last, OutcomeFor(outcomes, last));
      }
    }
  }

  /** In every run the accounts polled are the ones it started with and pools announced in Horizon's
      records. */
  lemma {:induction false} OnlyAnnouncedPolled(accounts: seq<string>, cursor: int, history: History, polls: seq<Poll>)
    requires AscendingHistory(history)
    ensures TrackedKnown(RunPolls(StartAt(accounts, cursor), history, polls).core, accounts, history)
  {
    if polls != [] {
      var before, last := polls[..|polls| - 1], polls[|polls| - 1];
      OnlyAnnouncedPolled(accounts, cursor, history, before);
      var s := RunPolls(StartAt(accounts, cursor), history, before).core;
      PollKnown(s, accounts, history, s.tracked, last.outcomes);
    }
  }
}
