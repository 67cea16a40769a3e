/** Exactly when the shown tail has a hole. */
module TailHoles {
  import opened MessageOrder
  import opened MessageWindow
  import opened MessageTable
  import opened TailRecovery
  import opened Wrappers

  /** The rows that a recovery still has to show, or that one left behind. */
  function Missing(s: Tail): set<Row> {
    s.Pending() + s.lost
  }

  ghost predicate OlderShown(s: Tail, row: Row) {
    exists older :: older in s.Shown() && IsMessageOrderNewer(row.key, older.key)
  }

  /** Below each of them a row is shown. */
  ghost predicate HolesInside(s: Tail) {
    forall row :: row in Missing(s) ==> OlderShown(s, row)
  }

  lemma FewerMissing(s: Tail, s': Tail)
    requires HolesInside(s) && Missing(s') <= Missing(s) && s.Shown() <= s'.Shown()
    ensures HolesInside(s')
  {
    forall row | row in Missing(s') ensures OlderShown(s', row) { assert OlderShown(s, row); }
  }

  lemma BeyondFetch(burst: seq<Row>, seen: seq<Row>, i: nat)
    requires IsWindow(burst + seen) && MESSAGE_HISTORY_FETCH_SIZE <= i < |burst|
    ensures burst[i] !in seen && burst[i] !in Authoritative(burst + seen)
    ensures seen != [] ==> IsMessageOrderNewer(burst[i].key, seen[0].key)
  {
    DisjointIds(burst, seen);
    assert burst[i] in burst;
    assert Authoritative(burst + seen) == burst[..MESSAGE_HISTORY_FETCH_SIZE];
    assert forall k :: 0 <= k < MESSAGE_HISTORY_FETCH_SIZE ==> burst[k] != burst[i];
  }

  lemma OldHeadStaysShown(s: Tail)
    requires Shape(s) && s.seen != []
    ensures s.seen[0] in AfterLiveResult(s).Shown()
  {
    OldPageStaysShown(s);
    assert s.tail[0] == s.seen[0];
  }

  lemma LiveKeepsHolesInside(s: Tail)
    requires Inv(s) && HolesInside(s)
    ensures HolesInside(AfterLiveResult(s))
  {
    var s' := AfterLiveResult(s);
    LiveGap(s);
    ShownOnlyGrows(s);
    if Overruns(s) {
      SuffixRows(s.seen, s.table);
      OldHeadStaysShown(s);
      forall row | row in Missing(s') ensures OlderShown(s', row) {
        if row in Missing(s) {
          assert OlderShown(s, row);
        } else {
          var i :| MESSAGE_HISTORY_FETCH_SIZE <= i < |Burst(s)| && Burst(s)[i] == row;
          BeyondFetch(Burst(s), s.seen, i);
        }
      }
    } else {
      FewerMissing(s, s');
    }
  }

  lemma SameMissing(s: Tail, s': Tail)
    requires SameBase(s, s')
    ensures Missing(s') == Missing(s)
  {}

  lemma OlderKeepsHolesInside(s: Tail, s': Tail)
    requires HolesInside(s) && SameBase(s, s') && s.Shown() <= s'.Shown()
    ensures HolesInside(s')
  {
    SameMissing(s, s');
    FewerMissing(s, s');
  }

  lemma AddedShows(s: Tail, s': Tail, rows: seq<Row>)
    requires Shape(s) && RowSet(rows) <= RowSet(s.seen) && s'.tail == s.tail && s'.history == AddToHistory(s.history, rows)
    ensures s.Shown() <= s'.Shown()
  {
    SuffixRows(s.seen, s.table);
    AddToHistoryRows(s.seen, s.history, rows);
  }

  lemma PageShows(s: Tail)
    requires Inv(s) && s.request.Some?
    ensures SameBase(s, AfterPage(s)) && s.Shown() <= AfterPage(s).Shown()
  {
    var at :| at in s.Shown() + RowSet(s.prefetch) && at.key == s.request.value;
    PageExtendsBuffer(s, at);
    PageFields(s);
    var expanded := Merge(s.prefetch, Take(Where(s.table, StrictlyOlder(at.key)), MESSAGE_HISTORY_FETCH_SIZE));
    var n := if s.showOnArrival then MESSAGES_PAGE_SIZE else 0;
    TakeRows(expanded, n);
    AddedShows(s, AfterPage(s), Take(expanded, n));
  }

  lemma ShowOlderShows(s: Tail)
    requires Inv(s)
    ensures SameBase(s, AfterShowOlder(s)) && s.Shown() <= AfterShowOlder(s).Shown()
  {
    if s.prefetch != [] {
      TakeRows(s.prefetch, MESSAGES_PAGE_SIZE);
      AddedShows(s, AfterShowOlder(s), Take(s.prefetch, MESSAGES_PAGE_SIZE));
    } else {
      RequestFields(s, true);
    }
  }

  lemma RerunKeepsHolesInside(s: Tail)
    requires Inv(s) && HolesInside(s)
    ensures HolesInside(AfterRerun(s))
  {
    var before := s.(table := s.seen);
    AsLastSeen(s);
    RerunKeepsInv(s);
    FewerMissing(s, before);
    LiveKeepsHolesInside(before);
    FewerMissing(AfterLiveResult(before), AfterRerun(s));
  }

  lemma StepKeepsHolesInside(s: Tail, e: Event)
    requires Inv(s) && HolesInside(s)
    ensures HolesInside(Step(s, e))
  {
    match e
    case HeadInsert(row) =>
      if IsWindow([row] + s.table) {
        GrowthKeepsInv(s, [row]);
        FewerMissing(s, s.(table := [row] + s.table));
      }
    case LiveResult => LiveKeepsHolesInside(s);
    case Rerun => RerunKeepsHolesInside(s);
    case GapPage =>
      if s.gap.Some? {
        GapPageMoves(s);
        FewerMissing(s, Step(s, e));
      }
    case GapAbandoned => FewerMissing(s, Step(s, e));
    case ShowOlder =>
      ShowOlderShows(s);
      OlderKeepsHolesInside(s, Step(s, e));
    case RequestOlder(show) =>
      RequestFields(s, show);
      OlderKeepsHolesInside(s, Step(s, e));
    case PageArrives =>
      if s.request.Some? {
        PageShows(s);
        OlderKeepsHolesInside(s, Step(s, e));
      }
    case PageFails => OlderKeepsHolesInside(s, Step(s, e));
  }

  lemma {:induction false} RunKeepsHolesInside(s: Tail, events: seq<Event>)
    requires Inv(s) && HolesInside(s)
    ensures Inv(Run(s, events)) && HolesInside(Run(s, events))
    decreases |events|
  {
    if events != [] {
      StepKeepsInv(s, events[0]);
      StepKeepsHolesInside(s, events[0]);
      RunKeepsHolesInside(Step(s, events[0]), events[1..]);
    }
  }

  lemma ReachableHoles(s: Tail)
    requires Reachable(s)
    ensures Inv(s) && HolesInside(s)
  {
    var start, events :| IsStart(start) && s == Run(start, events);
    StartInv(start);
    RunKeepsHolesInside(start, events);
  }

  /** No row of the last live result is missing above a shown one. */
  ghost predicate NoHole(s: Tail) {
    NewerClosed(s.seen, RowSet(s.Exposed()))
  }

  lemma HoleFreeExactlyWhenShown(s: Tail)
    requires Inv(s) && HolesInside(s)
    ensures NoHole(s) <==> Missing(s) <= s.Shown()
  {
    ShownFromSeen(s);
    SettledFromSeen(s);
    if Missing(s) <= s.Shown() {
      assert s.Settled() == s.Shown();
    } else {
      var row :| row in Missing(s) && row !in s.Shown();
      assert OlderShown(s, row);
      var older :| older in s.Shown() && IsMessageOrderNewer(row.key, older.key);
      assert row in s.Settled() && row in s.seen && older in RowSet(s.Exposed());
    }
  }

  /** In every run: the list has a hole exactly when a row is missing that a recovery in progress is
      still to show, or that an abandoned one left behind and no later page has shown. */
  lemma TailHasNoHole(s: Tail)
    requires Reachable(s)
    ensures RowSet(s.Exposed()) == s.Shown()
    ensures NoHole(s) <==> Missing(s) <= s.Shown()
    ensures s.gap.None? ==> (NoHole(s) <==> s.lost <= s.Shown())
  {
    ReachableHoles(s);
    ShownFromSeen(s);
    HoleFreeExactlyWhenShown(s);
  }

  /** While a recovery is pending, the rows it is still going to show are the only ones missing. */
  lemma OnlyPendingIsMissing(s: Tail, row: Row, other: Row)
    requires Reachable(s) && s.lost <= s.Shown()
    requires row in s.Exposed() && other in s.seen && IsMessageOrderNewer(other.key, row.key)
    ensures other in s.Exposed() || other in s.Pending()
  {
    ReachableInv(s);
    ShownFromSeen(s);
    assert row in RowSet(s.Exposed()) && RowSet(s.Exposed()) == s.Shown();
    assert other in s.Settled();
  }

  // ----- abandoned recoveries

  lemma ShownIsOldOrFetched(s: Tail, row: Row)
    requires Shape(s) && row in AfterLiveResult(s).Shown()
    ensures row in s.seen || row in Authoritative(s.table)
  {
    LiveShown(s);
    PagesOfTable(s.table);
    ShownFromSeen(s);
    TakeRows(Authoritative(s.table), MESSAGES_PAGE_SIZE);
    if row in ToExpose(s) {
      ToExposeMembers(s.tail, NewTail(s), Authoritative(s.table), Merge(NewTail(s), s.history), row);
      if row in s.tail { assert row in s.Shown(); }
      else { assert row in RowSet(Drop(Authoritative(s.table), MESSAGES_PAGE_SIZE)); }
    } else if row in s.history {
      assert row in RowSet(s.seen);
    } else {
      assert row in RowSet(NewTail(s));
    }
  }

  lemma RunCons(s: Tail, e: Event, rest: seq<Event>)
    ensures Run(s, [e] + rest) == Run(Step(s, e), rest)
  {
    var all := [e] + rest;
    assert all != [] && all[0] == e && all[1..] == rest;
    assert Run(s, all) == Run(Step(s, all[0]), all[1..]);
  }

  lemma ResultThenAbandon(s: Tail)
    ensures Run(s, [LiveResult, GapAbandoned]) == Abandon(AfterLiveResult(s))
  {
    assert [LiveResult, GapAbandoned] == [LiveResult] + ([GapAbandoned] + []);
    RunCons(s, LiveResult, [GapAbandoned] + []);
    RunCons(AfterLiveResult(s), GapAbandoned, []);
  }

  /** After a live result of a complete list, exactly the burst beyond one fetch is not shown. */
  lemma BurstBeyondFetchIsMissing(s: Tail)
    requires Inv(s) && s.gap.None? && s.lost <= s.Shown() && s.seen != []
    ensures Missing(AfterLiveResult(s)) <= AfterLiveResult(s).Shown() <==> |Burst(s)| <= MESSAGE_HISTORY_FETCH_SIZE
  {
    LiveGap(s);
    ShownOnlyGrows(s);
    if |Burst(s)| > MESSAGE_HISTORY_FETCH_SIZE {
      var missing := Burst(s)[MESSAGE_HISTORY_FETCH_SIZE];
      SuffixRows(s.seen, s.table);
      InRest(Burst(s), MESSAGE_HISTORY_FETCH_SIZE, MESSAGE_HISTORY_FETCH_SIZE);
      BeyondFetch(Burst(s), s.seen, MESSAGE_HISTORY_FETCH_SIZE);
      if missing in AfterLiveResult(s).Shown() { ShownIsOldOrFetched(s, missing); }
      assert missing in Missing(AfterLiveResult(s)) && missing !in AfterLiveResult(s).Shown();
    }
  }

  lemma AbandonMissing(s: Tail)
    ensures Missing(Abandon(s)) == Missing(s) && Abandon(s).Shown() == s.Shown()
  {
    assert Abandon(s).Pending() == {};
  }

  /** Abandoning a recovery, whether its query failed or another burst superseded it, shows nothing
      and changes nothing else: the hole it was filling stays. */
  lemma AbandonKeepsTheHole(s: Tail)
    requires Inv(s) && HolesInside(s)
    ensures Inv(Abandon(s)) && HolesInside(Abandon(s)) && Abandon(s).Shown() == s.Shown()
    ensures NoHole(Abandon(s)) <==> Missing(s) <= s.Shown()
  {
    AbandonKeepsInv(s);
    AbandonMissing(s);
    FewerMissing(s, Abandon(s));
    HoleFreeExactlyWhenShown(Abandon(s));
  }

  /** From any complete list, a live result whose recovery is abandoned leaves a hole exactly when its
      burst exceeds one fetch. */
  lemma AbandonedRecoveryLeavesHole(s: Tail)
    requires Reachable(s) && s.gap.None? && s.lost <= s.Shown() && s.seen != []
    ensures |s.seen| <= |s.table|
    ensures NoHole(Run(s, [LiveResult, GapAbandoned])) <==> |Burst(s)| <= MESSAGE_HISTORY_FETCH_SIZE
  {
    ReachableHoles(s);
    ResultThenAbandon(s);
    LiveKeepsInv(s);
    LiveKeepsHolesInside(s);
    AbandonKeepsTheHole(AfterLiveResult(s));
    BurstBeyondFetchIsMissing(s);
  }
}
