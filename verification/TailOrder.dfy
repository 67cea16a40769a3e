/** The order of the shown tail after a burst. */
module TailOrder {
  import opened MessageOrder
  import opened MessageWindow
  import opened MessageTable
  import opened TailRecovery
  import opened Wrappers

  /** When every left-hand row is newer than the first right-hand row, the merge lists them first. */
  lemma {:induction false} MergeStartsWith(left: seq<Row>, right: seq<Row>, ids: set<nat>)
    requires right != [] && DistinctIds(left)
    requires forall l :: l in left ==>
               IsMessageOrderNewer(l.key, right[0].key) && l.key.id !in ids && l.key.id != right[0].key.id
    requires right[0].key.id !in ids
    ensures left + [right[0]] <= MergeFrom(left, right, ids)
  {
    if left != [] {
      assert left == [left[0]] + left[1..];
      MergeStartsWith(left[1..], right, ids + {left[0].key.id});
    }
  }

  /** Every list of the state is a newest-first window. */
  ghost predicate Ordered(s: Tail) {
    Shape(s) && IsWindow(s.history)
  }

  lemma OrderedIsShownInOrder(s: Tail)
    requires Ordered(s)
    ensures IsWindow(s.Exposed())
  {
    SuffixRows(s.seen, s.table);
    TakeRows(s.seen, MESSAGES_PAGE_SIZE);
    MergeIsWindowOfSurvivors(s.tail, s.history);
  }

  lemma AddWindow(history: seq<Row>, rows: seq<Row>)
    requires IsWindow(history) && IsWindow(rows)
    ensures IsWindow(AddToHistory(history, rows))
  {
    MergeIsWindowOfSurvivors(history, rows);
  }

  lemma {:induction false} NothingFresh(rows: seq<Row>, bound: Key, ids: set<nat>)
    requires forall row :: row in rows ==> !IsMessageOrderNewer(row.key, bound)
    ensures Fresh(rows, bound, ids) == []
  {
    if rows != [] {
      assert forall row :: row in rows[1..] ==> row in rows;
      NothingFresh(rows[1..], bound, ids);
    }
  }

  /** Rows past the first page of a table that starts with a short burst belong to the old table. */
  lemma PastPageIsOld(burst: seq<Row>, seen: seq<Row>, row: Row)
    requires IsWindow(burst + seen) && seen != [] && |burst| <= MESSAGES_PAGE_SIZE
    requires row in Drop(Authoritative(burst + seen), MESSAGES_PAGE_SIZE)
    ensures !IsMessageOrderNewer(row.key, seen[0].key)
  {
    var table := burst + seen;
    DisjointIds(burst, seen);
    var rest := Drop(Authoritative(table), MESSAGES_PAGE_SIZE);
    var i :| 0 <= i < |rest| && rest[i] == row;
    PastPageIndex(table, i);
    assert row == seen[MESSAGES_PAGE_SIZE + i - |burst|];
    FirstIsNewest(seen, MESSAGES_PAGE_SIZE + i - |burst|);
  }

  lemma PastPageIndex(table: seq<Row>, i: nat)
    requires i < |Drop(Authoritative(table), MESSAGES_PAGE_SIZE)|
    ensures MESSAGES_PAGE_SIZE + i < |table|
    ensures Drop(Authoritative(table), MESSAGES_PAGE_SIZE)[i] == table[MESSAGES_PAGE_SIZE + i]
  {}

  lemma FirstIsNewest(seen: seq<Row>, i: nat)
    requires IsWindow(seen) && i < |seen|
    ensures !IsMessageOrderNewer(seen[i].key, seen[0].key)
  {}

  /** A burst of at most one page keeps the order. */
  lemma ShortBurstKeepsOrder(s: Tail)
    requires Ordered(s) && (s.seen == [] || |Burst(s)| <= MESSAGES_PAGE_SIZE)
    ensures Ordered(AfterLiveResult(s))
  {
    LiveKeepsShape(s);
    LiveFields(s);
    ShortBurstExposesWindow(s);
    AddWindow(s.history, ToExpose(s));
  }

  lemma ShortBurstExposesWindow(s: Tail)
    requires Shape(s) && (s.seen == [] || |Burst(s)| <= MESSAGES_PAGE_SIZE)
    ensures IsWindow(ToExpose(s))
  {
    SuffixRows(s.seen, s.table);
    TakeRows(s.seen, MESSAGES_PAGE_SIZE);
    if s.tail != [] {
      NothingNewPastPage(Burst(s), s.seen, s.tail);
      OnlyShiftedOut(s.tail, NewTail(s), Authoritative(s.table), Merge(NewTail(s), s.history));
      UnlistedIsWindow(s.tail, Ids(NewTail(s)));
    }
  }

  lemma NothingNewPastPage(burst: seq<Row>, seen: seq<Row>, tail: seq<Row>)
    requires IsWindow(burst + seen) && seen != [] && |burst| <= MESSAGES_PAGE_SIZE && tail == Take(seen, MESSAGES_PAGE_SIZE)
    ensures forall row :: row in Drop(Authoritative(burst + seen), MESSAGES_PAGE_SIZE) ==>
              !IsMessageOrderNewer(row.key, tail[0].key)
  {
    forall row | row in Drop(Authoritative(burst + seen), MESSAGES_PAGE_SIZE)
      ensures !IsMessageOrderNewer(row.key, tail[0].key)
    {
      PastPageIsOld(burst, seen, row);
    }
  }

  /** With nothing new past the page, only the rows that left it are exposed. */
  lemma OnlyShiftedOut(previous: seq<Row>, tail: seq<Row>, authoritative: seq<Row>, exposed: seq<Row>)
    requires previous != []
    requires forall row :: row in Drop(authoritative, MESSAGES_PAGE_SIZE) ==>
               !IsMessageOrderNewer(row.key, previous[0].key)
    ensures RowsToExpose(previous, tail, authoritative, exposed) == Unlisted(previous, Ids(tail))
  {
    var shiftedOut := Unlisted(previous, Ids(tail));
    NothingFresh(Drop(authoritative, MESSAGES_PAGE_SIZE), previous[0].key, Ids(exposed) + Ids(shiftedOut));
    HeadAndTail(shiftedOut);
  }

  lemma {:induction false} NothingRemoved(rows: seq<Row>, ids: set<nat>)
    requires forall row :: row in rows ==> row.key.id !in ids
    ensures Unlisted(rows, ids) == rows
  {
    if rows != [] {
      assert forall row :: row in rows[1..] ==> row in rows;
      NothingRemoved(rows[1..], ids);
    }
  }

  /** After a longer burst the list to expose starts with the newest old row, although rows of the
      burst follow it. */
  lemma LongBurstExposesOldFirst(s: Tail)
    requires Shape(s) && s.seen != [] && |Burst(s)| > MESSAGES_PAGE_SIZE
    ensures ToExpose(s) != [] && ToExpose(s)[0] == s.seen[0]
  {
    SuffixRows(s.seen, s.table);
    var burst := Burst(s);
    DisjointIds(burst, s.seen);
    assert NewTail(s) == burst[..MESSAGES_PAGE_SIZE];
    forall row | row in s.tail ensures row.key.id !in Ids(NewTail(s)) {
      assert row in s.seen;
      assert forall other :: other in NewTail(s) ==> other in burst;
    }
    NothingRemoved(s.tail, Ids(NewTail(s)));
  }

  lemma HistoryStartsWith(s: Tail)
    requires Shape(s) && s.seen != [] && ToExpose(s) != [] && ToExpose(s)[0] == s.seen[0]
    ensures AfterLiveResult(s).history != [] && AfterLiveResult(s).history[0] == s.seen[0]
  {
    LiveFields(s);
    SuffixRows(s.seen, s.table);
    if s.history != [] {
      assert s.history[0] in RowSet(s.seen);
      HeadNotOlder(s.seen, s.history[0]);
    }
  }

  lemma HeadNotOlder(rows: seq<Row>, row: Row)
    requires NewestFirst(rows) && row in rows
    ensures !IsMessageOrderNewer(row.key, rows[0].key)
  {}

  /** A burst of more than one page puts the newest old row above rows that are newer than it. */
  lemma LongBurstBreaksOrder(s: Tail)
    requires Inv(s) && s.seen != [] && |Burst(s)| > MESSAGES_PAGE_SIZE
    ensures var shown := AfterLiveResult(s).Exposed();
            && |shown| > MESSAGES_PAGE_SIZE && shown[MESSAGES_PAGE_SIZE] == s.seen[0]
            && !NewestFirst(shown)
  {
    SuffixRows(s.seen, s.table);
    LiveFields(s);
    LongBurstExposesOldFirst(s);
    HistoryStartsWith(s);
    LateIsShown(s);
    OldAboveLate(Burst(s), s.seen, AfterLiveResult(s).history, AfterLiveResult(s).Exposed());
  }

  lemma OldAboveLate(burst: seq<Row>, seen: seq<Row>, history: seq<Row>, shown: seq<Row>)
    requires IsWindow(burst + seen) && seen != [] && |burst| > MESSAGES_PAGE_SIZE
    requires history != [] && history[0] == seen[0]
    requires shown == Merge(Take(burst + seen, MESSAGES_PAGE_SIZE), history) && burst[MESSAGES_PAGE_SIZE] in shown
    ensures |shown| > MESSAGES_PAGE_SIZE && shown[MESSAGES_PAGE_SIZE] == seen[0]
    ensures !NewestFirst(shown)
  {
    var page, late := burst[..MESSAGES_PAGE_SIZE], burst[MESSAGES_PAGE_SIZE];
    DisjointIds(burst, seen);
    assert Take(burst + seen, MESSAGES_PAGE_SIZE) == page;
    assert forall row :: row in page ==> row in burst;
    MergeStartsWith(page, history, {});
    assert page + [seen[0]] <= shown;
    assert shown[MESSAGES_PAGE_SIZE] == seen[0];
    assert forall k :: 0 <= k < MESSAGES_PAGE_SIZE ==> shown[k] == burst[k];
    var k :| 0 <= k < |shown| && shown[k] == late;
    assert k > MESSAGES_PAGE_SIZE;
  }

  lemma LateIsShown(s: Tail)
    requires Shape(s) && s.seen != [] && |Burst(s)| > MESSAGES_PAGE_SIZE
    ensures Burst(s)[MESSAGES_PAGE_SIZE] in AfterLiveResult(s).Exposed()
  {
    SuffixRows(s.seen, s.table);
    InFetch(Burst(s), s.seen, MESSAGES_PAGE_SIZE);
    FetchedBurstIsShown(s, Burst(s)[MESSAGES_PAGE_SIZE]);
    LiveKeepsShape(s);
    ShownFromSeen(AfterLiveResult(s));
  }

  /** A live result keeps the list newest-first exactly when its burst fits one page. */
  lemma OrderedExactlyAfterShortBurst(s: Tail)
    requires Inv(s) && IsWindow(s.history) && s.seen != []
    ensures NewestFirst(AfterLiveResult(s).Exposed()) <==> |Burst(s)| <= MESSAGES_PAGE_SIZE
  {
    if |Burst(s)| <= MESSAGES_PAGE_SIZE {
      ShortBurstKeepsOrder(s);
      OrderedIsShownInOrder(AfterLiveResult(s));
    } else {
      LongBurstBreaksOrder(s);
    }
  }

  // ----- runs of short bursts

  ghost predicate ShortBurst(s: Tail, e: Event) {
    e.LiveResult? && |s.seen| <= |s.table| ==> s.seen == [] || |Burst(s)| <= MESSAGES_PAGE_SIZE
  }

  ghost predicate ShortBursts(s: Tail, events: seq<Event>)
    decreases |events|
  {
    events == [] || (ShortBurst(s, events[0]) && ShortBursts(Step(s, events[0]), events[1..]))
  }

  ghost predicate Calm(s: Tail) {
    Inv(s) && IsWindow(s.history) && s.gap.None?
  }

  lemma PageKeepsOrder(s: Tail)
    requires Calm(s) && s.request.Some?
    ensures IsWindow(AfterPage(s).history)
  {
    PageFields(s);
    var at :| at in s.Shown() + RowSet(s.prefetch) && at.key == s.request.value;
    PageExtendsBuffer(s, at);
    var expanded := Merge(s.prefetch, Take(Where(s.table, StrictlyOlder(at.key)), MESSAGE_HISTORY_FETCH_SIZE));
    var n := if s.showOnArrival then MESSAGES_PAGE_SIZE else 0;
    TakeRows(expanded, n);
    AddWindow(s.history, Take(expanded, n));
  }

  lemma StepKeepsHistoryOrder(s: Tail, e: Event)
    requires Calm(s) && !e.LiveResult? && !e.Rerun?
    ensures IsWindow(Step(s, e).history) && Step(s, e).gap.None?
  {
    match e
    case ShowOlder =>
      if s.prefetch != [] {
        TakeRows(s.prefetch, MESSAGES_PAGE_SIZE);
        MergeIsWindowOfSurvivors(s.history, Take(s.prefetch, MESSAGES_PAGE_SIZE));
      } else {
        RequestFields(s, true);
      }
    case RequestOlder(show) => RequestFields(s, show);
    case PageArrives => if s.request.Some? { PageKeepsOrder(s); PageFields(s); }
    case _ =>
  }

  lemma RerunKeepsOrder(s: Tail)
    requires Calm(s)
    ensures IsWindow(AfterRerun(s).history) && AfterRerun(s).gap.None? && AfterRerun(s).lost == s.lost
  {
    var before := s.(table := s.seen);
    AsLastSeen(s);
    assert Burst(before) == [];
    ShortBurstKeepsOrder(before);
    LiveGap(before);
  }

  lemma StepKeepsOrder(s: Tail, e: Event)
    requires Calm(s) && ShortBurst(s, e)
    ensures Calm(Step(s, e))
  {
    StepKeepsInv(s, e);
    if e.LiveResult? {
      ShortBurstKeepsOrder(s);
      LiveGap(s);
    } else if e.Rerun? {
      RerunKeepsOrder(s);
    } else {
      StepKeepsHistoryOrder(s, e);
    }
  }

  /** As long as no live result brings more than a page of new messages, the list is always newest-first
      and without holes. */
  lemma {:induction false} ShortBurstsStayInOrder(s: Tail, events: seq<Event>)
    requires Calm(s) && s.lost == {} && ShortBursts(s, events)
    ensures var s' := Run(s, events); IsWindow(s'.Exposed()) && NewerClosed(s'.seen, RowSet(s'.Exposed()))
    decreases |events|
  {
    if events == [] {
      OrderedIsShownInOrder(s);
      ShownFromSeen(s);
      assert s.Settled() == s.Shown();
    } else {
      StepKeepsOrder(s, events[0]);
      NothingLost(s, events[0]);
      ShortBurstsStayInOrder(Step(s, events[0]), events[1..]);
    }
  }

  lemma NothingLost(s: Tail, e: Event)
    requires Calm(s) && s.lost == {}
    ensures Step(s, e).lost == {}
  {
    if e.LiveResult? { LiveGap(s); } else if e.Rerun? { RerunKeepsOrder(s); }
  }
}
