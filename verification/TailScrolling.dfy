/** What scrolling in the live tail shows, whatever happens while a page of older rows is on its way. */
module TailScrolling {
  import opened MessageOrder
  import opened MessageWindow
  import opened MessageTable
  import opened TailHoles
  import opened TailRecovery
  import opened Wrappers

  /** The rows a query for older rows continues from. */
  function CursorRows(s: Tail): seq<Row> {
    if s.prefetch != [] then s.prefetch else s.Exposed()
  }

  /** The user waits: a page is on its way, and it is to be shown when it comes. */
  predicate Waiting(s: Tail) {
    s.request.Some? && s.showOnArrival
  }

  /** With something to continue from and a claim of more there is always a query afterwards: the one
      under way, or one for what follows the last row. */
  lemma AskingStartsAQuery(s: Tail, show: bool)
    requires s.hasMore && CursorRows(s) != []
    ensures var s' := Step(s, RequestOlder(show));
            && s'.request == Some(if s.request.Some? then s.request.value else Last(CursorRows(s)).key)
            && s'.showOnArrival == (s.showOnArrival || show)
            && s'.Shown() == s.Shown() && s'.prefetch == s.prefetch
  {}

  /** Scrolling up shows rows of the buffer at once, or the user waits for a page. */
  lemma ScrollingShowsOrWaits(s: Tail)
    requires Inv(s) && (s.prefetch != [] || (s.hasMore && s.Exposed() != []))
    ensures var s' := Step(s, ShowOlder);
            if s.prefetch != []
            then RowSet(Take(s.prefetch, MESSAGES_PAGE_SIZE)) <= s'.Shown() && s.Shown() <= s'.Shown()
                 && s'.prefetch == Drop(s.prefetch, MESSAGES_PAGE_SIZE)
            else Waiting(s') && s'.request == Some(if s.request.Some? then s.request.value else Last(s.Exposed()).key)
                 && s'.Shown() == s.Shown() && s'.prefetch == []
  {
    StepIs(s, ShowOlder);
    if s.prefetch != [] { BufferShows(s); } else { AskingStartsAQuery(s, true); }
  }

  lemma BufferShows(s: Tail)
    requires Shape(s) && s.prefetch != []
    ensures var s' := AfterShowOlder(s);
            s'.Shown() == s.Shown() + RowSet(Take(s.prefetch, MESSAGES_PAGE_SIZE))
  {
    SuffixRows(s.seen, s.table);
    TakeRows(s.prefetch, MESSAGES_PAGE_SIZE);
    AddToHistoryRows(s.seen, s.history, Take(s.prefetch, MESSAGES_PAGE_SIZE));
  }

  /** Nothing but the page itself, or its failure, ends the waiting. */
  lemma RevealStaysOn(s: Tail, e: Event)
    requires Waiting(s) && e != PageArrives && e != PageFails
    ensures Waiting(Step(s, e)) && Step(s, e).request == s.request
  {
    StepIs(s, e);
  }

  ghost predicate PageStillOut(events: seq<Event>) {
    forall e :: e in events ==> e != PageArrives && e != PageFails
  }

  lemma {:induction false} RevealStaysOnThroughout(s: Tail, events: seq<Event>)
    requires Inv(s) && Waiting(s) && PageStillOut(events)
    ensures Inv(Run(s, events)) && Waiting(Run(s, events)) && Run(s, events).request == s.request
    decreases |events|
  {
    if events != [] {
      assert events[0] in events && forall e :: e in events[1..] ==> e in events;
      StepKeepsInv(s, events[0]);
      RevealStaysOn(s, events[0]);
      RevealStaysOnThroughout(Step(s, events[0]), events[1..]);
    }
  }

  /** The page a query with this cursor returns. */
  function OlderPage(table: seq<Row>, cursor: Key): seq<Row> {
    Take(Where(table, StrictlyOlder(cursor)), MESSAGE_HISTORY_FETCH_SIZE)
  }

  lemma RowsShown(seen: seq<Row>, s: Tail, s': Tail, expanded: seq<Row>, n: nat)
    requires IsWindow(seen) && RowSet(s.history) <= RowSet(seen) && IsWindow(expanded) && RowSet(expanded) <= RowSet(seen)
    requires s'.tail == s.tail && s'.history == AddToHistory(s.history, Take(expanded, n)) && s'.prefetch == Drop(expanded, n)
    ensures s'.Shown() == s.Shown() + RowSet(Take(expanded, n))
    ensures RowSet(s'.prefetch) + s'.Shown() == RowSet(expanded) + s.Shown()
  {
    TakeRows(expanded, n);
    AddToHistoryRows(seen, s.history, Take(expanded, n));
  }

  lemma ExpandedRows(s: Tail)
    requires Inv(s) && s.request.Some?
    ensures var expanded := Merge(s.prefetch, OlderPage(s.table, s.request.value));
            IsWindow(expanded) && RowSet(expanded) <= RowSet(s.seen)
    ensures IsWindow(s.seen) && RowSet(s.history) <= RowSet(s.seen)
  {
    var at :| at in s.Shown() + RowSet(s.prefetch) && at.key == s.request.value;
    PageExtendsBuffer(s, at);
    SuffixRows(s.seen, s.table);
  }

  /** An awaited page shows the first rows of the buffer it extends; one that nobody waits for shows
      nothing and only extends the buffer. */
  lemma ArrivalShows(s: Tail)
    requires Inv(s) && s.request.Some?
    ensures var s', expanded := AfterPage(s), Merge(s.prefetch, OlderPage(s.table, s.request.value));
            && s'.request.None? && !s'.showOnArrival
            && s'.Shown() == s.Shown() + RowSet(Take(expanded, if s.showOnArrival then MESSAGES_PAGE_SIZE else 0))
            && RowSet(s'.prefetch) + s'.Shown() == RowSet(expanded) + s.Shown()
  {
    ExpandedRows(s);
    PageFields(s);
    RowsShown(s.seen, s, AfterPage(s), Merge(s.prefetch, OlderPage(s.table, s.request.value)),
              if s.showOnArrival then MESSAGES_PAGE_SIZE else 0);
  }

  lemma UnawaitedPageIsBuffered(s: Tail)
    requires Inv(s) && s.request.Some? && !s.showOnArrival
    ensures var s' := Step(s, PageArrives);
            s'.Shown() == s.Shown() && RowSet(OlderPage(s.table, s.request.value)) <= RowSet(s'.prefetch) + s'.Shown()
  {
    StepIs(s, PageArrives);
    ArrivalShows(s);
    var at :| at in s.Shown() + RowSet(s.prefetch) && at.key == s.request.value;
    PageIsBuffered(s, at);
  }

  lemma PageIsBuffered(s: Tail, at: Row)
    requires Inv(s) && at in s.Shown() + RowSet(s.prefetch)
    ensures RowSet(OlderPage(s.table, at.key)) <= RowSet(Merge(s.prefetch, OlderPage(s.table, at.key)))
  {
    ShownFromSeen(s);
    assert at in RowSet(s.seen);
    TailRecovery.OlderPage(s, at);
    PageBuffered(s.seen, s.prefetch, Where(s.table, StrictlyOlder(at.key)));
  }

  lemma PageFirstRows(page: seq<Row>, all: seq<Row>)
    requires IsWindow(all) && page == Take(all, MESSAGE_HISTORY_FETCH_SIZE)
    ensures Merge([], page) == page && Take(page, MESSAGES_PAGE_SIZE) == Take(all, MESSAGES_PAGE_SIZE)
  {
    TakeRows(all, MESSAGE_HISTORY_FETCH_SIZE);
    MergeAppends([], page);
    HeadAndTail(page);
  }

  /** Events that leave the buffer empty: anything but a live result. */
  predicate KeepsBuffer(e: Event) {
    !e.LiveResult? && !e.Rerun? && e != PageArrives && e != PageFails
  }

  lemma BufferStaysEmpty(s: Tail, e: Event)
    requires s.prefetch == [] && KeepsBuffer(e)
    ensures Step(s, e).prefetch == []
  {
    StepIs(s, e);
  }

  lemma SuffixSelf(table: seq<Row>)
    ensures Suffix(table, table)
  {
    assert table[0..] == table;
  }

  lemma SuffixCons(row: Row, table: seq<Row>)
    ensures Suffix(table, [row] + table)
  {
    assert ([row] + table)[1..] == table;
  }

  /** The table only grows, at the newest end. */
  lemma TableGrows(s: Tail, e: Event)
    ensures Suffix(s.table, Step(s, e).table)
  {
    StepIs(s, e);
    SuffixSelf(s.table);
    if e.HeadInsert? { SuffixCons(e.row, s.table); }
  }

  lemma SuffixTrans(a: seq<Row>, b: seq<Row>, c: seq<Row>)
    requires Suffix(a, b) && Suffix(b, c)
    ensures Suffix(a, c)
  {
    assert c[|c| - |a|..] == c[|c| - |b|..][|b| - |a|..];
  }

  lemma RerunShows(s: Tail)
    requires Inv(s)
    ensures s.Shown() <= AfterRerun(s).Shown()
  {
    AsLastSeen(s);
    ShownOnlyGrows(s.(table := s.seen));
  }

  lemma StepShows(s: Tail, e: Event)
    requires Inv(s)
    ensures s.Shown() <= Step(s, e).Shown()
  {
    StepIs(s, e);
    match e
    case LiveResult => ShownOnlyGrows(s);
    case Rerun => RerunShows(s);
    case GapPage => if s.gap.Some? { GapPageMoves(s); }
    case ShowOlder => ShowOlderShows(s);
    case RequestOlder(show) => RequestFields(s, show);
    case PageArrives => if s.request.Some? { ArrivalShows(s); }
    case _ =>
  }

  /** Whatever happens, no shown row is taken away. */
  lemma {:induction false} ListOnlyGrows(s: Tail, events: seq<Event>)
    requires Inv(s)
    ensures Inv(Run(s, events)) && s.Shown() <= Run(s, events).Shown()
    decreases |events|
  {
    if events != [] {
      StepKeepsInv(s, events[0]);
      StepShows(s, events[0]);
      ListOnlyGrows(Step(s, events[0]), events[1..]);
    }
  }

  /** Waiting for a page that continues from this cursor, with nothing buffered. */
  ghost predicate WaitsFor(s: Tail, cursor: Key) {
    Waiting(s) && s.request == Some(cursor) && s.prefetch == []
  }

  lemma {:induction false} WaitingRun(s: Tail, cursor: Key, events: seq<Event>)
    requires WaitsFor(s, cursor) && forall e :: e in events ==> KeepsBuffer(e)
    ensures WaitsFor(Run(s, events), cursor) && Suffix(s.table, Run(s, events).table)
    decreases |events|
  {
    if events == [] {
      SuffixSelf(s.table);
    } else {
      assert events[0] in events && forall e :: e in events[1..] ==> e in events;
      RevealStaysOn(s, events[0]);
      BufferStaysEmpty(s, events[0]);
      TableGrows(s, events[0]);
      WaitingRun(Step(s, events[0]), cursor, events[1..]);
      SuffixTrans(s.table, Step(s, events[0]).table, Run(s, events).table);
    }
  }

  lemma SameOlderRows(table: seq<Row>, later: seq<Row>, at: Row)
    requires IsWindow(later) && Suffix(table, later) && at in table
    ensures Where(later, StrictlyOlder(at.key)) == Where(table, StrictlyOlder(at.key))
  {
    var burst := later[..|later| - |table|];
    assert later == burst + table;
    OlderPageReadEarly(burst, table, at);
  }

  lemma CursorIsInTable(s: Tail) returns (at: Row)
    requires Inv(s) && s.request.Some?
    ensures at in s.table && at.key == s.request.value
  {
    at :| at in s.Shown() + RowSet(s.prefetch) && at.key == s.request.value;
    ShownFromSeen(s);
    SuffixRows(s.seen, s.table);
    assert at in RowSet(s.table);
  }

  lemma AwaitedPageIsNext(s: Tail, cursor: Key)
    requires Inv(s) && WaitsFor(s, cursor)
    ensures RowSet(Take(Where(s.table, StrictlyOlder(cursor)), MESSAGES_PAGE_SIZE)) <= AfterPage(s).Shown()
  {
    WhereIsWindow(s.table, StrictlyOlder(cursor));
    PageFirstRows(OlderPage(s.table, cursor), Where(s.table, StrictlyOlder(cursor)));
    ArrivalShows(s);
  }

  lemma NextRowsShow(s: Tail, cursor: Key, between: seq<Event>)
    requires Inv(s) && WaitsFor(s, cursor) && forall e :: e in between ==> KeepsBuffer(e)
    ensures var s' := Step(Run(s, between), PageArrives);
            && s.Shown() <= s'.Shown()
            && RowSet(Take(Where(s.table, StrictlyOlder(cursor)), MESSAGES_PAGE_SIZE)) <= s'.Shown()
  {
    var asked := Run(s, between);
    ListOnlyGrows(s, between);
    WaitingRun(s, cursor, between);
    var at := CursorIsInTable(s);
    SameOlderRows(s.table, asked.table, at);
    AwaitedPageIsNext(asked, cursor);
    StepShows(asked, PageArrives);
    StepIs(asked, PageArrives);
  }

  /** Scrolling up with an empty buffer: when its page has come, the 15 rows below the last shown row
      are shown, or all there are, whatever arrived, was asked or was recovered meanwhile. */
  lemma ScrollingShowsTheNextRows(s: Tail, between: seq<Event>)
    requires Reachable(s) && s.prefetch == [] && s.hasMore && s.Exposed() != []
    requires forall e :: e in between ==> KeepsBuffer(e)
    ensures var cursor := if s.request.Some? then s.request.value else Last(s.Exposed()).key;
            var s' := Step(Run(Step(s, ShowOlder), between), PageArrives);
            && s.Shown() <= s'.Shown()
            && RowSet(Take(Where(s.table, StrictlyOlder(cursor)), MESSAGES_PAGE_SIZE)) <= s'.Shown()
  {
    ReachableInv(s);
    ScrollingShowsOrWaits(s);
    StepKeepsInv(s, ShowOlder);
    StepIs(s, ShowOlder);
    NextRowsShow(Step(s, ShowOlder), if s.request.Some? then s.request.value else Last(s.Exposed()).key, between);
  }

  /** Whatever happens meanwhile, live results included, the page that comes is the one asked for, and
      the first rows of the buffer it extends are shown. */
  lemma AwaitedPageShows(s: Tail, between: seq<Event>)
    requires Reachable(s) && Waiting(s) && PageStillOut(between)
    ensures var asked := Run(s, between); var s' := Step(asked, PageArrives);
            && asked.request == s.request && asked.showOnArrival
            && s'.Shown() == asked.Shown() +
                 RowSet(Take(Merge(asked.prefetch, OlderPage(asked.table, s.request.value)), MESSAGES_PAGE_SIZE))
  {
    ReachableInv(s);
    RevealStaysOnThroughout(s, between);
    StepIs(Run(s, between), PageArrives);
    ArrivalShows(Run(s, between));
  }

  // ----- a reveal is never left over

  /** A reveal is only asked for when more is claimed: the prefetch effect never asks for one, and
      scrolling looks at the claim first. */
  predicate AsksWithReason(s: Tail, e: Event) {
    e == RequestOlder(true) ==> s.hasMore
  }

  ghost predicate AllAskWithReason(s: Tail, events: seq<Event>)
    decreases |events|
  {
    events == [] || (AsksWithReason(s, events[0]) && AllAskWithReason(Step(s, events[0]), events[1..]))
  }

  lemma RevealHasItsPage(s: Tail, e: Event)
    requires AsksWithReason(s, e) && (s.showOnArrival ==> s.request.Some?)
    ensures Step(s, e).showOnArrival ==> Step(s, e).request.Some?
  {
    StepIs(s, e);
  }

  /** In every such run a reveal waits only while a page is on its way: none is left over to show a
      later page that nobody asked for. */
  lemma {:induction false} RevealAlwaysHasItsPage(s: Tail, events: seq<Event>)
    requires (s.showOnArrival ==> s.request.Some?) && AllAskWithReason(s, events)
    ensures Run(s, events).showOnArrival ==> Run(s, events).request.Some?
    decreases |events|
  {
    if events != [] {
      RevealHasItsPage(s, events[0]);
      RevealAlwaysHasItsPage(Step(s, events[0]), events[1..]);
    }
  }

  lemma RevealStaysOff(s: Tail, e: Event)
    requires !s.showOnArrival && e != ShowOlder && e != RequestOlder(true)
    ensures !Step(s, e).showOnArrival
  {
    StepIs(s, e);
  }

  /** Until somebody asks, no page changes what is shown: only new messages and recovered ones do. */
  lemma ListMovesOnlyWhenAsked(s: Tail, e: Event)
    requires Inv(s) && !s.showOnArrival && e != ShowOlder && e != RequestOlder(true)
    ensures !Step(s, e).showOnArrival
    ensures !e.LiveResult? && !e.Rerun? && !e.GapPage? ==> Step(s, e).Shown() == s.Shown()
  {
    RevealStaysOff(s, e);
    if e.PageArrives? && s.request.Some? {
      UnawaitedPageIsBuffered(s);
    } else {
      StepIs(s, e);
    }
  }
}
