/** What scrolling in the anchored window shows, whatever happens while a page is on its way. */
module AnchorScrolling {
  import opened MessageOrder
  import opened MessageWindow
  import opened MessageTable
  import opened AnchorWindow
  import opened Wrappers

  const MESSAGE_HISTORY_PREFETCH_THRESHOLD := 2 * MESSAGES_PAGE_SIZE

  // ----- one side at a time

  predicate About(e: Event, d: Direction) {
    match e
    case RequestPage(side, _) => side == d
    case ReadPage(side) => side == d
    case PageArrives(side) => side == d
    case PageFails(side) => side == d
    case ShowMore(side) => side == d
    case _ => false
  }

  /** A loaded side, and the page it waits for. */
  ghost predicate Holds(s: State, d: Direction, side: Side, flight: Flight) {
    s.cell.Ready() && s.cell.window.value.At(d) == side && s.cell.FlightAt(d) == flight
  }

  lemma OthersLeaveSide(anchor: Key, s: State, d: Direction, e: Event)
    requires s.cell.Ready() && s.cell.load.NoLoad? && !About(e, d)
    ensures Holds(Step(anchor, s, e), d, s.cell.window.value.At(d), s.cell.FlightAt(d))
  {}

  lemma RequestOnSide(anchor: Key, s: State, d: Direction, onArrival: bool)
    requires s.cell.Ready()
    ensures var (next, cursor) := Request(s.cell.window.value.At(d), onArrival);
            Holds(Step(anchor, s, RequestPage(d, onArrival)), d, next,
                  if cursor.Some? then Asked(cursor.value) else s.cell.FlightAt(d))
  {}

  lemma ShowMoreOnSide(anchor: Key, s: State, d: Direction)
    requires s.cell.Ready()
    ensures var (next, cursor) := LoadMore(d, s.cell.window.value.At(d));
            Holds(Step(anchor, s, ShowMore(d)), d, next, if cursor.Some? then Asked(cursor.value) else s.cell.FlightAt(d))
  {}

  lemma ReadOnSide(anchor: Key, s: State, d: Direction)
    requires s.cell.Ready()
    ensures var flight := s.cell.FlightAt(d);
            Holds(Step(anchor, s, ReadPage(d)), d, s.cell.window.value.At(d),
                  if flight.Asked? then Answered(flight.cursor, PageQuery(s.table, flight.cursor, d)) else flight)
    ensures Step(anchor, s, ReadPage(d)).table == s.table
  {}

  lemma ArriveOnSide(anchor: Key, s: State, d: Direction)
    requires s.cell.Ready()
    ensures var side, flight := s.cell.window.value.At(d), s.cell.FlightAt(d);
            if flight.Answered? then Holds(Step(anchor, s, PageArrives(d)), d, Arrive(d, side, flight.result), Idle)
            else Step(anchor, s, PageArrives(d)) == s
  {}

  lemma FailOnSide(anchor: Key, s: State, d: Direction)
    requires s.cell.Ready()
    ensures var side, flight := s.cell.window.value.At(d), s.cell.FlightAt(d);
            if flight.Idle? then Step(anchor, s, PageFails(d)) == s
            else Holds(Step(anchor, s, PageFails(d)), d, Fail(side), Idle)
  {}

  // ----- the list only grows

  /** A loaded side whose first load succeeded. */
  ghost predicate Live(anchor: Key, s: State, d: Direction) {
    && Inv(anchor, s, false) && s.cell.Ready() && s.cell.load.NoLoad? && !Stuck(s.cell.window.value.At(d))
    && SideInv(Rows(s.table, anchor, d), s.cell.window.value.At(d), s.cell.FlightAt(d), Exact(d, false))
  }

  lemma LoadedIsLive(anchor: Key, s: State, d: Direction)
    requires Inv(anchor, s, false) && s.cell.Ready() && !Stuck(s.cell.window.value.At(d))
    ensures Live(anchor, s, d)
  {}

  /** The shown rows of a side, in every state a prefix of the rows it has. */
  ghost function RowsAt(s: State, d: Direction): seq<Row>
    requires s.cell.Ready()
  {
    s.cell.window.value.At(d).rows
  }

  /** Not stuck, and showing no fewer rows than before. */
  predicate Grown(side: Side, next: Side) {
    !Stuck(next) && |next.rows| >= |side.rows|
  }

  lemma RequestGrows(all: seq<Row>, side: Side, flight: Flight, onArrival: bool, exact: bool)
    requires SideInv(all, side, flight, exact) && !Stuck(side)
    ensures Grown(side, Request(side, onArrival).0)
  {}

  lemma ArriveGrows(d: Direction, all: seq<Row>, side: Side, flight: Flight, exact: bool)
    requires Outward(d, all) && SideInv(all, side, flight, exact) && flight.Answered?
    ensures Grown(side, Arrive(d, side, flight.result))
  {
    ArriveKeeps(d, all, side, flight, exact);
  }

  lemma FailGrows(all: seq<Row>, side: Side, flight: Flight, exact: bool)
    requires SideInv(all, side, flight, exact) && !flight.Idle?
    ensures Grown(side, Fail(side))
  {}

  lemma MoreGrows(d: Direction, all: seq<Row>, side: Side, flight: Flight, exact: bool)
    requires Outward(d, all) && SideInv(all, side, flight, exact) && !Stuck(side)
    ensures Grown(side, LoadMore(d, side).0)
  {
    if side.prefetch != [] { ReleaseKeeps(d, all, side); } else { RequestGrows(all, side, flight, true, exact); }
  }

  lemma SideGrows(anchor: Key, s: State, d: Direction, e: Event)
    requires Live(anchor, s, d) && About(e, d)
    ensures Step(anchor, s, e).cell.Ready()
    ensures Grown(s.cell.window.value.At(d), Step(anchor, s, e).cell.window.value.At(d))
  {
    var all, exact := Rows(s.table, anchor, d), Exact(d, false);
    var side, flight := s.cell.window.value.At(d), s.cell.FlightAt(d);
    RowsOutward(s.table, anchor, d);
    match e
    case RequestPage(_, onArrival) =>
      RequestOnSide(anchor, s, d, onArrival);
      RequestGrows(all, side, flight, onArrival, exact);
    case ReadPage(_) => ReadOnSide(anchor, s, d);
    case PageArrives(_) =>
      ArriveOnSide(anchor, s, d);
      if flight.Answered? { ArriveGrows(d, all, side, flight, exact); }
    case PageFails(_) =>
      FailOnSide(anchor, s, d);
      if !flight.Idle? { FailGrows(all, side, flight, exact); }
    case ShowMore(_) =>
      ShowMoreOnSide(anchor, s, d);
      MoreGrows(d, all, side, flight, exact);
  }

  lemma StepStaysLive(anchor: Key, s: State, d: Direction, e: Event)
    requires Live(anchor, s, d)
    ensures Live(anchor, Step(anchor, s, e), d)
    ensures |RowsAt(Step(anchor, s, e), d)| >= |RowsAt(s, d)|
  {
    StepKeepsInv(anchor, s, e, false);
    if About(e, d) { SideGrows(anchor, s, d, e); } else { OthersLeaveSide(anchor, s, d, e); }
    LoadedIsLive(anchor, Step(anchor, s, e), d);
  }

  /** Whatever happens to a loaded window, no shown row is taken away: at the end of any run each side
      shows at least as many of the rows nearest the anchor. */
  lemma {:induction false} ListOnlyGrows(anchor: Key, s: State, d: Direction, events: seq<Event>)
    requires Live(anchor, s, d)
    ensures Live(anchor, Run(anchor, s, events), d)
    ensures |RowsAt(Run(anchor, s, events), d)| >= |RowsAt(s, d)|
    decreases |events|
  {
    if events != [] {
      StepStaysLive(anchor, s, d, events[0]);
      ListOnlyGrows(anchor, Step(anchor, s, events[0]), d, events[1..]);
    }
  }

  // ----- a reveal somebody waits for

  /** The user waits: nothing is buffered, a page is on its way, and it is to be shown when it comes. */
  ghost predicate Waiting(s: State, d: Direction) {
    && s.cell.Ready() && !s.cell.FlightAt(d).Idle?
    && s.cell.window.value.At(d).prefetch == [] && s.cell.window.value.At(d).revealOnArrival
  }

  /** Nothing but the page itself, or its failure, ends the waiting; least of all the requests that the
      prefetch effect makes after every update of the window. */
  lemma RevealStaysOn(anchor: Key, s: State, d: Direction, e: Event)
    requires Live(anchor, s, d) && Waiting(s, d) && e != PageArrives(d) && e != PageFails(d)
    ensures Waiting(Step(anchor, s, e), d) && RowsAt(Step(anchor, s, e), d) == RowsAt(s, d)
  {
    if !About(e, d) {
      OthersLeaveSide(anchor, s, d, e);
    } else if e.RequestPage? {
      RequestOnSide(anchor, s, d, e.revealOnArrival);
    } else if e.ReadPage? {
      ReadOnSide(anchor, s, d);
    } else {
      ShowMoreOnSide(anchor, s, d);
    }
  }

  ghost predicate PageStillOut(events: seq<Event>, d: Direction) {
    forall e :: e in events ==> e != PageArrives(d) && e != PageFails(d)
  }

  lemma {:induction false} RevealStaysOnThroughout(anchor: Key, s: State, d: Direction, events: seq<Event>)
    requires Live(anchor, s, d) && Waiting(s, d) && PageStillOut(events, d)
    ensures var s' := Run(anchor, s, events);
            Live(anchor, s', d) && Waiting(s', d) && RowsAt(s', d) == RowsAt(s, d)
    decreases |events|
  {
    if events != [] {
      assert events[0] in events && forall e :: e in events[1..] ==> e in events;
      RevealStaysOn(anchor, s, d, events[0]);
      StepStaysLive(anchor, s, d, events[0]);
      RevealStaysOnThroughout(anchor, Step(anchor, s, events[0]), d, events[1..]);
    }
  }

  lemma AwaitedPageGrows(anchor: Key, s: State, d: Direction)
    requires Live(anchor, s, d) && Waiting(s, d)
    ensures var s' := Step(anchor, Step(anchor, s, ReadPage(d)), PageArrives(d));
            s'.cell.Ready() && |RowsAt(s', d)| > |RowsAt(s, d)|
  {
    StepStaysLive(anchor, s, d, ReadPage(d));
    ReadOnSide(anchor, s, d);
    ArriveOnSide(anchor, Step(anchor, s, ReadPage(d)), d);
    var s1 := Step(anchor, s, ReadPage(d));
    RowsOutward(s1.table, anchor, d);
    ArriveKeeps(d, Rows(s1.table, anchor, d), s1.cell.window.value.At(d), s1.cell.FlightAt(d), Exact(d, false));
  }

  lemma MoreShowsOrAsks(d: Direction, all: seq<Row>, side: Side, flight: Flight, exact: bool)
    requires Outward(d, all) && SideInv(all, side, flight, exact) && !Stuck(side) && (side.prefetch != [] || side.hasMore)
    ensures var (next, cursor) := LoadMore(d, side);
            if side.prefetch != [] then |next.rows| > |side.rows|
            else next.rows == side.rows && next.prefetch == [] && next.revealOnArrival && (cursor.Some? || !flight.Idle?)
  {
    CursorIsLastLoaded(side);
    if side.prefetch != [] { ReleaseKeeps(d, all, side); }
  }

  /** Asking for more on a side that claims more: rows from the buffer show at once, or the side waits. */
  lemma AskingShowsOrWaits(anchor: Key, s: State, d: Direction)
    requires Live(anchor, s, d)
    requires s.cell.window.value.At(d).prefetch != [] || s.cell.window.value.At(d).hasMore
    ensures var s' := Step(anchor, s, ShowMore(d));
            && Live(anchor, s', d)
            && if s.cell.window.value.At(d).prefetch != [] then |RowsAt(s', d)| > |RowsAt(s, d)|
               else Waiting(s', d) && RowsAt(s', d) == RowsAt(s, d)
  {
    StepStaysLive(anchor, s, d, ShowMore(d));
    ShowMoreOnSide(anchor, s, d);
    RowsOutward(s.table, anchor, d);
    MoreShowsOrAsks(d, Rows(s.table, anchor, d), s.cell.window.value.At(d), s.cell.FlightAt(d), Exact(d, false));
  }

  /** Asking for more always shows more once the page is there, whatever else happens meanwhile:
      background requests, arriving messages, more asking, anything on the other side. */
  lemma ScrollingMakesProgress(anchor: Key, s: State, d: Direction, between: seq<Event>)
    requires Reachable(anchor, s, false) && s.cell.Ready() && !Stuck(s.cell.window.value.At(d))
    requires s.cell.window.value.At(d).prefetch != [] || s.cell.window.value.At(d).hasMore
    requires PageStillOut(between, d)
    ensures var asked := Run(anchor, Step(anchor, s, ShowMore(d)), between);
            var s' := Step(anchor, Step(anchor, asked, ReadPage(d)), PageArrives(d));
            s'.cell.Ready() && |RowsAt(s', d)| > |RowsAt(s, d)|
  {
    ReachableInv(anchor, s, false);
    LoadedIsLive(anchor, s, d);
    AskingShowsOrWaits(anchor, s, d);
    var s1 := Step(anchor, s, ShowMore(d));
    var asked := Run(anchor, s1, between);
    if s.cell.window.value.At(d).prefetch != [] {
      ListOnlyGrows(anchor, s1, d, between);
      StepStaysLive(anchor, asked, d, ReadPage(d));
      StepStaysLive(anchor, Step(anchor, asked, ReadPage(d)), d, PageArrives(d));
    } else {
      RevealStaysOnThroughout(anchor, s1, d, between);
      AwaitedPageGrows(anchor, asked, d);
    }
  }

  lemma HiddenPage(d: Direction, all: seq<Row>, side: Side, flight: Flight, exact: bool)
    requires Outward(d, all) && SideInv(all, side, flight, exact) && flight.Answered? && !side.revealOnArrival
    ensures Arrive(d, side, flight.result).rows == side.rows
    ensures |Arrive(d, side, flight.result).prefetch| > |side.prefetch|
  {
    var n := |side.Loaded()|;
    var page := Take(flight.result, MESSAGE_HISTORY_FETCH_SIZE);
    assert side.Loaded() + page == all[..n + |page|];
    ArriveAppends(d, all, side, flight.result);
  }

  /** A page nobody waits for goes to the buffer: the list does not move under the reader. */
  lemma UnawaitedPageIsBuffered(anchor: Key, s: State, d: Direction)
    requires Live(anchor, s, d) && s.cell.FlightAt(d).Answered? && !s.cell.window.value.At(d).revealOnArrival
    ensures var s' := Step(anchor, s, PageArrives(d));
            s'.cell.Ready() && RowsAt(s', d) == RowsAt(s, d) &&
            |s'.cell.window.value.At(d).prefetch| > |s.cell.window.value.At(d).prefetch|
  {
    ArriveOnSide(anchor, s, d);
    RowsOutward(s.table, anchor, d);
    HiddenPage(d, Rows(s.table, anchor, d), s.cell.window.value.At(d), s.cell.FlightAt(d), Exact(d, false));
  }

  /** Nobody asks to see more of side d: no scrolling, and only requests of the effect. */
  ghost predicate NobodyAsks(events: seq<Event>, d: Direction) {
    forall e :: e in events ==> e != ShowMore(d) && e != RequestPage(d, true)
  }

  /** The list of a side moves only when somebody asked: until then pages go to the buffer, and no
      request of the effect turns the reveal on. */
  lemma {:induction false} ListMovesOnlyWhenAsked(anchor: Key, s: State, d: Direction, events: seq<Event>)
    requires Live(anchor, s, d) && !s.cell.window.value.At(d).revealOnArrival && NobodyAsks(events, d)
    ensures var s' := Run(anchor, s, events);
            s'.cell.Ready() && RowsAt(s', d) == RowsAt(s, d) && !s'.cell.window.value.At(d).revealOnArrival
    decreases |events|
  {
    if events != [] {
      assert events[0] in events && forall e :: e in events[1..] ==> e in events;
      StepStaysLive(anchor, s, d, events[0]);
      if events[0] == PageArrives(d) { UnaskedPage(anchor, s, d); } else { UnaskedOther(anchor, s, d, events[0]); }
      ListMovesOnlyWhenAsked(anchor, Step(anchor, s, events[0]), d, events[1..]);
    }
  }

  /** The rows shown are these, and no reveal waits. */
  ghost predicate Still(s: State, d: Direction, rows: seq<Row>) {
    s.cell.Ready() && RowsAt(s, d) == rows && !s.cell.window.value.At(d).revealOnArrival
  }

  lemma UnaskedPage(anchor: Key, s: State, d: Direction)
    requires Live(anchor, s, d) && !s.cell.window.value.At(d).revealOnArrival
    ensures Still(Step(anchor, s, PageArrives(d)), d, RowsAt(s, d))
  {
    ArriveOnSide(anchor, s, d);
    if s.cell.FlightAt(d).Answered? { UnawaitedPageIsBuffered(anchor, s, d); }
  }

  lemma UnaskedOther(anchor: Key, s: State, d: Direction, e: Event)
    requires s.cell.Ready() && s.cell.load.NoLoad? && !s.cell.window.value.At(d).revealOnArrival
    requires e != ShowMore(d) && e != RequestPage(d, true) && e != PageArrives(d)
    ensures Still(Step(anchor, s, e), d, RowsAt(s, d))
  {
    if !About(e, d) {
      OthersLeaveSide(anchor, s, d, e);
    } else if e.RequestPage? {
      RequestOnSide(anchor, s, d, false);
    } else if e.ReadPage? {
      ReadOnSide(anchor, s, d);
    } else {
      FailOnSide(anchor, s, d);
    }
  }

  // ----- the first load

  /** No window yet, or one whose load was cancelled. */
  predicate CanLoad(s: State) {
    s.cell.window.None? || (!s.cell.window.value.loaded && !s.cell.window.value.older.requestInFlight)
  }

  /** A jump loads both sides around its target: the rows nearest to it show, the rest of one fetch is
      buffered, and a side claims more exactly when it has more. */
  lemma JumpLoadsBothSides(anchor: Key, s: State)
    requires Inv(anchor, s, false) && CanLoad(s)
    ensures var s1 := Step(anchor, s, StartLoad);
            var s' := Step(anchor, Step(anchor, Step(anchor, s1, ReadLoad(Older)), ReadLoad(Newer)), LoadArrives);
            && s'.table == s.table && s'.cell.Ready()
            && forall d :: var all, side := Rows(s.table, anchor, d), s'.cell.window.value.At(d);
                 && side.rows == Take(all, ANCHOR_PAGE_SIZE) && side.Loaded() == Take(all, MESSAGE_HISTORY_FETCH_SIZE)
                 && (side.hasMore <==> |side.Loaded()| < |all|)
  {
    forall d ensures var all := Rows(s.table, anchor, d); var side := LoadedSide(InitialQuery(s.table, anchor, d));
                     && side.rows == Take(all, ANCHOR_PAGE_SIZE) && side.Loaded() == Take(all, MESSAGE_HISTORY_FETCH_SIZE)
                     && (side.hasMore <==> |side.Loaded()| < |all|)
    {
      FirstFetch(Rows(s.table, anchor, d));
    }
    LoadSteps(anchor, s);
  }

  lemma FirstFetch(all: seq<Row>)
    ensures var side := LoadedSide(Take(all, MESSAGE_HISTORY_FETCH_SIZE + 1));
            && side.rows == Take(all, ANCHOR_PAGE_SIZE) && side.Loaded() == Take(all, MESSAGE_HISTORY_FETCH_SIZE)
            && (side.hasMore <==> |side.Loaded()| < |all|)
  {}

  lemma LoadStarts(anchor: Key, s: State)
    requires CanLoad(s)
    ensures Step(anchor, s, StartLoad).table == s.table && Step(anchor, s, StartLoad).cell.load == Loading(None, None)
  {}

  lemma LoadReads(anchor: Key, s: State, d: Direction)
    requires s.cell.load.Loading?
    ensures var s', result := Step(anchor, s, ReadLoad(d)), Some(InitialQuery(s.table, anchor, d));
            && s'.table == s.table
            && s'.cell.load == if d == Older then Loading(result, s.cell.load.newer) else Loading(s.cell.load.older, result)
  {}

  lemma LoadEnds(anchor: Key, s: State, older: seq<Row>, newer: seq<Row>)
    requires s.cell.load == Loading(Some(older), Some(newer))
    ensures Step(anchor, s, LoadArrives).table == s.table
    ensures Step(anchor, s, LoadArrives).cell.window == Some(LoadedWindow(older, newer))
  {}

  lemma LoadSteps(anchor: Key, s: State)
    requires CanLoad(s)
    ensures var s1 := Step(anchor, s, StartLoad);
            var s' := Step(anchor, Step(anchor, Step(anchor, s1, ReadLoad(Older)), ReadLoad(Newer)), LoadArrives);
            && s'.table == s.table
            && s'.cell.window == Some(LoadedWindow(InitialQuery(s.table, anchor, Older), InitialQuery(s.table, anchor, Newer)))
  {
    LoadStarts(anchor, s);
    var s1 := Step(anchor, s, StartLoad);
    LoadReads(anchor, s1, Older);
    var s2 := Step(anchor, s1, ReadLoad(Older));
    LoadReads(anchor, s2, Newer);
    LoadEnds(anchor, Step(anchor, s2, ReadLoad(Newer)), InitialQuery(s.table, anchor, Older), InitialQuery(s.table, anchor, Newer));
  }

  /** A cancelled load leaves the window as free to load as if it had never started. */
  lemma CancelledLoadCanRestart(anchor: Key, s: State)
    requires Inv(anchor, s, false) && s.cell.load.Loading?
    ensures CanLoad(Step(anchor, s, CancelLoad))
  {}

  /** A message that arrives is there for the next query of the newer side, and for no older one. */
  lemma ArrivalIsSeenByTheNextQuery(anchor: Key, s: State, row: Row)
    requires CanInsert(s.table, anchor, row) && IsWindow(s.table)
    ensures var s' := Step(anchor, s, HeadInsert(row));
            && s'.cell == s.cell
            && Rows(s'.table, anchor, Newer) == Rows(s.table, anchor, Newer) + [row]
            && Rows(s'.table, anchor, Older) == Rows(s.table, anchor, Older)
  {
    GrowthExtendsRows(s.table, row, anchor);
  }

  // ----- a failed page

  /** The test of the effect that keeps the buffers filled. */
  predicate WantsPrefetch(side: Side) {
    side.hasMore && !side.prefetchFailed && |side.prefetch| <= MESSAGE_HISTORY_PREFETCH_THRESHOLD
  }

  /** Of side d, the effect asks only when it wants to, never for a reveal; nobody scrolls. */
  ghost predicate EffectOnly(s: State, d: Direction, e: Event) {
    e != ShowMore(d) &&
    (e.RequestPage? && e.d == d ==> !e.revealOnArrival && s.cell.Ready() && WantsPrefetch(s.cell.window.value.At(d)))
  }

  ghost predicate AllEffectOnly(anchor: Key, s: State, d: Direction, events: seq<Event>)
    decreases |events|
  {
    events == [] || (EffectOnly(s, d, events[0]) && AllEffectOnly(anchor, Step(anchor, s, events[0]), d, events[1..]))
  }

  /** A side whose page failed is left alone until the user scrolls: the effect does not retry in a
      loop, and nothing of the side changes. */
  lemma {:induction false} FailedPageWaitsForTheUser(anchor: Key, s: State, d: Direction, events: seq<Event>)
    requires s.cell.Ready() && s.cell.load.NoLoad? && s.cell.FlightAt(d).Idle?
    requires s.cell.window.value.At(d).prefetchFailed && AllEffectOnly(anchor, s, d, events)
    ensures Holds(Run(anchor, s, events), d, s.cell.window.value.At(d), Idle)
    decreases |events|
  {
    if events != [] {
      var s' := Step(anchor, s, events[0]);
      if About(events[0], d) { IdleSideIgnores(anchor, s, d, events[0]); } else { OthersLeaveSide(anchor, s, d, events[0]); }
      StaysLoaded(anchor, s, events[0]);
      FailedPageWaitsForTheUser(anchor, s', d, events[1..]);
    }
  }

  lemma StaysLoaded(anchor: Key, s: State, e: Event)
    requires s.cell.Ready() && s.cell.load.NoLoad?
    ensures Step(anchor, s, e).cell.load.NoLoad?
  {}

  lemma IdleSideIgnores(anchor: Key, s: State, d: Direction, e: Event)
    requires s.cell.Ready() && s.cell.FlightAt(d).Idle? && s.cell.window.value.At(d).prefetchFailed
    requires About(e, d) && EffectOnly(s, d, e)
    ensures Step(anchor, s, e) == s
  {}

  /** A page that comes, like the first load, clears the mark of an earlier failure: the effect goes on
      filling the buffer while the side claims more. */
  lemma SuccessClearsFailure(anchor: Key, s: State, d: Direction, e: Event)
    requires e == LoadArrives || e == PageArrives(d)
    requires Step(anchor, s, e) != s && Step(anchor, s, e).cell.Ready()
    ensures var side := Step(anchor, s, e).cell.window.value.At(d);
            && !side.prefetchFailed && !side.requestInFlight && !side.revealOnArrival
            && (WantsPrefetch(side) <==> side.hasMore && |side.prefetch| <= 30)
  {}

  lemma FailedPage(anchor: Key, s: State, d: Direction)
    requires s.cell.Ready() && !s.cell.FlightAt(d).Idle?
    ensures var s' := Step(anchor, s, PageFails(d));
            && s'.cell.Ready() && s'.cell.FlightAt(d).Idle? && s'.cell.window.value.At(d).prefetchFailed
            && RowsAt(s', d) == RowsAt(s, d) && s'.cell.window.value.At(d).prefetch == s.cell.window.value.At(d).prefetch
            && !WantsPrefetch(s'.cell.window.value.At(d))
  {
    FailOnSide(anchor, s, d);
  }

  /** After a failure in any run: with an empty buffer the next scroll asks again, and clears the mark. */
  lemma ScrollRetries(anchor: Key, s: State, d: Direction)
    requires Live(anchor, s, d) && !s.cell.FlightAt(d).Idle? && s.cell.window.value.At(d).prefetch == []
    ensures var s' := Step(anchor, Step(anchor, s, PageFails(d)), ShowMore(d));
            Waiting(s', d) && s'.cell.FlightAt(d).Asked? && !s'.cell.window.value.At(d).prefetchFailed
  {
    var failed := Step(anchor, s, PageFails(d));
    FailedPage(anchor, s, d);
    FailOnSide(anchor, s, d);
    ShowMoreOnSide(anchor, failed, d);
    CursorIsLastLoaded(failed.cell.window.value.At(d));
  }

  /** While the effect wants a prefetch on a live side, its request starts one, and the page that
      answers puts rows into the buffer. */
  lemma PrefetchAsks(anchor: Key, s: State, d: Direction)
    requires Live(anchor, s, d) && WantsPrefetch(s.cell.window.value.At(d)) && s.cell.FlightAt(d).Idle?
    ensures var s' := Step(anchor, s, RequestPage(d, false));
            && s.cell.window.value.At(d).Loaded() != [] && s'.cell.Ready()
            && s'.cell.FlightAt(d) == Asked(Last(s.cell.window.value.At(d).Loaded()).key)
            && RowsAt(s', d) == RowsAt(s, d) && !s'.cell.window.value.At(d).revealOnArrival
  {
    RequestOnSide(anchor, s, d, false);
    CursorIsLastLoaded(s.cell.window.value.At(d));
  }
}
