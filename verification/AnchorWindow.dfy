/** The anchored history window: a bounded page on each side of a target message, grown in both
    directions from prefetch buffers while requests are in flight. */
module AnchorWindow {
  import opened MessageOrder
  import opened MessageWindow
  import opened MessageTable
  import opened Wrappers

  const ANCHOR_PAGE_SIZE := 10

  datatype Direction = Older | Newer

  /** One side of the window record. Older rows are newest-first and newer rows oldest-first, so
      both sides read away from the anchor. */
  datatype Side = Side(
    rows: seq<Row>,
    prefetch: seq<Row>,
    hasMore: bool,
    requestInFlight: bool,
    revealOnArrival: bool,
    prefetchFailed: bool)
  {
    function Loaded(): seq<Row> {
      rows + prefetch
    }
  }

  datatype Window = Window(older: Side, newer: Side, loaded: bool)
  {
    function At(d: Direction): Side {
      if d == Older then older else newer
    }

    function With(d: Direction, side: Side): Window {
      if d == Older then this.(older := side) else this.(newer := side)
    }
  }

  // ----- the updates of one window record

  const LOADING_SIDE := Side([], [], true, true, false, false)
  const BLANK_SIDE := Side([], [], false, false, false, false)
  const BLANK_WINDOW := Window(BLANK_SIDE, BLANK_SIDE, false)
  const LOADING_WINDOW := Window(LOADING_SIDE, LOADING_SIDE, false)

  function LoadedSide(result: seq<Row>): Side {
    Side(Take(result, ANCHOR_PAGE_SIZE), Drop(Take(result, MESSAGE_HISTORY_FETCH_SIZE), ANCHOR_PAGE_SIZE),
         |result| > MESSAGE_HISTORY_FETCH_SIZE, false, false, false)
  }

  function LoadedWindow(olderResult: seq<Row>, newerResult: seq<Row>): Window {
    Window(LoadedSide(olderResult), LoadedSide(newerResult), true)
  }

  function Released(window: Window): Window {
    window.(older := window.older.(requestInFlight := false),
            newer := window.newer.(requestInFlight := false))
  }

  function FailedLoad(current: Option<Window>): Window {
    match current
    case Some(window) => Released(window).(loaded := true)
    case None => Window(BLANK_SIDE, BLANK_SIDE, true)
  }

  function Cursor(side: Side): Option<Key> {
    if side.prefetch != [] then Some(Last(side.prefetch).key)
    else if side.rows != [] then Some(Last(side.rows).key)
    else None
  }

  /** The side after `requestAnchorHistory`, and the cursor of the query it starts, if any. */
  function Request(side: Side, revealOnArrival: bool): (Side, Option<Key>) {
    if side.requestInFlight then
      (if revealOnArrival then side.(revealOnArrival := true) else side, None)
    else if !side.hasMore || Cursor(side).None? then (side, None)
    else
      (side.(requestInFlight := true, revealOnArrival := revealOnArrival, prefetchFailed := false), Cursor(side))
  }

  function MergeSide(d: Direction, left: seq<Row>, right: seq<Row>): seq<Row> {
    if d == Older then Merge(left, right) else MergeOldestFirst(left, right)
  }

  function Arrive(d: Direction, side: Side, result: seq<Row>): Side {
    var expanded := MergeSide(d, side.prefetch, Take(result, MESSAGE_HISTORY_FETCH_SIZE));
    var revealed := if side.revealOnArrival then Take(expanded, MESSAGES_PAGE_SIZE) else [];
    var prefetched := if side.revealOnArrival then Drop(expanded, MESSAGES_PAGE_SIZE) else expanded;
    Side(MergeSide(d, side.rows, revealed), prefetched, |result| > MESSAGE_HISTORY_FETCH_SIZE, false, false, false)
  }

  function Fail(side: Side): Side {
    side.(requestInFlight := false, revealOnArrival := false, prefetchFailed := true)
  }

  /** `loadOlder` and `loadNewer`: show a page from the buffer, or ask for one. */
  function LoadMore(d: Direction, side: Side): (Side, Option<Key>) {
    if side.prefetch != [] then
      (side.(rows := MergeSide(d, side.rows, Take(side.prefetch, MESSAGES_PAGE_SIZE)),
             prefetch := Drop(side.prefetch, MESSAGES_PAGE_SIZE)), None)
    else if side.hasMore then Request(side, true)
    else (side, None)
  }

  // ----- the window records of the mounted hook

  class AnchorHistory {
    var windows: map<Key, Window>

    constructor ()
      ensures windows == map[]
    {
      windows := map[];
    }

    method BeginLoad(anchor: Key) returns (started: bool)
      modifies this
      ensures started <==> !(anchor in old(windows) &&
                             (old(windows)[anchor].loaded || old(windows)[anchor].older.requestInFlight))
      ensures windows == if started then old(windows)[anchor := LOADING_WINDOW] else old(windows)
    {
      if anchor in windows && (windows[anchor].loaded || windows[anchor].older.requestInFlight) {
        return false;
      }
      windows := windows[anchor := LOADING_WINDOW];
      started := true;
    }

    method FinishLoad(anchor: Key, olderResult: seq<Row>, newerResult: seq<Row>)
      modifies this
      ensures windows == old(windows)[anchor := LoadedWindow(olderResult, newerResult)]
      ensures windows[anchor].loaded
      ensures windows[anchor].older.Loaded() == Take(olderResult, MESSAGE_HISTORY_FETCH_SIZE)
      ensures windows[anchor].newer.Loaded() == Take(newerResult, MESSAGE_HISTORY_FETCH_SIZE)
      ensures forall all :: Answers(all, 0, olderResult, true) ==> SideInv(all, windows[anchor].older, Idle, true)
      ensures forall all, exact :: Answers(all, 0, newerResult, exact) ==> SideInv(all, windows[anchor].newer, Idle, exact)
    {
      forall all | Answers(all, 0, olderResult, true) ensures SideInv(all, LoadedSide(olderResult), Idle, true) {
        LoadedSideKeeps(all, olderResult, true);
      }
      forall all, exact | Answers(all, 0, newerResult, exact) ensures SideInv(all, LoadedSide(newerResult), Idle, exact) {
        LoadedSideKeeps(all, newerResult, exact);
      }
      windows := windows[anchor := LoadedWindow(olderResult, newerResult)];
    }

    method FailLoad(anchor: Key)
      modifies this
      ensures windows == old(windows)[anchor :=
                FailedLoad(if anchor in old(windows) then Some(old(windows)[anchor]) else None)]
      ensures windows[anchor].loaded
      ensures forall d :: !windows[anchor].At(d).requestInFlight
      ensures anchor in old(windows) ==> forall d :: windows[anchor].At(d).Loaded() == old(windows)[anchor].At(d).Loaded()
      ensures anchor in old(windows) && old(windows)[anchor] == LOADING_WINDOW ==>
                Stuck(windows[anchor].older) && Stuck(windows[anchor].newer)
    {
      windows := windows[anchor := FailedLoad(if anchor in windows then Some(windows[anchor]) else None)];
    }

    /** The cleanup of the load effect; the caller drops the pending result. */
    method CancelLoad(anchor: Key)
      modifies this
      ensures windows == if anchor in old(windows) && !old(windows)[anchor].loaded
                         then old(windows)[anchor := Released(old(windows)[anchor])] else old(windows)
      ensures anchor in windows && !windows[anchor].loaded ==> !windows[anchor].older.requestInFlight
      ensures anchor in old(windows) ==>
                && windows[anchor].loaded == old(windows)[anchor].loaded
                && forall d :: windows[anchor].At(d).Loaded() == old(windows)[anchor].At(d).Loaded()
    {
      if anchor in windows && !windows[anchor].loaded {
        windows := windows[anchor := Released(windows[anchor])];
      }
    }

    method RequestAnchorHistory(anchor: Key, d: Direction, revealOnArrival: bool) returns (cursor: Option<Key>)
      modifies this
      ensures if anchor in old(windows) && old(windows)[anchor].loaded
              then var (side, c) := Request(old(windows)[anchor].At(d), revealOnArrival);
                   cursor == c && windows == old(windows)[anchor := old(windows)[anchor].With(d, side)]
              else cursor == None && windows == old(windows)
      ensures anchor in old(windows) && old(windows)[anchor].At(d).requestInFlight && old(windows)[anchor].loaded ==>
                windows[anchor].At(d).revealOnArrival == (old(windows)[anchor].At(d).revealOnArrival || revealOnArrival)
    {
      if anchor !in windows || !windows[anchor].loaded { return None; }
      var window := windows[anchor];
      var side := window.At(d);
      if side.requestInFlight {
        if revealOnArrival && !side.revealOnArrival {
          side := side.(revealOnArrival := true);
        }
        windows := windows[anchor := window.With(d, side)];
        return None;
      }
      cursor := None;
      if side.hasMore {
        if |side.prefetch| > 0 {
          cursor := Some(side.prefetch[|side.prefetch| - 1].key);
        } else if |side.rows| > 0 {
          cursor := Some(side.rows[|side.rows| - 1].key);
        }
      }
      if cursor.Some? {
        side := side.(requestInFlight := true, revealOnArrival := revealOnArrival, prefetchFailed := false);
      }
      windows := windows[anchor := window.With(d, side)];
    }

    method PageArrived(anchor: Key, d: Direction, result: seq<Row>)
      modifies this
      ensures windows == if anchor in old(windows)
                         then old(windows)[anchor := old(windows)[anchor].With(d, Arrive(d, old(windows)[anchor].At(d), result))]
                         else old(windows)
    {
      if anchor !in windows { return; }
      var side := Arrived(d, windows[anchor].At(d), result);
      windows := windows[anchor := windows[anchor].With(d, side)];
    }

    /** With no record under this anchor, the source spreads `undefined` and writes only the
        flags; the fields it leaves undefined read as an unloaded record. */
    method PageFailed(anchor: Key, d: Direction)
      modifies this
      ensures var window := if anchor in old(windows) then old(windows)[anchor] else BLANK_WINDOW;
              windows == old(windows)[anchor := window.With(d, Fail(window.At(d)))]
      ensures anchor in old(windows) ==>
                forall all, flight, exact :: SideInv(all, old(windows)[anchor].At(d), flight, exact) ==>
                                             SideInv(all, windows[anchor].At(d), Idle, exact)
      ensures forall onArrival :: Request(windows[anchor].At(d), onArrival).1 ==
                                  if windows[anchor].At(d).hasMore then Cursor(windows[anchor].At(d)) else None
    {
      var window := if anchor in windows then windows[anchor] else BLANK_WINDOW;
      windows := windows[anchor := window.With(d, Fail(window.At(d)))];
    }

    /** `loadOlder` for d == Older, `loadNewer` for d == Newer. */
    method LoadPage(anchor: Key, d: Direction) returns (cursor: Option<Key>)
      modifies this
      ensures if anchor in old(windows) && old(windows)[anchor].loaded
              then var (side, c) := LoadMore(d, old(windows)[anchor].At(d));
                   cursor == c && windows == old(windows)[anchor := old(windows)[anchor].With(d, side)]
              else cursor == None && windows == old(windows)
    {
      if anchor !in windows || !windows[anchor].loaded { return None; }
      var side := windows[anchor].At(d);
      if |side.prefetch| > 0 {
        var revealed := if |side.prefetch| <= MESSAGES_PAGE_SIZE then side.prefetch
                        else side.prefetch[..MESSAGES_PAGE_SIZE];
        var rows := MergeRows(d, side.rows, revealed);
        var rest := side.prefetch[|revealed|..];
        assert rest == Drop(side.prefetch, MESSAGES_PAGE_SIZE);
        windows := windows[anchor := windows[anchor].With(d, side.(rows := rows, prefetch := rest))];
        return None;
      } else if side.hasMore {
        cursor := RequestAnchorHistory(anchor, d, true);
      } else {
        windows := windows[anchor := windows[anchor].With(d, side)];
        return None;
      }
    }
  }

  method MergeRows(d: Direction, left: seq<Row>, right: seq<Row>) returns (merged: seq<Row>)
    ensures merged == MergeSide(d, left, right)
  {
    if d == Older {
      merged := MergeNewestFirstRows(left, right);
    } else {
      var reversed := MergeNewestFirstRows(Reverse(left), Reverse(right));
      merged := Reverse(reversed);
    }
  }

  method Arrived(d: Direction, side: Side, result: seq<Row>) returns (next: Side)
    ensures next == Arrive(d, side, result)
  {
    var page := if |result| <= MESSAGE_HISTORY_FETCH_SIZE then result else result[..MESSAGE_HISTORY_FETCH_SIZE];
    var expanded := MergeRows(d, side.prefetch, page);
    var revealed, prefetched := [], expanded;
    if side.revealOnArrival {
      revealed := if |expanded| <= MESSAGES_PAGE_SIZE then expanded else expanded[..MESSAGES_PAGE_SIZE];
      prefetched := expanded[|revealed|..];
      assert prefetched == Drop(expanded, MESSAGES_PAGE_SIZE);
    }
    var rows := MergeRows(d, side.rows, revealed);
    next := Side(rows, prefetched, |result| > MESSAGE_HISTORY_FETCH_SIZE, false, false, false);
  }

  // ----- the queries

  /** Every row on one side of the anchor, reading away from it. */
  function Rows(table: seq<Row>, anchor: Key, d: Direction): seq<Row> {
    if d == Older then Where(table, AtOrOlder(anchor)) else Reverse(Where(table, StrictlyNewer(anchor)))
  }

  function InitialQuery(table: seq<Row>, anchor: Key, d: Direction): seq<Row> {
    Take(Rows(table, anchor, d), MESSAGE_HISTORY_FETCH_SIZE + 1)
  }

  function PageQuery(table: seq<Row>, cursor: Key, d: Direction): seq<Row> {
    Take(if d == Older then Where(table, StrictlyOlder(cursor)) else Reverse(Where(table, StrictlyNewer(cursor))),
         MESSAGE_HISTORY_FETCH_SIZE + 1)
  }

  ghost predicate Outward(d: Direction, rows: seq<Row>) {
    (if d == Older then NewestFirst(rows) else OldestFirst(rows)) && DistinctIds(rows)
  }

  lemma RowsOutward(table: seq<Row>, anchor: Key, d: Direction)
    requires IsWindow(table)
    ensures Outward(d, Rows(table, anchor, d))
    ensures forall row :: row in Rows(table, anchor, d) <==>
              row in table && (if d == Older then !IsMessageOrderNewer(row.key, anchor) else IsMessageOrderNewer(row.key, anchor))
  {
    var condition := if d == Older then AtOrOlder(anchor) else StrictlyNewer(anchor);
    WhereIsWindow(table, condition);
    SameMembers(Where(table, condition));
    forall row ensures row in Rows(table, anchor, d) <==> row in table && condition.Holds(row.key) {
      WhereMembers(table, condition, row);
    }
    AnchorCondition(anchor, d);
    if d == Newer { ReversedWindow(Where(table, condition)); }
  }

  lemma AnchorCondition(anchor: Key, d: Direction)
    ensures var condition := if d == Older then AtOrOlder(anchor) else StrictlyNewer(anchor);
            forall key: Key :: condition.Holds(key) <==>
              if d == Older then !IsMessageOrderNewer(key, anchor) else IsMessageOrderNewer(key, anchor)
  {}

  lemma ReversedWindow(rows: seq<Row>)
    requires IsWindow(rows)
    ensures OldestFirst(Reverse(rows)) && DistinctIds(Reverse(rows))
  {}

  /** The rows beyond the n-th row outward are those that satisfy a page query from it. */
  lemma RowsBeyond(table: seq<Row>, anchor: Key, d: Direction, n: nat, row: Row)
    requires IsWindow(table) && 0 < n <= |Rows(table, anchor, d)|
    ensures var all := Rows(table, anchor, d);
            var cursor := all[n - 1].key;
            row in all[n..] <==> row in table && (if d == Older then StrictlyOlder(cursor) else StrictlyNewer(cursor)).Holds(row.key)
  {
    var all := Rows(table, anchor, d);
    var rest, cursor := all[n..], all[n - 1].key;
    RowsOutward(table, anchor, d);
    assert all[n - 1] in all;
    if row in table && (if d == Older then StrictlyOlder(cursor) else StrictlyNewer(cursor)).Holds(row.key) {
      assert row in all;
      var i :| 0 <= i < |all| && all[i] == row;
      assert i >= n && rest[i - n] == row;
    }
    if row in rest {
      var i :| 0 <= i < |rest| && rest[i] == row;
      assert all[n + i] == row;
    }
  }

  /** A page query whose cursor is the n-th row outward returns the rows right after it. */
  lemma PageFollowsCursor(table: seq<Row>, anchor: Key, d: Direction, n: nat)
    requires IsWindow(table) && 0 < n <= |Rows(table, anchor, d)|
    ensures PageQuery(table, Rows(table, anchor, d)[n - 1].key, d)
            == Take(Rows(table, anchor, d)[n..], MESSAGE_HISTORY_FETCH_SIZE + 1)
  {
    var all := Rows(table, anchor, d);
    var rest, cursor := all[n..], all[n - 1].key;
    RowsOutward(table, anchor, d);
    var condition := if d == Older then StrictlyOlder(cursor) else StrictlyNewer(cursor);
    forall row ensures row in rest <==> row in table && condition.Holds(row.key) {
      RowsBeyond(table, anchor, d, n, row);
    }
    if d == Older {
      WhereIs(table, condition, rest);
    } else {
      SameMembers(rest);
      WhereIs(table, condition, Reverse(rest));
      ReverseTwice(rest);
    }
  }

  /** Rows arriving at the newest end leave the older side alone and extend the newer side. */
  lemma GrowthExtendsRows(table: seq<Row>, row: Row, anchor: Key)
    requires IsWindow([row] + table) && IsMessageOrderNewer(row.key, anchor)
    ensures Rows([row] + table, anchor, Older) == Rows(table, anchor, Older)
    ensures Rows([row] + table, anchor, Newer) == Rows(table, anchor, Newer) + [row]
  {
    assert ([row] + table)[1..] == table;
    var newer := Where(table, StrictlyNewer(anchor));
    assert Where([row] + table, StrictlyNewer(anchor)) == [row] + newer;
    ReverseConcat([row], newer);
  }

  // ----- the machine for one anchor

  /** A history request: waiting for the database, or answered and waiting to be handled. */
  datatype Flight = Idle | Asked(cursor: Key) | Answered(cursor: Key, result: seq<Row>)

  /** The initial pair of queries, each answered on its own. */
  datatype Load = NoLoad | Loading(older: Option<seq<Row>>, newer: Option<seq<Row>>)

  datatype Cell = Cell(window: Option<Window>, load: Load, olderFlight: Flight, newerFlight: Flight)
  {
    function FlightAt(d: Direction): Flight {
      if d == Older then olderFlight else newerFlight
    }

    function WithFlight(d: Direction, flight: Flight): Cell {
      if d == Older then this.(olderFlight := flight) else this.(newerFlight := flight)
    }

    function WithSide(d: Direction, side: Side): Cell
      requires window.Some?
    {
      this.(window := Some(window.value.With(d, side)))
    }

    predicate Ready() {
      window.Some? && window.value.loaded
    }
  }

  datatype State = State(table: seq<Row>, cell: Cell)

  datatype Event =
    | HeadInsert(row: Row)
    | StartLoad
    | ReadLoad(d: Direction)
    | LoadArrives
    | LoadFails
    | CancelLoad
    | RequestPage(d: Direction, revealOnArrival: bool)
    | ReadPage(d: Direction)
    | PageArrives(d: Direction)
    | PageFails(d: Direction)
    | ShowMore(d: Direction)

  ghost predicate CanInsert(table: seq<Row>, anchor: Key, row: Row) {
    IsWindow([row] + table) && IsMessageOrderNewer(row.key, anchor)
  }

  function Ask(cell: Cell, d: Direction, next: (Side, Option<Key>)): Cell
    requires cell.window.Some?
  {
    var updated := cell.WithSide(d, next.0);
    if next.1.Some? then updated.WithFlight(d, Asked(next.1.value)) else updated
  }

  /** One step. An event that cannot happen in the current state changes nothing. */
  ghost function Step(anchor: Key, s: State, e: Event): State {
    var c := s.cell;
    match e
    case HeadInsert(row) => if CanInsert(s.table, anchor, row) then s.(table := [row] + s.table) else s
    case StartLoad =>
      if c.window.Some? && (c.window.value.loaded || c.window.value.older.requestInFlight) then s
      else s.(cell := c.(window := Some(LOADING_WINDOW), load := Loading(None, None)))
    case ReadLoad(d) =>
      if !c.load.Loading? then s
      else
        var result := Some(InitialQuery(s.table, anchor, d));
        s.(cell := c.(load := if d == Older then c.load.(older := result) else c.load.(newer := result)))
    case LoadArrives =>
      if c.load.Loading? && c.load.older.Some? && c.load.newer.Some? then
        s.(cell := c.(window := Some(LoadedWindow(c.load.older.value, c.load.newer.value)), load := NoLoad))
      else s
    case LoadFails =>
      if c.load.Loading? then s.(cell := c.(window := Some(FailedLoad(c.window)), load := NoLoad)) else s
    case CancelLoad =>
      if c.load.Loading? && c.window.Some? && !c.window.value.loaded then
        s.(cell := c.(window := Some(Released(c.window.value)), load := NoLoad))
      else s
    case RequestPage(d, onArrival) =>
      if c.Ready() then s.(cell := Ask(c, d, Request(c.window.value.At(d), onArrival))) else s
    case ReadPage(d) =>
      if c.FlightAt(d).Asked? then
        var cursor := c.FlightAt(d).cursor;
        s.(cell := c.WithFlight(d, Answered(cursor, PageQuery(s.table, cursor, d))))
      else s
    case PageArrives(d) =>
      if c.window.Some? && c.FlightAt(d).Answered? then
        s.(cell := c.WithSide(d, Arrive(d, c.window.value.At(d), c.FlightAt(d).result)).WithFlight(d, Idle))
      else s
    case PageFails(d) =>
      if c.window.Some? && !c.FlightAt(d).Idle? then
        s.(cell := c.WithSide(d, Fail(c.window.value.At(d))).WithFlight(d, Idle))
      else s
    case ShowMore(d) =>
      if c.Ready() then s.(cell := Ask(c, d, LoadMore(d, c.window.value.At(d)))) else s
  }

  ghost function Run(anchor: Key, s: State, events: seq<Event>): State
    decreases |events|
  {
    if events == [] then s else Run(anchor, Step(anchor, s, events[0]), events[1..])
  }

  function Start(table: seq<Row>): State {
    State(table, Cell(None, NoLoad, Idle, Idle))
  }

  // ----- the invariant

  /** A side whose initial load failed: nothing loaded, and no cursor to ask with. */
  predicate Stuck(side: Side) {
    side.rows == [] && side.prefetch == [] && side.hasMore && !side.requestInFlight
  }

  /** A query result is the rows following position n; if it came back short, nothing followed it. */
  ghost predicate Answers(all: seq<Row>, n: nat, result: seq<Row>, exact: bool) {
    && n + |result| <= |all| && result == all[n..n + |result|]
    && |result| <= MESSAGE_HISTORY_FETCH_SIZE + 1
    && (exact && |result| <= MESSAGE_HISTORY_FETCH_SIZE ==> n + |result| == |all|)
  }

  /** `all` is every row on this side; `exact` says no row was inserted on it meanwhile. */
  ghost predicate SideInv(all: seq<Row>, side: Side, flight: Flight, exact: bool) {
    var n := |side.Loaded()|;
    && side.Loaded() <= all
    && (side.rows == [] ==> side.prefetch == [])
    && (side.requestInFlight <==> !flight.Idle?)
    && (side.revealOnArrival ==> side.requestInFlight)
    && (side.requestInFlight ==> n > 0 && side.hasMore && flight.cursor == all[n - 1].key)
    && (flight.Answered? ==> flight.result != [] && Answers(all, n, flight.result, exact))
    && (side.hasMore ==> n < |all|)
    && (exact && !side.hasMore ==> n == |all|)
  }

  ghost predicate Exact(d: Direction, frozen: bool) {
    d == Older || frozen
  }

  ghost predicate LoadInv(table: seq<Row>, anchor: Key, load: Load, frozen: bool) {
    load.Loading? ==> (
      && (load.older.Some? ==> Answers(Rows(table, anchor, Older), 0, load.older.value, true))
      && (load.newer.Some? ==> Answers(Rows(table, anchor, Newer), 0, load.newer.value, frozen)))
  }

  ghost predicate UnloadedSide(side: Side, cell: Cell, d: Direction) {
    && side.Loaded() == [] && side.hasMore
    && (side.requestInFlight <==> cell.load.Loading?)
    && cell.FlightAt(d).Idle?
  }

  ghost predicate Inv(anchor: Key, s: State, frozen: bool) {
    var c := s.cell;
    && IsWindow(s.table)
    && LoadInv(s.table, anchor, c.load, frozen)
    && match c.window {
         case None => c.load.NoLoad? && c.olderFlight.Idle? && c.newerFlight.Idle?
         case Some(w) =>
           if !w.loaded then UnloadedSide(w.older, c, Older) && UnloadedSide(w.newer, c, Newer)
           else
             && c.load.NoLoad?
             && (|| (Stuck(w.older) && Stuck(w.newer) && c.olderFlight.Idle? && c.newerFlight.Idle?)
                 || (&& SideInv(Rows(s.table, anchor, Older), w.older, c.olderFlight, true)
                     && SideInv(Rows(s.table, anchor, Newer), w.newer, c.newerFlight, frozen)))
       }
  }

  // ----- each side keeps its invariant

  lemma OutwardSlices(d: Direction, all: seq<Row>, left: seq<Row>, right: seq<Row>)
    requires Outward(d, all) && left + right <= all
    ensures Outward(d, left + right)
    ensures MergeSide(d, left, right) == left + right
  {
    assert forall i :: 0 <= i < |left + right| ==> (left + right)[i] == all[i];
    if d == Older { MergeAppends(left, right); } else { MergeOldestFirstAppends(left, right); }
  }

  lemma DropOutward(d: Direction, all: seq<Row>, n: nat)
    requires Outward(d, all) && n <= |all|
    ensures Outward(d, all[n..])
  {
    assert forall i :: 0 <= i < |all[n..]| ==> all[n..][i] == all[n + i];
  }

  lemma CursorIsLastLoaded(side: Side)
    ensures Cursor(side) == if side.Loaded() == [] then None else Some(Last(side.Loaded()).key)
  {}

  lemma RequestKeeps(all: seq<Row>, side: Side, flight: Flight, onArrival: bool, exact: bool)
    requires SideInv(all, side, flight, exact)
    ensures var (next, cursor) := Request(side, onArrival);
            SideInv(all, next, if cursor.Some? then Asked(cursor.value) else flight, exact)
            && next.Loaded() == side.Loaded() && next.rows == side.rows
  {
    CursorIsLastLoaded(side);
  }

  /** What an arrival does when the page follows the last loaded row. */
  lemma ArriveAppends(d: Direction, all: seq<Row>, side: Side, result: seq<Row>)
    requires Outward(d, all) && side.Loaded() + Take(result, MESSAGE_HISTORY_FETCH_SIZE) <= all
    ensures var next := Arrive(d, side, result);
            var page := Take(result, MESSAGE_HISTORY_FETCH_SIZE);
            && next.Loaded() == side.Loaded() + page
            && next.rows == if side.revealOnArrival then Take(side.Loaded() + page, |side.rows| + MESSAGES_PAGE_SIZE)
                            else side.rows
  {
    var page := Take(result, MESSAGE_HISTORY_FETCH_SIZE);
    AdjacentMerge(d, all, side.rows, side.prefetch, page);
    ConcatAssociative(side.rows, side.prefetch, page);
    ReleasePage(d, all, side.rows, side.prefetch + page, side.revealOnArrival);
  }

  /** Releasing the front of the buffer moves it to the rows and changes nothing that is loaded. */
  lemma ReleasePage(d: Direction, all: seq<Row>, rows: seq<Row>, expanded: seq<Row>, onArrival: bool)
    requires Outward(d, all) && rows + expanded <= all
    ensures var revealed := if onArrival then Take(expanded, MESSAGES_PAGE_SIZE) else [];
            var kept := if onArrival then Drop(expanded, MESSAGES_PAGE_SIZE) else expanded;
            && MergeSide(d, rows, revealed) + kept == rows + expanded
            && MergeSide(d, rows, revealed) ==
                 if onArrival then Take(rows + expanded, |rows| + MESSAGES_PAGE_SIZE) else rows
  {
    if onArrival {
      var revealed, kept := Take(expanded, MESSAGES_PAGE_SIZE), Drop(expanded, MESSAGES_PAGE_SIZE);
      TakeBeyond(rows, expanded, MESSAGES_PAGE_SIZE);
      ConcatAssociative(rows, revealed, kept);
      PrefixTrans(rows + revealed, kept, all);
      OutwardSlices(d, all, rows, revealed);
    } else {
      HeadAndTail(rows);
      PrefixTrans(rows, expanded, all);
      OutwardSlices(d, all, rows, []);
    }
  }

  lemma TakeBeyond<T>(rows: seq<T>, more: seq<T>, n: nat)
    ensures Take(more, n) + Drop(more, n) == more
    ensures rows + Take(more, n) == Take(rows + more, |rows| + n)
  {}

  lemma PrefixTrans<T>(front: seq<T>, back: seq<T>, all: seq<T>)
    requires front + back <= all
    ensures front <= all
  {}

  /** The buffer and the page after it are adjacent, whatever rows lie before them. */
  lemma AdjacentMerge(d: Direction, all: seq<Row>, before: seq<Row>, left: seq<Row>, right: seq<Row>)
    requires Outward(d, all) && (before + left) + right <= all
    ensures MergeSide(d, left, right) == left + right
  {
    DropOutward(d, all, |before|);
    ConcatAssociative(before, left, right);
    PrefixDrop(before, left + right, all);
    OutwardSlices(d, all[|before|..], left, right);
  }

  lemma PrefixDrop<T>(front: seq<T>, back: seq<T>, all: seq<T>)
    requires front + back <= all
    ensures back <= all[|front|..]
  {
    var rest := all[|front|..];
    forall k | 0 <= k < |back| ensures back[k] == rest[k] {
      assert (front + back)[|front| + k] == all[|front| + k];
    }
  }

  lemma ArriveKeeps(d: Direction, all: seq<Row>, side: Side, flight: Flight, exact: bool)
    requires Outward(d, all) && SideInv(all, side, flight, exact) && flight.Answered?
    ensures SideInv(all, Arrive(d, side, flight.result), Idle, exact)
    ensures |Arrive(d, side, flight.result).rows| >= |side.rows|
    ensures side.revealOnArrival && side.prefetch == [] ==> |Arrive(d, side, flight.result).rows| > |side.rows|
  {
    var n := |side.Loaded()|;
    var page := Take(flight.result, MESSAGE_HISTORY_FETCH_SIZE);
    assert side.Loaded() + page == all[..n + |page|];
    ArriveAppends(d, all, side, flight.result);
  }

  lemma ReleaseKeeps(d: Direction, all: seq<Row>, side: Side)
    requires Outward(d, all) && side.Loaded() <= all && side.prefetch != []
    ensures var next := LoadMore(d, side).0;
            && LoadMore(d, side).1 == None && next == side.(rows := next.rows, prefetch := next.prefetch)
            && next.Loaded() == side.Loaded() && next.rows != []
            && next.rows == Take(side.Loaded(), |side.rows| + MESSAGES_PAGE_SIZE)
  {
    var revealed, rest := Take(side.prefetch, MESSAGES_PAGE_SIZE), Drop(side.prefetch, MESSAGES_PAGE_SIZE);
    assert revealed + rest == side.prefetch;
    ConcatAssociative(side.rows, revealed, rest);
    assert side.rows + revealed == Take(side.Loaded(), |side.rows| + MESSAGES_PAGE_SIZE);
    assert side.rows + revealed <= all;
    OutwardSlices(d, all, side.rows, revealed);
  }

  lemma LoadMoreKeeps(d: Direction, all: seq<Row>, side: Side, flight: Flight, exact: bool)
    requires Outward(d, all) && SideInv(all, side, flight, exact)
    ensures var (next, cursor) := LoadMore(d, side);
            SideInv(all, next, if cursor.Some? then Asked(cursor.value) else flight, exact)
            && next.Loaded() == side.Loaded()
            && (side.prefetch != [] ==> next.rows == Take(side.Loaded(), |side.rows| + MESSAGES_PAGE_SIZE))
  {
    if side.prefetch != [] {
      ReleaseKeeps(d, all, side);
    } else if side.hasMore {
      RequestKeeps(all, side, flight, true, exact);
    }
  }

  lemma LoadedSideKeeps(all: seq<Row>, result: seq<Row>, exact: bool)
    requires Answers(all, 0, result, exact)
    ensures SideInv(all, LoadedSide(result), Idle, exact)
    ensures !Stuck(LoadedSide(result))
  {
    assert LoadedSide(result).Loaded() == Take(result, MESSAGE_HISTORY_FETCH_SIZE);
  }

  lemma ReadKeeps(table: seq<Row>, anchor: Key, d: Direction, side: Side, cursor: Key, exact: bool)
    requires IsWindow(table) && SideInv(Rows(table, anchor, d), side, Asked(cursor), exact)
    ensures SideInv(Rows(table, anchor, d), side, Answered(cursor, PageQuery(table, cursor, d)), exact)
  {
    PageFollowsCursor(table, anchor, d, |side.Loaded()|);
    AnswerKeeps(Rows(table, anchor, d), side, cursor, PageQuery(table, cursor, d), exact);
  }

  lemma AnswerKeeps(all: seq<Row>, side: Side, cursor: Key, result: seq<Row>, exact: bool)
    requires SideInv(all, side, Asked(cursor), exact) && |side.Loaded()| <= |all|
    requires result == Take(all[|side.Loaded()|..], MESSAGE_HISTORY_FETCH_SIZE + 1)
    ensures SideInv(all, side, Answered(cursor, result), exact)
  {
    var n := |side.Loaded()|;
    assert all[n..][..|result|] == all[n..n + |result|];
  }

  lemma InsertKeeps(all: seq<Row>, row: Row, side: Side, flight: Flight, exact: bool)
    requires SideInv(all, side, flight, exact)
    ensures SideInv(all + [row], side, flight, false)
  {}

  // ----- every step keeps the invariant

  lemma InsertKeepsInv(anchor: Key, s: State, row: Row)
    requires Inv(anchor, s, false) && CanInsert(s.table, anchor, row)
    ensures Inv(anchor, s.(table := [row] + s.table), false)
  {
    GrowthExtendsRows(s.table, row, anchor);
    if s.cell.window.Some? && s.cell.window.value.loaded {
      var w := s.cell.window.value;
      if !Stuck(w.older) || !Stuck(w.newer) {
        InsertKeeps(Rows(s.table, anchor, Newer), row, w.newer, s.cell.newerFlight, false);
      }
    }
  }

  /** A step on one side of a loaded window only has to keep that side. */
  lemma SideStepKeepsInv(anchor: Key, s: State, d: Direction, side: Side, flight: Flight, frozen: bool)
    requires Inv(anchor, s, frozen) && s.cell.Ready() && !Stuck(s.cell.window.value.At(d))
    requires SideInv(Rows(s.table, anchor, d), side, flight, Exact(d, frozen))
    ensures Inv(anchor, s.(cell := s.cell.WithSide(d, side).WithFlight(d, flight)), frozen)
  {}

  lemma StuckSideIgnores(d: Direction, side: Side, onArrival: bool)
    requires Stuck(side)
    ensures Request(side, onArrival) == (side, None) && LoadMore(d, side) == (side, None)
  {}

  lemma LoadArrivesKeepsInv(anchor: Key, s: State, frozen: bool)
    requires Inv(anchor, s, frozen)
    ensures Inv(anchor, Step(anchor, s, LoadArrives), frozen)
  {
    var c := s.cell;
    if c.load.Loading? && c.load.older.Some? && c.load.newer.Some? {
      LoadedSideKeeps(Rows(s.table, anchor, Older), c.load.older.value, true);
      LoadedSideKeeps(Rows(s.table, anchor, Newer), c.load.newer.value, frozen);
    }
  }

  lemma LoadStepKeepsInv(anchor: Key, s: State, e: Event, frozen: bool)
    requires Inv(anchor, s, frozen) && (e.StartLoad? || e.ReadLoad? || e.LoadFails? || e.CancelLoad?)
    ensures Inv(anchor, Step(anchor, s, e), frozen)
  {
    if e.ReadLoad? {
      assert Answers(Rows(s.table, anchor, e.d), 0, InitialQuery(s.table, anchor, e.d), true);
    }
  }

  lemma RequestPageKeepsInv(anchor: Key, s: State, d: Direction, onArrival: bool, frozen: bool)
    requires Inv(anchor, s, frozen)
    ensures Inv(anchor, Step(anchor, s, RequestPage(d, onArrival)), frozen)
  {
    if s.cell.Ready() {
      var side := s.cell.window.value.At(d);
      if Stuck(side) {
        StuckSideIgnores(d, side, onArrival);
      } else {
        RequestKeeps(Rows(s.table, anchor, d), side, s.cell.FlightAt(d), onArrival, Exact(d, frozen));
        AskKeepsInv(anchor, s, d, Request(side, onArrival), frozen);
      }
    }
  }

  lemma FlightIsOfLoadedSide(anchor: Key, s: State, d: Direction, frozen: bool)
    requires Inv(anchor, s, frozen) && !s.cell.FlightAt(d).Idle?
    ensures s.cell.Ready() && !Stuck(s.cell.window.value.At(d))
    ensures SideInv(Rows(s.table, anchor, d), s.cell.window.value.At(d), s.cell.FlightAt(d), Exact(d, frozen))
  {}

  /** What a page does, once read and once arrived, as a step on its side. */
  lemma PageSteps(anchor: Key, s: State, d: Direction)
    requires s.cell.window.Some?
    ensures var c := s.cell; var side, flight := c.window.value.At(d), c.FlightAt(d);
            && (flight.Asked? ==>
                  var answered := Answered(flight.cursor, PageQuery(s.table, flight.cursor, d));
                  Step(anchor, s, ReadPage(d)) == s.(cell := c.WithSide(d, side).WithFlight(d, answered)))
            && (flight.Answered? ==>
                  var next := Arrive(d, side, flight.result);
                  Step(anchor, s, PageArrives(d)) == s.(cell := c.WithSide(d, next).WithFlight(d, Idle)))
  {}

  lemma FailedPageStep(anchor: Key, s: State, d: Direction)
    requires s.cell.window.Some? && !s.cell.FlightAt(d).Idle?
    ensures Step(anchor, s, PageFails(d)) ==
              s.(cell := s.cell.WithSide(d, Fail(s.cell.window.value.At(d))).WithFlight(d, Idle))
  {}

  lemma FailKeeps(all: seq<Row>, side: Side, flight: Flight, exact: bool)
    requires SideInv(all, side, flight, exact)
    ensures SideInv(all, Fail(side), Idle, exact)
  {}

  lemma ArrivedSideKeeps(anchor: Key, s: State, d: Direction, frozen: bool)
    requires Inv(anchor, s, frozen) && s.cell.FlightAt(d).Answered?
    ensures s.cell.Ready() && !Stuck(s.cell.window.value.At(d))
    ensures SideInv(Rows(s.table, anchor, d), Arrive(d, s.cell.window.value.At(d), s.cell.FlightAt(d).result), Idle,
                    Exact(d, frozen))
  {
    FlightIsOfLoadedSide(anchor, s, d, frozen);
    RowsOutward(s.table, anchor, d);
    ArriveKeeps(d, Rows(s.table, anchor, d), s.cell.window.value.At(d), s.cell.FlightAt(d), Exact(d, frozen));
  }

  lemma ReadPageKeepsInv(anchor: Key, s: State, d: Direction, frozen: bool)
    requires Inv(anchor, s, frozen) && s.cell.FlightAt(d).Asked?
    ensures Inv(anchor, Step(anchor, s, ReadPage(d)), frozen)
  {
    var side, cursor := s.cell.window.value.At(d), s.cell.FlightAt(d).cursor;
    FlightIsOfLoadedSide(anchor, s, d, frozen);
    ReadKeeps(s.table, anchor, d, side, cursor, Exact(d, frozen));
    SideStepKeepsInv(anchor, s, d, side, Answered(cursor, PageQuery(s.table, cursor, d)), frozen);
    PageSteps(anchor, s, d);
  }

  lemma PageArrivesKeepsInv(anchor: Key, s: State, d: Direction, frozen: bool)
    requires Inv(anchor, s, frozen) && s.cell.FlightAt(d).Answered?
    ensures Inv(anchor, Step(anchor, s, PageArrives(d)), frozen)
  {
    ArrivedSideKeeps(anchor, s, d, frozen);
    SideStepKeepsInv(anchor, s, d, Arrive(d, s.cell.window.value.At(d), s.cell.FlightAt(d).result), Idle, frozen);
    PageSteps(anchor, s, d);
  }

  lemma PageFailsKeepsInv(anchor: Key, s: State, d: Direction, frozen: bool)
    requires Inv(anchor, s, frozen) && !s.cell.FlightAt(d).Idle?
    ensures Inv(anchor, Step(anchor, s, PageFails(d)), frozen)
  {
    FlightIsOfLoadedSide(anchor, s, d, frozen);
    FailedPageStep(anchor, s, d);
    FailKeeps(Rows(s.table, anchor, d), s.cell.window.value.At(d), s.cell.FlightAt(d), Exact(d, frozen));
    SideStepKeepsInv(anchor, s, d, Fail(s.cell.window.value.At(d)), Idle, frozen);
  }

  lemma ShowMoreKeepsInv(anchor: Key, s: State, d: Direction, frozen: bool)
    requires Inv(anchor, s, frozen)
    ensures Inv(anchor, Step(anchor, s, ShowMore(d)), frozen)
  {
    if s.cell.Ready() {
      var side := s.cell.window.value.At(d);
      if Stuck(side) {
        StuckSideIgnores(d, side, true);
      } else {
        RowsOutward(s.table, anchor, d);
        LoadMoreKeeps(d, Rows(s.table, anchor, d), side, s.cell.FlightAt(d), Exact(d, frozen));
        AskKeepsInv(anchor, s, d, LoadMore(d, side), frozen);
      }
    }
  }

  lemma StepKeepsInv(anchor: Key, s: State, e: Event, frozen: bool)
    requires Inv(anchor, s, frozen) && (frozen ==> !e.HeadInsert?)
    ensures Inv(anchor, Step(anchor, s, e), frozen)
  {
    match e
    case HeadInsert(row) => if CanInsert(s.table, anchor, row) { InsertKeepsInv(anchor, s, row); }
    case LoadArrives => LoadArrivesKeepsInv(anchor, s, frozen);
    case RequestPage(d, onArrival) => RequestPageKeepsInv(anchor, s, d, onArrival, frozen);
    case ReadPage(d) => if s.cell.FlightAt(d).Asked? { ReadPageKeepsInv(anchor, s, d, frozen); }
    case PageArrives(d) => if s.cell.FlightAt(d).Answered? { PageArrivesKeepsInv(anchor, s, d, frozen); }
    case PageFails(d) => if !s.cell.FlightAt(d).Idle? { PageFailsKeepsInv(anchor, s, d, frozen); }
    case ShowMore(d) => ShowMoreKeepsInv(anchor, s, d, frozen);
    case _ => LoadStepKeepsInv(anchor, s, e, frozen);
  }

  lemma AskKeepsInv(anchor: Key, s: State, d: Direction, next: (Side, Option<Key>), frozen: bool)
    requires Inv(anchor, s, frozen) && s.cell.Ready() && !Stuck(s.cell.window.value.At(d))
    requires SideInv(Rows(s.table, anchor, d), next.0,
                     if next.1.Some? then Asked(next.1.value) else s.cell.FlightAt(d), Exact(d, frozen))
    ensures Inv(anchor, s.(cell := Ask(s.cell, d, next)), frozen)
  {
    var flight := if next.1.Some? then Asked(next.1.value) else s.cell.FlightAt(d);
    SideStepKeepsInv(anchor, s, d, next.0, flight, frozen);
    assert Ask(s.cell, d, next) == s.cell.WithSide(d, next.0).WithFlight(d, flight);
  }

  // ----- theorems over whole runs

  lemma {:induction false} RunKeepsInv(anchor: Key, s: State, events: seq<Event>, frozen: bool)
    requires Inv(anchor, s, frozen) && (frozen ==> forall e :: e in events ==> !e.HeadInsert?)
    ensures Inv(anchor, Run(anchor, s, events), frozen)
    decreases |events|
  {
    if events != [] {
      StepKeepsInv(anchor, s, events[0], frozen);
      RunKeepsInv(anchor, Step(anchor, s, events[0]), events[1..], frozen);
    }
  }

  ghost predicate Reachable(anchor: Key, s: State, frozen: bool) {
    exists table, events: seq<Event> ::
      IsWindow(table) && (frozen ==> forall e :: e in events ==> !e.HeadInsert?) && s == Run(anchor, Start(table), events)
  }

  lemma ReachableInv(anchor: Key, s: State, frozen: bool)
    requires Reachable(anchor, s, frozen)
    ensures Inv(anchor, s, frozen)
  {
    var table, events :| IsWindow(table) && (frozen ==> forall e: Event :: e in events ==> !e.HeadInsert?) &&
      s == Run(anchor, Start(table), events);
    RunKeepsInv(anchor, Start(table), events, frozen);
  }

  /** Rows and buffer are exactly the rows nearest the anchor, and a request in flight asks for what follows them. */
  lemma LoadedIsPrefix(anchor: Key, s: State, d: Direction)
    requires Reachable(anchor, s, false) && s.cell.window.Some?
    ensures s.cell.window.value.At(d).Loaded() <= Rows(s.table, anchor, d)
    ensures !s.cell.FlightAt(d).Idle? ==>
              s.cell.window.value.At(d).Loaded() != []
              && s.cell.FlightAt(d).cursor == Last(s.cell.window.value.At(d).Loaded()).key
  {
    ReachableInv(anchor, s, false);
  }

  /** What the list shows, oldest first. */
  function Shown(window: Window): seq<Row> {
    Reverse(window.older.rows) + window.newer.rows
  }

  lemma TableIsBothSides(table: seq<Row>, anchor: Key)
    requires IsWindow(table)
    ensures Reverse(table) == Reverse(Rows(table, anchor, Older)) + Rows(table, anchor, Newer)
  {
    var older, newer := Where(table, AtOrOlder(anchor)), Where(table, StrictlyNewer(anchor));
    RowsOutward(table, anchor, Older);
    RowsOutward(table, anchor, Newer);
    WhereIsWindow(table, StrictlyNewer(anchor));
    SameMembers(newer);
    assert NewestFirst(newer + older) by {
      forall i, j | 0 <= i < |newer| && 0 <= j < |older| ensures IsMessageOrderNewer(newer[i].key, older[j].key) {
        assert newer[i] in newer && older[j] in older;
      }
    }
    WindowIsUnique(table, newer + older);
    ReverseConcat(newer, older);
  }

  lemma PrefixesMeet(older: seq<Row>, newer: seq<Row>, below: seq<Row>, above: seq<Row>)
    requires below <= older && above <= newer
    ensures var cut := |older|;
            Reverse(below) + above == (Reverse(older) + newer)[cut - |below|..cut + |above|]
  {
    assert below == older[..|below|] && above == newer[..|above|];
  }

  lemma SliceIsDistinct(rows: seq<Row>, i: nat, j: nat)
    requires DistinctIds(rows) && i <= j <= |rows|
    ensures DistinctIds(rows[i..j])
  {}

  lemma ShownRowsAreLoaded(anchor: Key, s: State, d: Direction)
    requires Reachable(anchor, s, false) && s.cell.window.Some?
    ensures s.cell.window.value.At(d).rows <= Rows(s.table, anchor, d) && IsWindow(s.table)
  {
    ReachableInv(anchor, s, false);
    LoadedIsPrefix(anchor, s, d);
  }

  /** The shown list is one gap-free, duplicate-free slice of the conversation, meeting at the anchor. */
  lemma ShownIsSlice(anchor: Key, s: State)
    requires Reachable(anchor, s, false) && s.cell.window.Some?
    ensures var w := s.cell.window.value;
            var cut := |Rows(s.table, anchor, Older)|;
            && |w.older.rows| <= cut && cut + |w.newer.rows| <= |s.table|
            && Shown(w) == Reverse(s.table)[cut - |w.older.rows|..cut + |w.newer.rows|]
            && DistinctIds(Shown(w))
  {
    var w := s.cell.window.value;
    var older, newer := Rows(s.table, anchor, Older), Rows(s.table, anchor, Newer);
    ShownRowsAreLoaded(anchor, s, Older);
    ShownRowsAreLoaded(anchor, s, Newer);
    TableIsBothSides(s.table, anchor);
    PrefixesMeet(older, newer, w.older.rows, w.newer.rows);
    SameMembers(s.table);
    SliceIsDistinct(Reverse(s.table), |older| - |w.older.rows|, |older| + |w.newer.rows|);
  }

  /** Once loading has succeeded, the has-more signal of the older side is exact even while
      messages arrive, and that of the newer side is exact as long as none does. */
  lemma HasMoreIsExact(anchor: Key, s: State, d: Direction, frozen: bool)
    requires Reachable(anchor, s, frozen) && Exact(d, frozen)
    requires s.cell.Ready() && !Stuck(s.cell.window.value.At(d))
    ensures var side := s.cell.window.value.At(d);
            (side.prefetch != [] || side.hasMore) <==> |side.rows| < |Rows(s.table, anchor, d)|
  {
    ReachableInv(anchor, s, frozen);
  }

  /** A row arriving never makes a has-more signal promise a row that is not there. */
  lemma HasMoreIsSound(anchor: Key, s: State, d: Direction)
    requires Reachable(anchor, s, false)
    requires s.cell.Ready() && !Stuck(s.cell.window.value.At(d))
    requires s.cell.window.value.At(d).prefetch != [] || s.cell.window.value.At(d).hasMore
    ensures |s.cell.window.value.At(d).rows| < |Rows(s.table, anchor, d)|
  {
    ReachableInv(anchor, s, false);
  }

  /** A jump lands on its target: once loaded, the anchor row is the first row of the older side. */
  lemma AnchorIsShown(anchor: Key, s: State, row: Row)
    requires Reachable(anchor, s, false) && s.cell.Ready() && !Stuck(s.cell.window.value.older)
    requires row in s.table && row.key == anchor
    ensures s.cell.window.value.older.rows != [] && s.cell.window.value.older.rows[0] == row
  {
    ReachableInv(anchor, s, false);
    RowsOutward(s.table, anchor, Older);
    var all := Rows(s.table, anchor, Older);
    assert row in all;
    var i :| 0 <= i < |all| && all[i] == row;
    assert all[0] in all;
    assert i == 0;
  }

  /** After a failed initial load the window stays empty and keeps claiming there is more: no later
      event, in any number, loads a row or clears the claim. */
  lemma {:induction false} FailedLoadIsFinal(anchor: Key, s: State, events: seq<Event>)
    requires s.cell.Ready() && s.cell.load.NoLoad?
    requires forall d :: Stuck(s.cell.window.value.At(d)) && s.cell.FlightAt(d).Idle?
    ensures Run(anchor, s, events).cell == s.cell
    ensures Shown(s.cell.window.value) == [] && s.cell.window.value.older.hasMore && s.cell.window.value.newer.hasMore
    decreases |events|
  {
    assert Stuck(s.cell.window.value.At(Older)) && Stuck(s.cell.window.value.At(Newer));
    assert s.cell.FlightAt(Older).Idle? && s.cell.FlightAt(Newer).Idle?;
    if events != [] {
      assert Step(anchor, s, events[0]).cell == s.cell;
      FailedLoadIsFinal(anchor, Step(anchor, s, events[0]), events[1..]);
    }
  }

  /** Such a state is what a failed initial load leaves behind. */
  lemma FailedLoadIsStuck(anchor: Key, s: State)
    requires Reachable(anchor, s, false) && s.cell.load.Loading?
    ensures var s' := Step(anchor, s, LoadFails);
            s'.cell.Ready() && forall d :: Stuck(s'.cell.window.value.At(d)) && s'.cell.FlightAt(d).Idle?
  {
    ReachableInv(anchor, s, false);
  }

  /** Why the request must carry the last loaded row: handling a page read from any later cursor
      leaves a gap, holding the row at position m but not the earlier row at position n. */
  lemma LaterPageLeavesGap(d: Direction, all: seq<Row>, side: Side, m: nat)
    requires Outward(d, all) && side.Loaded() <= all && |side.Loaded()| < m < |all|
    ensures var next := Arrive(d, side, Take(all[m..], MESSAGE_HISTORY_FETCH_SIZE + 1));
            all[m] in next.Loaded() && all[|side.Loaded()|] !in next.Loaded()
  {
    var result := Take(all[m..], MESSAGE_HISTORY_FETCH_SIZE + 1);
    var page := Take(result, MESSAGE_HISTORY_FETCH_SIZE);
    FirstOfPage(all, m, page);
    SlicesOfLoaded(d, all, side, m, page);
    LoadedMembers(d, all, side, result);
  }

  lemma SlicesOfLoaded(d: Direction, all: seq<Row>, side: Side, m: nat, page: seq<Row>)
    requires Outward(d, all) && side.Loaded() <= all && |side.Loaded()| < m && m + |page| <= |all|
    requires page == all[m..m + |page|]
    ensures Outward(d, side.rows) && Outward(d, side.prefetch) && Outward(d, page)
    ensures forall row :: row in side.rows || row in side.prefetch || row in page ==>
              row in all && row != all[|side.Loaded()|]
  {
    var n, k := |side.Loaded()|, |side.rows|;
    assert side.rows == all[..k] && side.prefetch == all[k..n];
    SliceOutward(d, all, 0, k);
    SliceOutward(d, all, k, n);
    SliceOutward(d, all, m, m + |page|);
    NotInSlice(d, all, n, 0, k);
    NotInSlice(d, all, n, k, n);
    NotInSlice(d, all, n, m, m + |page|);
  }

  /** An arrival loads the rows it had and the rows of the page, and no others. */
  lemma LoadedMembers(d: Direction, all: seq<Row>, side: Side, result: seq<Row>)
    requires var page := Take(result, MESSAGE_HISTORY_FETCH_SIZE);
             Outward(d, all) && Outward(d, side.rows) && Outward(d, side.prefetch) && Outward(d, page) &&
             forall row :: row in side.rows || row in side.prefetch || row in page ==> row in all
    ensures forall row :: row in Arrive(d, side, result).Loaded() <==>
              row in side.rows || row in side.prefetch || row in Take(result, MESSAGE_HISTORY_FETCH_SIZE)
  {
    var page := Take(result, MESSAGE_HISTORY_FETCH_SIZE);
    var expanded := MergeSide(d, side.prefetch, page);
    MergeSideMembers(d, all, side.prefetch, page);
    var revealed := if side.revealOnArrival then Take(expanded, MESSAGES_PAGE_SIZE) else [];
    var kept := if side.revealOnArrival then Drop(expanded, MESSAGES_PAGE_SIZE) else expanded;
    assert expanded == revealed + kept;
    PrefixOutward(d, revealed, kept);
    assert forall row :: row in revealed ==> row in expanded;
    MergeSideMembers(d, all, side.rows, revealed);
    assert MergeSide(d, side.rows, revealed) + kept == Arrive(d, side, result).Loaded();
  }

  lemma FirstOfPage(all: seq<Row>, m: nat, page: seq<Row>)
    requires m < |all| && page == Take(Take(all[m..], MESSAGE_HISTORY_FETCH_SIZE + 1), MESSAGE_HISTORY_FETCH_SIZE)
    ensures page != [] && page[0] == all[m] && m + |page| <= |all| && page == all[m..m + |page|]
  {}

  lemma NotInSlice(d: Direction, all: seq<Row>, n: nat, i: nat, j: nat)
    requires Outward(d, all) && n < |all| && i <= j <= |all| && (n < i || j <= n)
    ensures all[n] !in all[i..j]
  {}

  lemma PrefixOutward(d: Direction, left: seq<Row>, right: seq<Row>)
    requires Outward(d, left + right)
    ensures Outward(d, left)
  {
    assert forall i :: 0 <= i < |left| ==> (left + right)[i] == left[i];
  }

  lemma SliceOutward(d: Direction, all: seq<Row>, i: nat, j: nat)
    requires Outward(d, all) && i <= j <= |all|
    ensures Outward(d, all[i..j])
    ensures forall row :: row in all[i..j] ==> row in all
  {
    assert forall k :: 0 <= k < j - i ==> all[i..j][k] == all[i + k];
  }

  /** Rows of one table with the same id are the same row, so a merge keeps every row of both lists. */
  lemma MergeSideMembers(d: Direction, all: seq<Row>, left: seq<Row>, right: seq<Row>)
    requires Outward(d, all) && Outward(d, left) && Outward(d, right)
    requires forall row :: row in left || row in right ==> row in all
    ensures Outward(d, MergeSide(d, left, right))
    ensures forall row :: row in MergeSide(d, left, right) <==> row in left || row in right
  {
    if d == Older { MergeIsWindowOfSurvivors(left, right); } else { MergeOldestFirstDual(left, right); }
    forall row ensures row in MergeSide(d, left, right) <==> row in left || row in right {
      forall x, y | x in all && y in all && x.key.id == y.key.id ensures x == y {}
    }
  }
}
