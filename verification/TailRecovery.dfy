/** The live tail: a bounded page at the newest edge, the history behind it, and the loop that
    recovers the rows a burst pushed past the live query. */
module TailRecovery {
  import opened MessageOrder
  import opened MessageWindow
  import opened MessageTable
  import opened Wrappers

  function RowSet(rows: seq<Row>): set<Row> {
    set row | row in rows
  }

  /** Every row of the table newer than one of `rows` is itself in `rows`. */
  ghost predicate NewerClosed(table: seq<Row>, rows: set<Row>) {
    forall row, other :: row in rows && other in table && IsMessageOrderNewer(other.key, row.key) ==> other in rows
  }

  // ----- the effect that follows a live result

  function Unlisted(rows: seq<Row>, ids: set<nat>): seq<Row> {
    if rows == [] then []
    else (if rows[0].key.id in ids then [] else [rows[0]]) + Unlisted(rows[1..], ids)
  }

  function Fresh(rows: seq<Row>, bound: Key, ids: set<nat>): seq<Row> {
    if rows == [] then []
    else if IsMessageOrderNewer(rows[0].key, bound) && rows[0].key.id !in ids then
      [rows[0]] + Fresh(rows[1..], bound, ids + {rows[0].key.id})
    else Fresh(rows[1..], bound, ids)
  }

  /** The rows the effect adds to the history: those the page dropped, then those of the burst
      that lie past the page. */
  function RowsToExpose(previous: seq<Row>, tail: seq<Row>, authoritative: seq<Row>, exposed: seq<Row>): seq<Row> {
    if previous == [] then []
    else
      var shiftedOut := Unlisted(previous, Ids(tail));
      shiftedOut + Fresh(Drop(authoritative, MESSAGES_PAGE_SIZE), previous[0].key, Ids(exposed) + Ids(shiftedOut))
  }

  method CollectRowsToExpose(previous: seq<Row>, tail: seq<Row>, authoritative: seq<Row>, exposed: seq<Row>)
    returns (rowsToExpose: seq<Row>)
    ensures rowsToExpose == RowsToExpose(previous, tail, authoritative, exposed)
  {
    rowsToExpose := [];
    if |previous| == 0 { return; }
    var currentTailIds, exposedIds := Ids(tail), Ids(exposed);
    var i := 0;
    while i < |previous|
      invariant i <= |previous|
      invariant rowsToExpose + Unlisted(previous[i..], currentTailIds) == Unlisted(previous, currentTailIds)
    {
      assert previous[i..][1..] == previous[i + 1..];
      ConcatAssociative(rowsToExpose, [previous[i]], Unlisted(previous[i + 1..], currentTailIds));
      HeadAndTail(Unlisted(previous[i + 1..], currentTailIds));
      if previous[i].key.id !in currentTailIds {
        rowsToExpose := rowsToExpose + [previous[i]];
      }
      i := i + 1;
    }
    assert previous[|previous|..] == [] && rowsToExpose == Unlisted(previous, currentTailIds);
    var shiftedOut := rowsToExpose;
    exposedIds := exposedIds + Ids(shiftedOut);
    ghost var added := Fresh(Drop(authoritative, MESSAGES_PAGE_SIZE), previous[0].key, exposedIds);
    var rest := Drop(authoritative, MESSAGES_PAGE_SIZE);
    i := 0;
    assert rest[0..] == rest;
    while i < |rest|
      invariant i <= |rest|
      invariant rowsToExpose + Fresh(rest[i..], previous[0].key, exposedIds) == shiftedOut + added
    {
      assert rest[i..][1..] == rest[i + 1..];
      ConcatAssociative(rowsToExpose, [rest[i]], Fresh(rest[i + 1..], previous[0].key, exposedIds + {rest[i].key.id}));
      if IsMessageOrderNewer(rest[i].key, previous[0].key) && rest[i].key.id !in exposedIds {
        rowsToExpose := rowsToExpose + [rest[i]];
        exposedIds := exposedIds + {rest[i].key.id};
      }
      i := i + 1;
    }
    assert rest[|rest|..] == [];
  }

  // ----- the gap-recovery loop

  function GapQuery(table: seq<Row>, cursor: Key, bound: Key): seq<Row> {
    Take(Where(table, Between(cursor, bound)), MESSAGE_HISTORY_FETCH_SIZE + 1)
  }

  lemma RestOfWindow(all: seq<Row>, n: nat, row: Row)
    requires IsWindow(all) && 0 < n <= |all|
    ensures IsWindow(all[n..])
    ensures row in all[n..] <==> row in all && IsMessageOrderNewer(all[n - 1].key, row.key)
  {
    assert forall i :: 0 <= i < |all[n..]| ==> all[n..][i] == all[n + i];
    if row in all && IsMessageOrderNewer(all[n - 1].key, row.key) {
      var i :| 0 <= i < |all| && all[i] == row;
      assert all[n..][i - n] == row;
    }
  }

  /** Moving the cursor to the last row of a page leaves exactly the rows after it. */
  lemma NextGapPage(table: seq<Row>, cursor: Key, bound: Key, n: nat)
    requires IsWindow(table) && 0 < n <= |Where(table, Between(cursor, bound))|
    ensures var all := Where(table, Between(cursor, bound));
            Where(table, Between(all[n - 1].key, bound)) == all[n..]
  {
    var all := Where(table, Between(cursor, bound));
    var next := all[n - 1].key;
    WhereIsWindow(table, Between(cursor, bound));
    WhereMembers(table, Between(cursor, bound), all[n - 1]);
    RestOfWindow(all, n, all[n - 1]);
    forall row ensures row in all[n..] <==> row in table && Between(next, bound).Holds(row.key) {
      WhereMembers(table, Between(cursor, bound), row);
      RestOfWindow(all, n, row);
    }
    WhereIs(table, Between(next, bound), all[n..]);
  }

  lemma {:induction false} WhereSplits(burst: seq<Row>, table: seq<Row>, condition: Condition)
    ensures Where(burst + table, condition) == Where(burst, condition) + Where(table, condition)
  {
    if burst == [] {
      assert burst + table == table;
    } else {
      assert (burst + table)[1..] == burst[1..] + table;
      WhereSplits(burst[1..], table, condition);
      ConcatAssociative(if condition.Holds(burst[0].key) then [burst[0]] else [],
                        Where(burst[1..], condition), Where(table, condition));
    }
  }

  /** Rows arriving at the newest end never fall between two rows already in the table. */
  lemma GrowthKeepsGap(burst: seq<Row>, table: seq<Row>, cursor: Key, bound: Key)
    requires IsWindow(burst + table) && exists row :: row in table && row.key == cursor
    ensures Where(burst + table, Between(cursor, bound)) == Where(table, Between(cursor, bound))
  {
    var row :| row in table && row.key == cursor;
    DisjointIds(burst, table);
    WhereSplits(burst, table, Between(cursor, bound));
    if Where(burst, Between(cursor, bound)) != [] {
      var first := Where(burst, Between(cursor, bound))[0];
      WhereMembers(burst, Between(cursor, bound), first);
    }
  }

  lemma NextGapTrip(table: seq<Row>, cursor: Key, bound: Key, page: seq<Row>)
    requires IsWindow(table) && page != [] && page <= Where(table, Between(cursor, bound))
    ensures var next := page[|page| - 1].key;
            && Where(table, Between(cursor, bound)) == page + Where(table, Between(next, bound))
            && (exists row :: row in table && row.key == next)
  {
    var left := Where(table, Between(cursor, bound));
    NextGapPage(table, cursor, bound, |page|);
    assert left == left[..|page|] + left[|page|..];
    assert page[|page| - 1] == left[|page| - 1];
    WhereMembers(table, Between(cursor, bound), page[|page| - 1]);
  }

  /** The recovery loop. Between two pages the database may grow; `growth(i)` is what had arrived
      by the i-th query. The loop ends because each cursor leaves fewer rows above the bound. */
  method RecoverGap(table: seq<Row>, growth: nat -> seq<Row>, initialCursor: Key, previousNewest: Key)
    returns (recovered: seq<Row>)
    requires forall i :: IsWindow(growth(i) + table)
    requires exists row :: row in table && row.key == initialCursor
    ensures recovered == Where(table, Between(initialCursor, previousNewest))
  {
    recovered := [];
    var cursor, trips := initialCursor, 0;
    ghost var all := Where(table, Between(initialCursor, previousNewest));
    DisjointIds(growth(0), table);
    while true
      invariant recovered + Where(table, Between(cursor, previousNewest)) == all
      invariant exists row :: row in table && row.key == cursor
      decreases |Where(table, Between(cursor, previousNewest))|
    {
      var current := growth(trips) + table;
      GrowthKeepsGap(growth(trips), table, cursor, previousNewest);
      var pageResult := GapQuery(current, cursor, previousNewest);
      trips := trips + 1;
      var page := Take(pageResult, MESSAGE_HISTORY_FETCH_SIZE);
      ghost var before := recovered;
      recovered := recovered + page;
      if |pageResult| <= MESSAGE_HISTORY_FETCH_SIZE || |page| == 0 { break; }
      NextGapTrip(table, cursor, previousNewest, page);
      ConcatAssociative(before, page, Where(table, Between(page[|page| - 1].key, previousNewest)));
      cursor := page[|page| - 1].key;
    }
  }

  // ----- the machine

  /** A recovery in progress: the rows strictly between `cursor` and `bound` are still to be read. */
  datatype Gap = Gap(cursor: Key, bound: Key, recovered: seq<Row>)

  /** `seen` is the table as of the last live result. `lost` records the rows of a recovery that was
      abandoned: superseded by another burst, failed, or cancelled with the live data. */
  datatype Tail = Tail(
    table: seq<Row>,
    seen: seq<Row>,
    tail: seq<Row>,
    history: seq<Row>,
    prefetch: seq<Row>,
    hasMore: bool,
    gap: Option<Gap>,
    request: Option<Key>,
    showOnArrival: bool,
    lost: set<Row>)
  {
    /** The rows the list shows, newest first. */
    function Exposed(): seq<Row> {
      Merge(tail, history)
    }

    /** The rows a recovery in progress will expose when it finishes. */
    function Pending(): set<Row> {
      match gap
      case None => {}
      case Some(g) => RowSet(Where(table, Between(g.cursor, g.bound))) + RowSet(g.recovered)
    }

    function Shown(): set<Row> {
      RowSet(tail) + RowSet(history)
    }

    function Settled(): set<Row> {
      Shown() + Pending() + lost
    }
  }

  datatype Event =
    | HeadInsert(row: Row)
    | LiveResult
    | Rerun
    | GapPage
    | GapAbandoned
    | ShowOlder
    | RequestOlder(show: bool)
    | PageArrives
    | PageFails

  function AddToHistory(history: seq<Row>, rows: seq<Row>): seq<Row> {
    if rows == [] then history else Merge(history, rows)
  }

  /** Whether a live result triggers a recovery: nothing of the previous page is in sight. */
  predicate StartsGap(previous: seq<Row>, authoritative: seq<Row>) {
    previous != [] && Ids(authoritative) * Ids(previous) == {} && |authoritative| == MESSAGE_HISTORY_FETCH_SIZE
  }

  function Authoritative(table: seq<Row>): seq<Row> {
    Take(Take(table, MESSAGE_HISTORY_FETCH_SIZE + 1), MESSAGE_HISTORY_FETCH_SIZE)
  }

  function Abandon(s: Tail): Tail {
    s.(gap := None, lost := s.lost + s.Pending())
  }

  function AfterLiveResult(s: Tail): Tail {
    var data := Take(s.table, MESSAGE_HISTORY_FETCH_SIZE + 1);
    var tail, authoritative := Take(data, MESSAGES_PAGE_SIZE), Authoritative(s.table);
    var exposed := Merge(tail, s.history);
    var toExpose := RowsToExpose(s.tail, tail, authoritative, exposed);
    var overflow := Unlisted(Drop(authoritative, MESSAGES_PAGE_SIZE), Ids(exposed) + Ids(toExpose));
    var base := if StartsGap(s.tail, authoritative)
                then Abandon(s).(gap := Some(Gap(authoritative[|authoritative| - 1].key, s.tail[0].key, [])))
                else s;
    base.(seen := s.table, tail := tail, history := AddToHistory(s.history, toExpose),
          prefetch := if overflow == [] then s.prefetch else Merge(overflow, s.prefetch),
          hasMore := |data| > MESSAGE_HISTORY_FETCH_SIZE)
  }

  /** The effect runs again on the last live result, because what it depends on has changed; the table
      may have grown since. */
  function AfterRerun(s: Tail): Tail {
    AfterLiveResult(s.(table := s.seen)).(table := s.table)
  }

  function AfterGapPage(s: Tail): Tail
    requires s.gap.Some?
  {
    var g := s.gap.value;
    var pageResult := GapQuery(s.table, g.cursor, g.bound);
    var page := Take(pageResult, MESSAGE_HISTORY_FETCH_SIZE);
    var recovered := g.recovered + page;
    if |pageResult| <= MESSAGE_HISTORY_FETCH_SIZE then s.(gap := None, history := AddToHistory(s.history, recovered))
    else s.(gap := Some(Gap(page[|page| - 1].key, g.bound, recovered)))
  }

  function AfterRequest(s: Tail, show: bool): Tail {
    var flagged := s.(showOnArrival := s.showOnArrival || show);
    var cursorRows := if s.prefetch != [] then s.prefetch else s.Exposed();
    if s.request.Some? || !s.hasMore then flagged
    else if cursorRows == [] then s.(showOnArrival := false)
    else flagged.(request := Some(Last(cursorRows).key))
  }

  function AfterPage(s: Tail): Tail
    requires s.request.Some?
  {
    var rows := Take(Where(s.table, StrictlyOlder(s.request.value)), MESSAGE_HISTORY_FETCH_SIZE + 1);
    var expanded := Merge(s.prefetch, Take(rows, MESSAGE_HISTORY_FETCH_SIZE));
    var revealed := if s.showOnArrival then Take(expanded, MESSAGES_PAGE_SIZE) else [];
    s.(history := AddToHistory(s.history, revealed),
       prefetch := if s.showOnArrival then Drop(expanded, MESSAGES_PAGE_SIZE) else expanded,
       hasMore := |rows| > MESSAGE_HISTORY_FETCH_SIZE, request := None, showOnArrival := false)
  }

  function AfterShowOlder(s: Tail): Tail {
    if s.prefetch != [] then
      s.(history := Merge(s.history, Take(s.prefetch, MESSAGES_PAGE_SIZE)),
         prefetch := Drop(s.prefetch, MESSAGES_PAGE_SIZE))
    else if s.hasMore then AfterRequest(s, true)
    else s
  }

  ghost function Step(s: Tail, e: Event): Tail {
    match e
    case HeadInsert(row) => if IsWindow([row] + s.table) then s.(table := [row] + s.table) else s
    case LiveResult => AfterLiveResult(s)
    case Rerun => AfterRerun(s)
    case GapPage => if s.gap.Some? then AfterGapPage(s) else s
    case GapAbandoned => Abandon(s)
    case ShowOlder => AfterShowOlder(s)
    case RequestOlder(show) => AfterRequest(s, show)
    case PageArrives => if s.request.Some? then AfterPage(s) else s
    case PageFails => s.(request := None, showOnArrival := false)
  }

  ghost function Run(s: Tail, events: seq<Event>): Tail
    decreases |events|
  {
    if events == [] then s else Run(Step(s, events[0]), events[1..])
  }

  /** The first paint: a page warmed from an earlier state of the table, or nothing. */
  ghost predicate IsStart(s: Tail) {
    && IsWindow(s.table) && Suffix(s.seen, s.table)
    && s == Tail(s.table, s.seen, Take(s.seen, MESSAGES_PAGE_SIZE), [], [], true, None, None, false, {})
  }

  ghost predicate Suffix(seen: seq<Row>, table: seq<Row>) {
    |seen| <= |table| && seen == table[|table| - |seen|..]
  }

  // ----- the invariant

  ghost predicate GapInv(s: Tail) {
    s.gap.Some? ==> (
      && RowSet(s.gap.value.recovered) <= RowSet(s.seen)
      && (exists row :: row in s.seen && row.key == s.gap.value.cursor))
  }

  /** Where every list comes from. */
  ghost predicate Shape(s: Tail) {
    && IsWindow(s.table) && Suffix(s.seen, s.table)
    && s.tail == Take(s.seen, MESSAGES_PAGE_SIZE)
    && RowSet(s.history) <= RowSet(s.seen)
    && IsWindow(s.prefetch) && RowSet(s.prefetch) <= RowSet(s.seen)
    && s.lost <= RowSet(s.seen)
    && GapInv(s)
  }

  /** What the lists cover. */
  ghost predicate Coverage(s: Tail) {
    && NewerClosed(s.seen, s.Settled())
    && NewerClosed(s.seen, s.Settled() + RowSet(s.prefetch))
    && (s.request.Some? ==> exists row :: row in s.Shown() + RowSet(s.prefetch) && row.key == s.request.value)
    && (s.hasMore || RowSet(s.seen) <= s.Settled() + RowSet(s.prefetch))
  }

  ghost predicate Inv(s: Tail) {
    Shape(s) && Coverage(s)
  }

  // ----- lists drawn from one table

  lemma SameIdSameRow(table: seq<Row>, x: Row, y: Row)
    requires IsWindow(table) && x in table && y in table && x.key.id == y.key.id
    ensures x == y
  {}

  lemma SuffixRows(seen: seq<Row>, table: seq<Row>)
    requires IsWindow(table) && Suffix(seen, table)
    ensures IsWindow(seen) && RowSet(seen) <= RowSet(table)
    ensures var burst := table[..|table| - |seen|];
            table == burst + seen && RowSet(table) == RowSet(burst) + RowSet(seen) && IsWindow(burst)
  {
    var burst := table[..|table| - |seen|];
    assert table == burst + seen;
    DisjointIds(burst, seen);
  }

  lemma TakeRows(rows: seq<Row>, n: nat)
    requires IsWindow(rows)
    ensures IsWindow(Take(rows, n)) && IsWindow(Drop(rows, n))
    ensures rows == Take(rows, n) + Drop(rows, n)
    ensures RowSet(Take(rows, n)) + RowSet(Drop(rows, n)) == RowSet(rows)
  {
    assert rows == Take(rows, n) + Drop(rows, n);
    DisjointIds(Take(rows, n), Drop(rows, n));
  }

  lemma {:induction false} MergeFromDraws(left: seq<Row>, right: seq<Row>, ids: set<nat>, row: Row)
    requires row in MergeFrom(left, right, ids)
    ensures row in left || row in right
    decreases |left| + |right|
  {
    if left == [] && right == [] {
    } else if right == [] || (left != [] && IsMessageOrderNewer(left[0].key, right[0].key)) {
      if row != left[0] { MergeFromDraws(left[1..], right, ids + {left[0].key.id}, row); }
    } else {
      if row != right[0] { MergeFromDraws(left, right[1..], ids + {right[0].key.id}, row); }
    }
  }

  /** Rows of one table, in whatever order, merge to the union of the rows. */
  lemma MergeRowSet(table: seq<Row>, left: seq<Row>, right: seq<Row>)
    requires IsWindow(table) && RowSet(left) <= RowSet(table) && RowSet(right) <= RowSet(table)
    ensures RowSet(Merge(left, right)) == RowSet(left) + RowSet(right)
  {
    MergeIds(left, right);
    forall row | row in Merge(left, right) ensures row in RowSet(left) + RowSet(right) {
      if left != [] && right != [] { MergeFromDraws(left, right, {}, row); }
    }
    forall row | row in RowSet(left) + RowSet(right) ensures row in Merge(left, right) {
      assert row.key.id in Ids(left) + Ids(right);
      var kept :| kept in Merge(left, right) && kept.key.id == row.key.id;
      assert kept in RowSet(left) + RowSet(right);
      SameIdSameRow(table, kept, row);
    }
  }

  lemma {:induction false} UnlistedMembers(rows: seq<Row>, ids: set<nat>, row: Row)
    ensures row in Unlisted(rows, ids) <==> row in rows && row.key.id !in ids
  {
    if rows != [] {
      UnlistedMembers(rows[1..], ids, row);
      assert rows == [rows[0]] + rows[1..];
    }
  }

  lemma {:induction false} UnlistedIsWindow(rows: seq<Row>, ids: set<nat>)
    requires IsWindow(rows)
    ensures IsWindow(Unlisted(rows, ids))
  {
    if rows != [] {
      var rest := Unlisted(rows[1..], ids);
      UnlistedIsWindow(rows[1..], ids);
      forall k | 0 <= k < |rest|
        ensures IsMessageOrderNewer(rows[0].key, rest[k].key) && rows[0].key.id != rest[k].key.id
      {
        UnlistedMembers(rows[1..], ids, rest[k]);
        HeadIsNewer(rows, rest[k]);
      }
      WindowCons(rows[0], rest);
    }
  }

  lemma {:induction false} FreshMembers(rows: seq<Row>, bound: Key, ids: set<nat>, row: Row)
    requires DistinctIds(rows)
    ensures row in Fresh(rows, bound, ids) <==>
              row in rows && IsMessageOrderNewer(row.key, bound) && row.key.id !in ids
  {
    if rows != [] {
      var head := rows[0];
      FreshMembers(rows[1..], bound, ids, row);
      FreshMembers(rows[1..], bound, ids + {head.key.id}, row);
      assert rows == [head] + rows[1..];
    }
  }

  lemma ToExposeMembers(previous: seq<Row>, tail: seq<Row>, authoritative: seq<Row>, exposed: seq<Row>, row: Row)
    requires IsWindow(authoritative)
    ensures row in RowsToExpose(previous, tail, authoritative, exposed) <==>
              previous != [] && (
                || (row in previous && row.key.id !in Ids(tail))
                || (row in Drop(authoritative, MESSAGES_PAGE_SIZE) && IsMessageOrderNewer(row.key, previous[0].key)
                    && row.key.id !in Ids(exposed) + Ids(Unlisted(previous, Ids(tail)))))
  {
    if previous != [] {
      TakeRows(authoritative, MESSAGES_PAGE_SIZE);
      var shiftedOut := Unlisted(previous, Ids(tail));
      UnlistedMembers(previous, Ids(tail), row);
      FreshMembers(Drop(authoritative, MESSAGES_PAGE_SIZE), previous[0].key, Ids(exposed) + Ids(shiftedOut), row);
    }
  }

  // ----- a live result

  function NewTail(s: Tail): seq<Row> {
    Take(s.table, MESSAGES_PAGE_SIZE)
  }

  function ToExpose(s: Tail): seq<Row> {
    RowsToExpose(s.tail, NewTail(s), Authoritative(s.table), Merge(NewTail(s), s.history))
  }

  function Burst(s: Tail): seq<Row>
    requires |s.seen| <= |s.table|
  {
    s.table[..|s.table| - |s.seen|]
  }

  lemma PagesOfTable(table: seq<Row>)
    requires IsWindow(table)
    ensures var auth, tail := Authoritative(table), Take(table, MESSAGES_PAGE_SIZE);
            && auth == Take(table, MESSAGE_HISTORY_FETCH_SIZE) && IsWindow(auth) && IsWindow(tail)
            && Take(Take(table, MESSAGE_HISTORY_FETCH_SIZE + 1), MESSAGES_PAGE_SIZE) == tail
            && tail == Take(auth, MESSAGES_PAGE_SIZE)
            && RowSet(auth) <= RowSet(table) && RowSet(tail) <= RowSet(table)
            && RowSet(tail) + RowSet(Drop(auth, MESSAGES_PAGE_SIZE)) == RowSet(auth)
  {
    TakeRows(table, MESSAGE_HISTORY_FETCH_SIZE);
    TakeRows(Authoritative(table), MESSAGES_PAGE_SIZE);
  }

  lemma ToExposeDraws(s: Tail)
    requires Shape(s)
    ensures RowSet(ToExpose(s)) <= RowSet(s.table)
  {
    PagesOfTable(s.table);
    SuffixRows(s.seen, s.table);
    TakeRows(s.seen, MESSAGES_PAGE_SIZE);
    forall row | row in ToExpose(s) ensures row in RowSet(s.table) {
      ToExposeMembers(s.tail, NewTail(s), Authoritative(s.table), Merge(NewTail(s), s.history), row);
      assert row in RowSet(s.tail) || row in RowSet(Drop(Authoritative(s.table), MESSAGES_PAGE_SIZE));
    }
  }

  lemma AddToHistoryRows(table: seq<Row>, history: seq<Row>, rows: seq<Row>)
    requires IsWindow(table) && RowSet(history) <= RowSet(table) && RowSet(rows) <= RowSet(table)
    ensures RowSet(AddToHistory(history, rows)) == RowSet(history) + RowSet(rows)
  {
    MergeRowSet(table, history, rows);
    assert RowSet([]) == {};
  }

  lemma LiveFields(s: Tail)
    requires Shape(s)
    ensures var s' := AfterLiveResult(s);
            && s'.table == s.table && s'.seen == s.table && s'.tail == NewTail(s)
            && s'.history == AddToHistory(s.history, ToExpose(s))
  {
    PagesOfTable(s.table);
  }

  lemma LiveShown(s: Tail)
    requires Shape(s)
    ensures RowSet(ToExpose(s)) <= RowSet(s.table)
    ensures RowSet(Merge(NewTail(s), s.history)) == RowSet(NewTail(s)) + RowSet(s.history)
    ensures AfterLiveResult(s).Shown() == RowSet(NewTail(s)) + RowSet(s.history) + RowSet(ToExpose(s))
  {
    LiveFields(s);
    ToExposeDraws(s);
    PagesOfTable(s.table);
    SuffixRows(s.seen, s.table);
    MergeRowSet(s.table, NewTail(s), s.history);
    AddToHistoryRows(s.table, s.history, ToExpose(s));
  }

  /** The page a live result replaces stays shown. */
  lemma OldPageStaysShown(s: Tail)
    requires Shape(s)
    ensures RowSet(s.tail) <= AfterLiveResult(s).Shown()
  {
    LiveShown(s);
    PagesOfTable(s.table);
    SuffixRows(s.seen, s.table);
    TakeRows(s.seen, MESSAGES_PAGE_SIZE);
    forall row | row in s.tail ensures row in AfterLiveResult(s).Shown() {
      if row.key.id in Ids(NewTail(s)) {
        var other :| other in NewTail(s) && other.key.id == row.key.id;
        assert row in RowSet(s.table) && other in RowSet(s.table);
        SameIdSameRow(s.table, row, other);
      } else {
        ToExposeMembers(s.tail, NewTail(s), Authoritative(s.table), Merge(NewTail(s), s.history), row);
        assert row in RowSet(ToExpose(s));
      }
    }
  }

  /** A row of the burst within the fetched result is shown. */
  lemma FetchedBurstIsShown(s: Tail, row: Row)
    requires Shape(s) && s.tail != []
    requires row in Authoritative(s.table) && IsMessageOrderNewer(row.key, s.tail[0].key)
    ensures row in AfterLiveResult(s).Shown()
  {
    LiveShown(s);
    PagesOfTable(s.table);
    OldPageStaysShown(s);
    assert row in RowSet(Authoritative(s.table));
    var exposed := Merge(NewTail(s), s.history);
    var shiftedOut := Unlisted(s.tail, Ids(NewTail(s)));
    ToExposeMembers(s.tail, NewTail(s), Authoritative(s.table), exposed, row);
    if row in NewTail(s) {
    } else if row.key.id in Ids(exposed) {
      var other :| other in exposed && other.key.id == row.key.id;
      assert other in RowSet(exposed);
      SuffixRows(s.seen, s.table);
      assert other in RowSet(s.table) && row in RowSet(s.table);
      SameIdSameRow(s.table, row, other);
    } else if row.key.id in Ids(shiftedOut) {
      var other :| other in shiftedOut && other.key.id == row.key.id;
      UnlistedMembers(s.tail, Ids(NewTail(s)), other);
      assert other in RowSet(s.tail);
      SuffixRows(s.seen, s.table);
      TakeRows(s.seen, MESSAGES_PAGE_SIZE);
      assert other in RowSet(s.table) && row in RowSet(s.table);
      SameIdSameRow(s.table, row, other);
    } else {
      assert row in Drop(Authoritative(s.table), MESSAGES_PAGE_SIZE) by {
        assert row in RowSet(NewTail(s)) + RowSet(Drop(Authoritative(s.table), MESSAGES_PAGE_SIZE));
      }
      assert row in RowSet(ToExpose(s));
    }
  }

  /** A recovery starts exactly when the burst fills the fetched result. */
  lemma GapStartsWithBurst(burst: seq<Row>, seen: seq<Row>)
    requires IsWindow(burst + seen)
    ensures StartsGap(Take(seen, MESSAGES_PAGE_SIZE), Authoritative(burst + seen)) <==>
              seen != [] && |burst| >= MESSAGE_HISTORY_FETCH_SIZE
  {
    var table, tail := burst + seen, Take(seen, MESSAGES_PAGE_SIZE);
    var auth := Authoritative(table);
    DisjointIds(burst, seen);
    if seen != [] && |burst| < MESSAGE_HISTORY_FETCH_SIZE {
      assert auth[|burst|] == table[|burst|] == tail[0];
      assert tail[0].key.id in Ids(auth) && tail[0].key.id in Ids(tail);
      assert tail[0].key.id in Ids(auth) * Ids(tail);
    } else if seen != [] {
      assert auth == burst[..MESSAGE_HISTORY_FETCH_SIZE];
      assert forall x :: x in auth ==> x in burst;
      assert forall y :: y in tail ==> y in seen;
      assert Ids(auth) * Ids(tail) == {};
    }
  }

  /** The rows of a burst beyond the fetched result are exactly what the recovery will read. */
  lemma GapReadsRest(burst: seq<Row>, seen: seq<Row>, row: Row)
    requires IsWindow(burst + seen) && seen != [] && |burst| >= MESSAGE_HISTORY_FETCH_SIZE
    ensures row in Where(burst + seen, Between(burst[MESSAGE_HISTORY_FETCH_SIZE - 1].key, seen[0].key)) <==>
              row in burst[MESSAGE_HISTORY_FETCH_SIZE..]
  {
    var last, rest := burst[MESSAGE_HISTORY_FETCH_SIZE - 1], burst[MESSAGE_HISTORY_FETCH_SIZE..];
    WhereMembers(burst + seen, Between(last.key, seen[0].key), row);
    DisjointIds(burst, seen);
    assert row in burst + seen <==> row in burst || row in seen;
    if row in burst {
      var i :| 0 <= i < |burst| && burst[i] == row;
      assert i >= MESSAGE_HISTORY_FETCH_SIZE ==> rest[i - MESSAGE_HISTORY_FETCH_SIZE] == row;
    }
  }

  lemma LiveGapFields(s: Tail)
    ensures var s', authoritative := AfterLiveResult(s), Authoritative(s.table);
            if StartsGap(s.tail, authoritative)
            then s'.gap == Some(Gap(Last(authoritative).key, s.tail[0].key, [])) && s'.lost == s.lost + s.Pending()
            else s'.gap == s.gap && s'.lost == s.lost
  {}

  predicate Overruns(s: Tail)
    requires |s.seen| <= |s.table|
  {
    s.seen != [] && |Burst(s)| >= MESSAGE_HISTORY_FETCH_SIZE
  }

  lemma LiveGap(s: Tail)
    requires Shape(s)
    ensures var s' := AfterLiveResult(s);
            if Overruns(s)
            then s'.lost == s.lost + s.Pending() && s'.Pending() == RowSet(Burst(s)[MESSAGE_HISTORY_FETCH_SIZE..])
            else s'.gap == s.gap && s'.lost == s.lost && s'.Pending() == s.Pending()
  {
    SuffixRows(s.seen, s.table);
    LiveGapFields(s);
    LiveFields(s);
    GapAfter(s, AfterLiveResult(s), Burst(s));
  }

  lemma GapAfter(s: Tail, s': Tail, burst: seq<Row>)
    requires IsWindow(s.table) && s.table == burst + s.seen && s.tail == Take(s.seen, MESSAGES_PAGE_SIZE)
    requires s'.table == s.table
    requires if StartsGap(s.tail, Authoritative(s.table))
             then s'.gap == Some(Gap(Last(Authoritative(s.table)).key, s.tail[0].key, []))
             else s'.gap == s.gap
    ensures StartsGap(s.tail, Authoritative(s.table)) <==> s.seen != [] && |burst| >= MESSAGE_HISTORY_FETCH_SIZE
    ensures s'.Pending() == if s.seen != [] && |burst| >= MESSAGE_HISTORY_FETCH_SIZE
                            then RowSet(burst[MESSAGE_HISTORY_FETCH_SIZE..]) else s.Pending()
  {
    GapStartsWithBurst(burst, s.seen);
    if s.seen != [] && |burst| >= MESSAGE_HISTORY_FETCH_SIZE {
      OverrunPending(burst, s.seen);
      PendingOf(s');
    }
  }

  lemma PendingOf(s: Tail)
    requires s.gap.Some? && s.gap.value.recovered == []
    ensures s.Pending() == RowSet(Where(s.table, Between(s.gap.value.cursor, s.gap.value.bound)))
  {}

  lemma OverrunPending(burst: seq<Row>, seen: seq<Row>)
    requires IsWindow(burst + seen) && seen != [] && |burst| >= MESSAGE_HISTORY_FETCH_SIZE
    ensures Authoritative(burst + seen) != [] && Take(seen, MESSAGES_PAGE_SIZE) != []
    ensures RowSet(Where(burst + seen, Between(Last(Authoritative(burst + seen)).key, Take(seen, MESSAGES_PAGE_SIZE)[0].key)))
            == RowSet(burst[MESSAGE_HISTORY_FETCH_SIZE..])
  {
    assert Authoritative(burst + seen) == burst[..MESSAGE_HISTORY_FETCH_SIZE];
    forall row ensures row in Where(burst + seen, Between(burst[MESSAGE_HISTORY_FETCH_SIZE - 1].key, seen[0].key)) <==>
                       row in burst[MESSAGE_HISTORY_FETCH_SIZE..]
    {
      GapReadsRest(burst, seen, row);
    }
  }

  lemma NewTailRows(burst: seq<Row>, seen: seq<Row>, row: Row)
    requires IsWindow(burst + seen) && row in Take(burst + seen, MESSAGES_PAGE_SIZE)
    ensures row in burst || row in Take(seen, MESSAGES_PAGE_SIZE)
  {
    var table := burst + seen;
    var i :| 0 <= i < |table| && i < MESSAGES_PAGE_SIZE && table[i] == row;
    if i >= |burst| { assert Take(seen, MESSAGES_PAGE_SIZE)[i - |burst|] == row; }
  }

  lemma BurstIsSettled(s: Tail, row: Row)
    requires Shape(s) && s.seen != [] && row in Burst(s)
    ensures row in AfterLiveResult(s).Shown() + AfterLiveResult(s).Pending()
  {
    var burst := Burst(s);
    SuffixRows(s.seen, s.table);
    var i :| 0 <= i < |burst| && burst[i] == row;
    if i < MESSAGE_HISTORY_FETCH_SIZE {
      InFetch(burst, s.seen, i);
      FetchedBurstIsShown(s, row);
    } else {
      LiveGap(s);
      InRest(burst, MESSAGE_HISTORY_FETCH_SIZE, i);
    }
  }

  lemma InRest(rows: seq<Row>, n: nat, i: nat)
    requires n <= i < |rows|
    ensures rows[i] in rows[n..]
  {
    assert rows[n..][i - n] == rows[i];
  }

  lemma InFetch(burst: seq<Row>, seen: seq<Row>, i: nat)
    requires IsWindow(burst + seen) && seen != [] && i < |burst| && i < MESSAGE_HISTORY_FETCH_SIZE
    ensures burst[i] in Authoritative(burst + seen)
    ensures Take(seen, MESSAGES_PAGE_SIZE) != []
    ensures IsMessageOrderNewer(burst[i].key, Take(seen, MESSAGES_PAGE_SIZE)[0].key)
  {
    assert Authoritative(burst + seen)[i] == burst[i];
    DisjointIds(burst, seen);
  }

  lemma SettledUnion(s: Tail, s': Tail, burst: set<Row>)
    requires s.Shown() <= s'.Shown() <= burst + s.Shown()
    requires burst <= s'.Shown() + s'.Pending()
    requires (s'.Pending() == s.Pending() && s'.lost == s.lost) ||
             (s'.Pending() <= burst && s'.lost == s.lost + s.Pending())
    ensures s'.Settled() == burst + s.Settled()
  {}

  /** A live result settles the whole burst, either shown or awaiting recovery, and unsettles nothing. */
  lemma LiveSettles(s: Tail)
    requires Shape(s) && s.seen != []
    ensures AfterLiveResult(s).Settled() == RowSet(Burst(s)) + s.Settled()
  {
    forall row | row in Burst(s) ensures row in AfterLiveResult(s).Shown() + AfterLiveResult(s).Pending() {
      BurstIsSettled(s, row);
    }
    forall row | row in AfterLiveResult(s).Shown() ensures row in RowSet(Burst(s)) + s.Shown() {
      ShownIsOldOrBurst(s, row);
    }
    OldPageStaysShown(s);
    LiveShown(s);
    LiveGap(s);
    DropSubset(Burst(s));
    SettledUnion(s, AfterLiveResult(s), RowSet(Burst(s)));
  }

  lemma DropSubset(rows: seq<Row>)
    ensures |rows| >= MESSAGE_HISTORY_FETCH_SIZE ==> RowSet(rows[MESSAGE_HISTORY_FETCH_SIZE..]) <= RowSet(rows)
  {}

  lemma ShownIsOldOrBurst(s: Tail, row: Row)
    requires Shape(s) && row in AfterLiveResult(s).Shown()
    ensures row in RowSet(Burst(s)) + s.Shown()
  {
    SuffixRows(s.seen, s.table);
    LiveShown(s);
    PagesOfTable(s.table);
    if row in NewTail(s) {
      NewTailRows(Burst(s), s.seen, row);
    } else if row in ToExpose(s) {
      ToExposeMembers(s.tail, NewTail(s), Authoritative(s.table), Merge(NewTail(s), s.history), row);
      if row !in s.tail {
        assert s.tail[0] == s.seen[0];
        assert row in RowSet(Authoritative(s.table));
        assert row in RowSet(Burst(s)) + RowSet(s.seen);
        HeadIsNewest(s.seen, row);
      }
    }
  }

  lemma HeadIsNewest(rows: seq<Row>, row: Row)
    requires NewestFirst(rows) && rows != [] && IsMessageOrderNewer(row.key, rows[0].key)
    ensures row !in rows
  {}

  lemma ClosedOverBurst(burst: seq<Row>, seen: seq<Row>, rows: set<Row>)
    requires IsWindow(burst + seen) && NewerClosed(seen, rows) && rows <= RowSet(seen)
    ensures NewerClosed(burst + seen, RowSet(burst) + rows)
  {
    DisjointIds(burst, seen);
    forall row, other | row in RowSet(burst) + rows && other in burst + seen && IsMessageOrderNewer(other.key, row.key)
      ensures other in RowSet(burst) + rows
    {
      if other !in burst { assert row !in burst; }
    }
  }

  lemma SettledFromSeen(s: Tail)
    requires Shape(s)
    ensures s.Settled() <= RowSet(s.seen)
  {
    SuffixRows(s.seen, s.table);
    TakeRows(s.seen, MESSAGES_PAGE_SIZE);
    if s.gap.Some? { GapFromSeen(s); }
  }

  lemma GapFromSeen(s: Tail)
    requires Shape(s) && s.gap.Some?
    ensures RowSet(Where(s.table, Between(s.gap.value.cursor, s.gap.value.bound))) <= RowSet(s.seen)
  {
    var g := s.gap.value;
    SuffixRows(s.seen, s.table);
    GrowthKeepsGap(Burst(s), s.seen, g.cursor, g.bound);
    forall row | row in Where(s.table, Between(g.cursor, g.bound)) ensures row in s.seen {
      WhereMembers(s.seen, Between(g.cursor, g.bound), row);
    }
  }

  lemma LiveClosed(s: Tail)
    requires Inv(s)
    ensures NewerClosed(s.table, AfterLiveResult(s).Settled())
  {
    SuffixRows(s.seen, s.table);
    if s.seen != [] {
      LiveSettles(s);
      SettledFromSeen(s);
      ClosedOverBurst(Burst(s), s.seen, s.Settled());
    } else {
      FirstResult(s);
      TakeClosed(s.table, MESSAGES_PAGE_SIZE);
    }
  }

  lemma NoRows(rows: seq<Row>, table: seq<Row>)
    requires RowSet(rows) <= RowSet(table)
    ensures table == [] ==> rows == []
  {
    if rows != [] { assert rows[0] in RowSet(rows); }
  }

  lemma FirstResult(s: Tail)
    requires Shape(s) && s.seen == []
    ensures AfterLiveResult(s).Settled() == RowSet(NewTail(s)) && s.prefetch == []
  {
    LiveGap(s);
    assert s.tail == [];
    assert s.history == [] by { NoRows(s.history, s.seen); }
    assert s.prefetch == [] by { NoRows(s.prefetch, s.seen); }
    assert s.lost == {};
    assert RowSet([]) == {};
    PagesOfTable(s.table);
    assert AfterLiveResult(s).history == [];
  }

  lemma TakeClosed(table: seq<Row>, n: nat)
    requires IsWindow(table)
    ensures NewerClosed(table, RowSet(Take(table, n)))
  {
    forall row, other | row in Take(table, n) && other in table && IsMessageOrderNewer(other.key, row.key)
      ensures other in Take(table, n)
    {
      var i :| 0 <= i < |Take(table, n)| && Take(table, n)[i] == row;
      var j :| 0 <= j < |table| && table[j] == other;
      assert j < i;
      assert Take(table, n)[j] == other;
    }
  }

  function Overflow(s: Tail): seq<Row> {
    Unlisted(Drop(Authoritative(s.table), MESSAGES_PAGE_SIZE), Ids(Merge(NewTail(s), s.history)) + Ids(ToExpose(s)))
  }

  lemma LivePrefetchFields(s: Tail)
    requires Shape(s)
    ensures var s' := AfterLiveResult(s);
            && s'.prefetch == (if Overflow(s) == [] then s.prefetch else Merge(Overflow(s), s.prefetch))
            && s'.request == s.request
            && s'.hasMore == (|s.table| > MESSAGE_HISTORY_FETCH_SIZE)
  {
    PagesOfTable(s.table);
  }

  lemma LivePrefetch(s: Tail)
    requires Shape(s)
    ensures IsWindow(AfterLiveResult(s).prefetch)
    ensures RowSet(AfterLiveResult(s).prefetch) == RowSet(Overflow(s)) + RowSet(s.prefetch)
    ensures RowSet(Overflow(s)) <= RowSet(Authoritative(s.table)) <= RowSet(s.table)
  {
    LivePrefetchFields(s);
    SuffixRows(s.seen, s.table);
    PagesOfTable(s.table);
    TakeRows(Authoritative(s.table), MESSAGES_PAGE_SIZE);
    var ids := Ids(Merge(NewTail(s), s.history)) + Ids(ToExpose(s));
    UnlistedIsWindow(Drop(Authoritative(s.table), MESSAGES_PAGE_SIZE), ids);
    forall row | row in Overflow(s) ensures row in RowSet(Authoritative(s.table)) {
      UnlistedMembers(Drop(Authoritative(s.table), MESSAGES_PAGE_SIZE), ids, row);
      assert row in RowSet(Drop(Authoritative(s.table), MESSAGES_PAGE_SIZE));
    }
    MergeRowSet(s.table, Overflow(s), s.prefetch);
    MergeIsWindowOfSurvivors(Overflow(s), s.prefetch);
    assert RowSet([]) == {};
  }

  /** Every fetched row ends up shown or buffered. */
  lemma FetchedIsCovered(s: Tail, row: Row)
    requires Shape(s) && row in Authoritative(s.table)
    ensures row in AfterLiveResult(s).Shown() + RowSet(AfterLiveResult(s).prefetch)
  {
    PagesOfTable(s.table);
    LiveShown(s);
    LivePrefetch(s);
    SuffixRows(s.seen, s.table);
    assert row in RowSet(NewTail(s)) + RowSet(Drop(Authoritative(s.table), MESSAGES_PAGE_SIZE));
    var exposed, added := Merge(NewTail(s), s.history), ToExpose(s);
    if row !in NewTail(s) {
      UnlistedMembers(Drop(Authoritative(s.table), MESSAGES_PAGE_SIZE), Ids(exposed) + Ids(added), row);
      if row.key.id in Ids(exposed) + Ids(added) {
        var other := RowWithId(exposed, added, row.key.id);
        assert other in RowSet(exposed) + RowSet(added);
        assert other in RowSet(s.table) && row in RowSet(s.table);
        SameIdSameRow(s.table, row, other);
      }
    }
  }

  lemma RowWithId(a: seq<Row>, b: seq<Row>, id: nat) returns (row: Row)
    requires id in Ids(a) + Ids(b)
    ensures (row in a || row in b) && row.key.id == id
  {
    row :| (row in a || row in b) && row.key.id == id;
  }

  lemma ShownOnlyGrows(s: Tail)
    requires Shape(s)
    ensures s.Shown() <= AfterLiveResult(s).Shown()
  {
    OldPageStaysShown(s);
    LiveShown(s);
  }

  lemma LiveKeepsShape(s: Tail)
    requires Shape(s)
    ensures Shape(AfterLiveResult(s))
  {
    var s' := AfterLiveResult(s);
    LiveFields(s);
    ToExposeDraws(s);
    SuffixRows(s.seen, s.table);
    AddToHistoryRows(s.table, s.history, ToExpose(s));
    LivePrefetch(s);
    LiveGapFields(s);
    SettledFromSeen(s);
    assert Suffix(s.table, s.table);
    LiveKeepsGap(s);
  }

  lemma LiveKeepsGap(s: Tail)
    requires Shape(s)
    ensures GapInv(AfterLiveResult(s))
  {
    var s', auth := AfterLiveResult(s), Authoritative(s.table);
    LiveGapFields(s);
    LiveFields(s);
    SuffixRows(s.seen, s.table);
    PagesOfTable(s.table);
    if StartsGap(s.tail, auth) {
      assert Last(auth) in RowSet(auth);
      assert RowSet([]) == {};
    } else if s.gap.Some? {
      var row :| row in s.seen && row.key == s.gap.value.cursor;
      assert row in RowSet(s.table);
    }
  }

  lemma BufferClosed(burst: seq<Row>, seen: seq<Row>, fetched: set<Row>, settled: set<Row>, buffer: set<Row>,
                     settled': set<Row>, buffer': set<Row>, overflow: set<Row>)
    requires IsWindow(burst + seen) && buffer <= RowSet(seen) && NewerClosed(seen, settled + buffer)
    requires NewerClosed(burst + seen, settled') && NewerClosed(burst + seen, fetched)
    requires buffer' == overflow + buffer && overflow <= fetched <= settled' + buffer'
    requires RowSet(burst) + settled <= settled' || buffer == {}
    ensures NewerClosed(burst + seen, settled' + buffer')
  {
    DisjointIds(burst, seen);
    forall row, other | row in settled' + buffer' && other in burst + seen && IsMessageOrderNewer(other.key, row.key)
      ensures other in settled' + buffer'
    {
      if row in settled' {
      } else if row in overflow {
        assert other in fetched;
      } else if other !in burst {
        assert other in settled + buffer;
      }
    }
  }

  lemma LiveBufferClosed(s: Tail)
    requires Inv(s)
    ensures NewerClosed(s.table, AfterLiveResult(s).Settled() + RowSet(AfterLiveResult(s).prefetch))
    ensures RowSet(Authoritative(s.table)) <= AfterLiveResult(s).Settled() + RowSet(AfterLiveResult(s).prefetch)
  {
    var fetched := RowSet(Authoritative(s.table));
    forall row | row in Authoritative(s.table)
      ensures row in AfterLiveResult(s).Settled() + RowSet(AfterLiveResult(s).prefetch)
    {
      FetchedIsCovered(s, row);
    }
    LiveClosed(s);
    LivePrefetch(s);
    SuffixRows(s.seen, s.table);
    PagesOfTable(s.table);
    TakeClosed(s.table, MESSAGE_HISTORY_FETCH_SIZE);
    if s.seen != [] { LiveSettles(s); } else { FirstResult(s); }
    BufferClosed(Burst(s), s.seen, fetched, s.Settled(), RowSet(s.prefetch), AfterLiveResult(s).Settled(),
                 RowSet(AfterLiveResult(s).prefetch), RowSet(Overflow(s)));
  }

  lemma KeepsRequest(s: Tail, s': Tail)
    requires s.request.Some? ==> exists row :: row in s.Shown() + RowSet(s.prefetch) && row.key == s.request.value
    requires s'.request == s.request || s'.request.None?
    requires s.Shown() + RowSet(s.prefetch) <= s'.Shown() + RowSet(s'.prefetch)
    ensures s'.request.Some? ==> exists row :: row in s'.Shown() + RowSet(s'.prefetch) && row.key == s'.request.value
  {
    if s'.request.Some? {
      var row :| row in s.Shown() + RowSet(s.prefetch) && row.key == s.request.value;
      assert row in s'.Shown() + RowSet(s'.prefetch);
    }
  }

  lemma LiveKeepsInv(s: Tail)
    requires Inv(s)
    ensures Inv(AfterLiveResult(s))
  {
    LiveKeepsShape(s);
    LiveClosed(s);
    LiveFields(s);
    LiveBufferClosed(s);
    LivePrefetch(s);
    LivePrefetchFields(s);
    ShownOnlyGrows(s);
    KeepsRequest(s, AfterLiveResult(s));
    if |s.table| <= MESSAGE_HISTORY_FETCH_SIZE {
      PagesOfTable(s.table);
      assert Authoritative(s.table) == s.table;
    }
  }

  // ----- the other steps

  /** Rows that arrive at the newest end. */
  lemma GrowthKeepsInv(s: Tail, burst: seq<Row>)
    requires Inv(s) && IsWindow(burst + s.table)
    ensures Inv(s.(table := burst + s.table)) && s.(table := burst + s.table).Pending() == s.Pending()
  {
    var s' := s.(table := burst + s.table);
    GrowthKeepsShape(s, s', burst);
    if s.gap.Some? { GrowthMissesGap(s, burst); }
    SameReadingSamePending(s, s');
    SameListsKeepInv(s, s');
  }

  lemma GrowthKeepsShape(s: Tail, s': Tail, burst: seq<Row>)
    requires Shape(s) && IsWindow(burst + s.table) && s' == s.(table := burst + s.table)
    ensures Shape(s')
  {
    assert s'.table[|s'.table| - |s.seen|..] == s.table[|s.table| - |s.seen|..];
  }

  lemma GrowthMissesGap(s: Tail, burst: seq<Row>)
    requires Shape(s) && s.gap.Some? && IsWindow(burst + s.table)
    ensures var between := Between(s.gap.value.cursor, s.gap.value.bound);
            Where(burst + s.table, between) == Where(s.table, between)
  {
    var g := s.gap.value;
    var at :| at in s.seen && at.key == g.cursor;
    SuffixRows(s.seen, s.table);
    assert at in RowSet(s.table);
    GrowthKeepsGap(burst, s.table, g.cursor, g.bound);
  }

  /** The state as of the last live result. */
  lemma AsLastSeen(s: Tail)
    requires Inv(s)
    ensures Inv(s.(table := s.seen)) && s.(table := s.seen).Pending() == s.Pending()
  {
    var before := s.(table := s.seen);
    SeenKeepsShape(s, before);
    SameReadingSamePending(s, before);
    SameListsKeepInv(s, before);
  }

  lemma SeenKeepsShape(s: Tail, before: Tail)
    requires Shape(s) && before == s.(table := s.seen)
    ensures Shape(before)
    ensures s.gap.Some? ==> var between := Between(s.gap.value.cursor, s.gap.value.bound);
                            Where(before.table, between) == Where(s.table, between)
  {
    SuffixRows(s.seen, s.table);
    assert Suffix(s.seen, s.seen) by { assert s.seen[0..] == s.seen; }
    if s.gap.Some? { GrowthKeepsGap(Burst(s), s.seen, s.gap.value.cursor, s.gap.value.bound); }
  }

  lemma RerunKeepsInv(s: Tail)
    requires Inv(s)
    ensures Inv(AfterRerun(s)) && AfterRerun(s).Pending() == AfterLiveResult(s.(table := s.seen)).Pending()
  {
    AsLastSeen(s);
    LiveKeepsInv(s.(table := s.seen));
    LiveFields(s.(table := s.seen));
    SuffixRows(s.seen, s.table);
    GrowthKeepsInv(AfterLiveResult(s.(table := s.seen)), Burst(s));
  }

  /** A page of older rows is the same whenever it is read: at its request, at its arrival, or between. */
  lemma OlderPageReadEarly(burst: seq<Row>, table: seq<Row>, at: Row)
    requires IsWindow(burst + table) && at in table
    ensures Where(burst + table, StrictlyOlder(at.key)) == Where(table, StrictlyOlder(at.key))
  {
    DisjointIds(burst, table);
    WhereSplits(burst, table, StrictlyOlder(at.key));
    if Where(burst, StrictlyOlder(at.key)) != [] {
      WhereMembers(burst, StrictlyOlder(at.key), Where(burst, StrictlyOlder(at.key))[0]);
    }
  }

  lemma SameReadingSamePending(s: Tail, s': Tail)
    requires s'.gap == s.gap
    requires s.gap.Some? ==> var between := Between(s.gap.value.cursor, s.gap.value.bound);
                             Where(s'.table, between) == Where(s.table, between)
    ensures s'.Pending() == s.Pending()
  {}

  lemma SameListsKeepInv(s: Tail, s': Tail)
    requires Inv(s) && Shape(s')
    requires s'.seen == s.seen && s'.tail == s.tail && s'.history == s.history && s'.prefetch == s.prefetch
    requires s'.hasMore == s.hasMore && s'.lost == s.lost && s'.request == s.request && s'.Pending() == s.Pending()
    ensures Inv(s')
  {
    assert s'.Settled() == s.Settled();
  }

  lemma GapPageFields(s: Tail)
    requires s.gap.Some?
    ensures var g, s' := s.gap.value, AfterGapPage(s);
            var all := Where(s.table, Between(g.cursor, g.bound));
            var recovered := g.recovered + Take(all, MESSAGE_HISTORY_FETCH_SIZE);
            && s' == s.(gap := s'.gap, history := s'.history)
            && if |all| <= MESSAGE_HISTORY_FETCH_SIZE
               then s'.gap.None? && s'.history == AddToHistory(s.history, recovered)
               else s'.gap == Some(Gap(all[MESSAGE_HISTORY_FETCH_SIZE - 1].key, g.bound, recovered)) && s'.history == s.history
  {
    var all := Where(s.table, Between(s.gap.value.cursor, s.gap.value.bound));
    assert Take(Take(all, MESSAGE_HISTORY_FETCH_SIZE + 1), MESSAGE_HISTORY_FETCH_SIZE) == Take(all, MESSAGE_HISTORY_FETCH_SIZE);
  }

  lemma PendingFromSeen(s: Tail)
    requires Shape(s) && s.gap.Some?
    ensures RowSet(Where(s.table, Between(s.gap.value.cursor, s.gap.value.bound))) <= RowSet(s.seen) <= RowSet(s.table)
  {
    SettledFromSeen(s);
    SuffixRows(s.seen, s.table);
    assert RowSet(Where(s.table, Between(s.gap.value.cursor, s.gap.value.bound))) <= s.Settled();
  }

  lemma LastGapPage(s: Tail, s': Tail, all: seq<Row>)
    requires Shape(s) && s.gap.Some? && all == Where(s.table, Between(s.gap.value.cursor, s.gap.value.bound))
    requires s' == s.(gap := None, history := AddToHistory(s.history, s.gap.value.recovered + all))
    ensures Shape(s') && s'.Settled() == s.Settled() && s.Shown() <= s'.Shown() && s'.Pending() <= s.Pending()
  {
    PendingFromSeen(s);
    RowSetConcat(s.gap.value.recovered, all);
    AddToHistoryRows(s.table, s.history, s.gap.value.recovered + all);
    FinishedPending(s, s', RowSet(s.gap.value.recovered), RowSet(all));
  }

  lemma FinishedPending(s: Tail, s': Tail, recovered: set<Row>, rest: set<Row>)
    requires s'.tail == s.tail && RowSet(s'.history) == RowSet(s.history) + (recovered + rest)
    requires s.Pending() == rest + recovered && s'.Pending() == {} && s'.lost == s.lost
    ensures s'.Settled() == s.Settled() && s.Shown() <= s'.Shown() && s'.Pending() <= s.Pending()
  {}

  lemma MiddleGapPage(s: Tail, s': Tail, all: seq<Row>)
    requires Shape(s) && s.gap.Some? && all == Where(s.table, Between(s.gap.value.cursor, s.gap.value.bound))
    requires |all| > MESSAGE_HISTORY_FETCH_SIZE
    requires s' == s.(gap := Some(Gap(all[MESSAGE_HISTORY_FETCH_SIZE - 1].key, s.gap.value.bound,
                                      s.gap.value.recovered + all[..MESSAGE_HISTORY_FETCH_SIZE])))
    ensures Shape(s') && s'.Settled() == s.Settled() && s.Shown() <= s'.Shown() && s'.Pending() <= s.Pending()
  {
    var g := s.gap.value;
    PendingFromSeen(s);
    MovedRows(s.table, g.cursor, g.bound, all, g.recovered);
    assert s'.Pending() == s.Pending();
  }

  lemma MovedRows(table: seq<Row>, cursor: Key, bound: Key, all: seq<Row>, recovered: seq<Row>)
    requires IsWindow(table) && all == Where(table, Between(cursor, bound)) && |all| > MESSAGE_HISTORY_FETCH_SIZE
    ensures var page := all[..MESSAGE_HISTORY_FETCH_SIZE];
            var last := all[MESSAGE_HISTORY_FETCH_SIZE - 1];
            && last in RowSet(all)
            && RowSet(recovered + page) <= RowSet(recovered) + RowSet(all)
            && RowSet(Where(table, Between(last.key, bound))) + RowSet(recovered + page) == RowSet(all) + RowSet(recovered)
  {
    var page, rest := all[..MESSAGE_HISTORY_FETCH_SIZE], all[MESSAGE_HISTORY_FETCH_SIZE..];
    NextGapPage(table, cursor, bound, MESSAGE_HISTORY_FETCH_SIZE);
    assert all == page + rest;
    RowSetConcat(page, rest);
    RowSetConcat(recovered, page);
  }

  /** A page moves rows from still to be read to recovered; the last page shows what was recovered. */
  lemma GapPageMoves(s: Tail)
    requires Shape(s) && s.gap.Some?
    ensures Shape(AfterGapPage(s))
    ensures AfterGapPage(s).Settled() == s.Settled()
    ensures s.Shown() <= AfterGapPage(s).Shown()
    ensures AfterGapPage(s).Pending() <= s.Pending() && AfterGapPage(s).lost == s.lost
  {
    var all := Where(s.table, Between(s.gap.value.cursor, s.gap.value.bound));
    GapPageFields(s);
    if |all| <= MESSAGE_HISTORY_FETCH_SIZE {
      LastGapPage(s, AfterGapPage(s), all);
    } else {
      MiddleGapPage(s, AfterGapPage(s), all);
    }
  }

  lemma GapPageKeepsInv(s: Tail)
    requires Inv(s) && s.gap.Some?
    ensures Inv(AfterGapPage(s))
  {
    GapPageMoves(s);
    GapPageFields(s);
    KeepsRequest(s, AfterGapPage(s));
  }

  lemma RowSetConcat(a: seq<Row>, b: seq<Row>)
    ensures RowSet(a + b) == RowSet(a) + RowSet(b)
  {}

  /** Steps that leave what is settled and buffered alone. */
  lemma SameCoverage(s: Tail, s': Tail)
    requires Coverage(s)
    requires s'.seen == s.seen && s'.prefetch == s.prefetch && s'.hasMore == s.hasMore
    requires s'.Settled() == s.Settled() && s'.Shown() == s.Shown()
    requires s'.request.None? || s'.request == s.request ||
             exists row :: row in s.Shown() + RowSet(s.prefetch) && row.key == s'.request.value
    ensures Coverage(s')
  {}

  lemma AbandonKeepsInv(s: Tail)
    requires Inv(s)
    ensures Inv(Abandon(s)) && Abandon(s).Settled() == s.Settled()
  {
    SettledFromSeen(s);
    assert Abandon(s).Settled() == s.Settled() && Shape(Abandon(s));
    SameCoverage(s, Abandon(s));
  }

  lemma ShownFromSeen(s: Tail)
    requires Shape(s)
    ensures IsWindow(s.seen) && s.Shown() <= RowSet(s.seen)
    ensures RowSet(s.Exposed()) == s.Shown()
  {
    SuffixRows(s.seen, s.table);
    TakeRows(s.seen, MESSAGES_PAGE_SIZE);
    MergeRowSet(s.seen, s.tail, s.history);
  }

  lemma LastIsMember(rows: seq<Row>)
    ensures rows != [] ==> Last(rows) in RowSet(rows)
  {}

  lemma RequestFields(s: Tail, show: bool)
    ensures var s' := AfterRequest(s, show);
            var cursorRows := if s.prefetch != [] then s.prefetch else s.Exposed();
            && SameBase(s, s') && s'.history == s.history && s'.prefetch == s.prefetch && s'.hasMore == s.hasMore
            && (s'.request == s.request || (cursorRows != [] && s'.request == Some(Last(cursorRows).key)))
  {}

  lemma SameListsKeepShape(s: Tail, s': Tail)
    requires Shape(s) && SameBase(s, s') && s'.history == s.history && s'.prefetch == s.prefetch
    ensures Shape(s') && s'.Settled() == s.Settled() && s'.Shown() == s.Shown()
  {}

  lemma RequestKeepsInv(s: Tail, show: bool)
    requires Inv(s)
    ensures Inv(AfterRequest(s, show))
  {
    RequestFields(s, show);
    SameListsKeepShape(s, AfterRequest(s, show));
    ShownFromSeen(s);
    LastIsMember(s.prefetch);
    LastIsMember(s.Exposed());
    SameCoverage(s, AfterRequest(s, show));
  }

  ghost predicate SameBase(s: Tail, s': Tail) {
    s'.table == s.table && s'.seen == s.seen && s'.tail == s.tail && s'.gap == s.gap && s'.lost == s.lost
  }

  lemma ShowKeepsShape(s: Tail, s': Tail, first: seq<Row>, rest: seq<Row>)
    requires Shape(s) && IsWindow(rest) && RowSet(first) + RowSet(rest) <= RowSet(s.seen)
    requires SameBase(s, s') && s'.history == AddToHistory(s.history, first) && s'.prefetch == rest
    ensures RowSet(s'.history) == RowSet(s.history) + RowSet(first)
    ensures Shape(s')
  {
    SuffixRows(s.seen, s.table);
    AddToHistoryRows(s.seen, s.history, first);
  }

  lemma ShowSettles(s: Tail, s': Tail, first: seq<Row>)
    requires SameBase(s, s') && RowSet(s'.history) == RowSet(s.history) + RowSet(first)
    ensures s'.Shown() == s.Shown() + RowSet(first) && s'.Settled() == s.Settled() + RowSet(first)
  {}

  /** Showing the first rows of the buffer. */
  lemma ShowFromBuffer(s: Tail, buffer: seq<Row>, n: nat, s': Tail)
    requires Shape(s) && NewerClosed(s.seen, s.Settled())
    requires IsWindow(buffer) && RowSet(buffer) <= RowSet(s.seen)
    requires NewerClosed(s.seen, s.Settled() + RowSet(buffer))
    requires SameBase(s, s') && s'.history == AddToHistory(s.history, Take(buffer, n)) && s'.prefetch == Drop(buffer, n)
    ensures Shape(s') && NewerClosed(s.seen, s'.Settled())
    ensures s'.Settled() + RowSet(s'.prefetch) == s.Settled() + RowSet(buffer)
    ensures s'.Shown() + RowSet(s'.prefetch) == s.Shown() + RowSet(buffer)
  {
    var first, rest := Take(buffer, n), Drop(buffer, n);
    TakeRows(buffer, n);
    ShowKeepsShape(s, s', first, rest);
    ShowSettles(s, s', first);
    PrefixClosed(s.seen, s.Settled(), first, rest, buffer);
    UnionAssoc(s.Settled(), RowSet(first), RowSet(rest));
    UnionAssoc(s.Shown(), RowSet(first), RowSet(rest));
  }

  lemma UnionAssoc(a: set<Row>, b: set<Row>, c: set<Row>)
    ensures (a + b) + c == a + (b + c)
  {}

  lemma PrefixClosed(table: seq<Row>, rows: set<Row>, first: seq<Row>, rest: seq<Row>, buffer: seq<Row>)
    requires IsWindow(buffer) && buffer == first + rest
    requires NewerClosed(table, rows) && NewerClosed(table, rows + RowSet(buffer))
    ensures NewerClosed(table, rows + RowSet(first))
  {
    DisjointIds(first, rest);
    forall row, other | row in rows + RowSet(first) && other in table && IsMessageOrderNewer(other.key, row.key)
      ensures other in rows + RowSet(first)
    {
      if row !in rows { assert other in rows + RowSet(buffer); }
    }
  }

  lemma OlderPage(s: Tail, at: Row)
    requires Shape(s) && at in s.seen
    ensures var all := Where(s.table, StrictlyOlder(at.key));
            IsWindow(all) && forall row :: row in all <==> row in s.seen && StrictlyOlder(at.key).Holds(row.key)
  {
    SuffixRows(s.seen, s.table);
    WhereIsWindow(s.table, StrictlyOlder(at.key));
    forall row ensures row in Where(s.table, StrictlyOlder(at.key)) <==> row in s.seen && StrictlyOlder(at.key).Holds(row.key) {
      WhereMembers(s.table, StrictlyOlder(at.key), row);
      if row in s.table && StrictlyOlder(at.key).Holds(row.key) { OlderRowsAreSeen(s, at, row); }
      if row in s.seen { assert row in RowSet(s.table); }
    }
  }

  /** A page continues below the row its cursor names, so the buffer stays closed. */
  lemma PageExtendsBuffer(s: Tail, at: Row)
    requires Inv(s) && at in s.Shown() + RowSet(s.prefetch)
    ensures var all := Where(s.table, StrictlyOlder(at.key));
            var expanded := Merge(s.prefetch, Take(all, MESSAGE_HISTORY_FETCH_SIZE));
            && IsWindow(expanded) && RowSet(expanded) <= RowSet(s.seen)
            && RowSet(s.prefetch) <= RowSet(expanded)
            && NewerClosed(s.seen, s.Settled() + RowSet(expanded))
            && (|all| <= MESSAGE_HISTORY_FETCH_SIZE ==> RowSet(s.seen) <= s.Settled() + RowSet(expanded))
  {
    var all := Where(s.table, StrictlyOlder(at.key));
    var page := Take(all, MESSAGE_HISTORY_FETCH_SIZE);
    ShownFromSeen(s);
    assert at in RowSet(s.seen);
    OlderPage(s, at);
    PageClosed(s.seen, s.Settled() + RowSet(s.prefetch), at, all, MESSAGE_HISTORY_FETCH_SIZE);
    PageBuffered(s.seen, s.prefetch, all);
    assert s.Settled() + RowSet(Merge(s.prefetch, page)) == (s.Settled() + RowSet(s.prefetch)) + RowSet(page);
  }

  lemma PageBuffered(seen: seq<Row>, prefetch: seq<Row>, all: seq<Row>)
    requires IsWindow(seen) && IsWindow(prefetch) && IsWindow(all) && RowSet(prefetch) <= RowSet(seen)
    requires forall row :: row in all ==> row in seen
    ensures var expanded := Merge(prefetch, Take(all, MESSAGE_HISTORY_FETCH_SIZE));
            && IsWindow(expanded) && RowSet(expanded) <= RowSet(seen)
            && RowSet(expanded) == RowSet(prefetch) + RowSet(Take(all, MESSAGE_HISTORY_FETCH_SIZE))
  {
    TakeRows(all, MESSAGE_HISTORY_FETCH_SIZE);
    MergeRowSet(seen, prefetch, Take(all, MESSAGE_HISTORY_FETCH_SIZE));
    MergeIsWindowOfSurvivors(prefetch, Take(all, MESSAGE_HISTORY_FETCH_SIZE));
  }

  lemma OlderRowsAreSeen(s: Tail, at: Row, row: Row)
    requires Shape(s) && at in s.seen && row in s.table && IsMessageOrderNewer(at.key, row.key)
    ensures row in s.seen
  {
    SuffixRows(s.seen, s.table);
    DisjointIds(Burst(s), s.seen);
    assert row in RowSet(Burst(s)) + RowSet(s.seen);
  }

  lemma PageClosed(table: seq<Row>, rows: set<Row>, at: Row, all: seq<Row>, n: nat)
    requires IsWindow(table) && NewerClosed(table, rows) && at in rows && at in table && IsWindow(all)
    requires forall row :: row in all <==> row in table && StrictlyOlder(at.key).Holds(row.key)
    ensures NewerClosed(table, rows + RowSet(Take(all, n)))
    ensures |all| <= n ==> RowSet(table) <= rows + RowSet(Take(all, n))
  {
    forall row, other | row in rows + RowSet(Take(all, n)) && other in table && IsMessageOrderNewer(other.key, row.key)
      ensures other in rows + RowSet(Take(all, n))
    {
      if row !in rows && other in all {
        TakeClosed(all, n);
      } else if row !in rows {
        NewerOrSame(table, at, other, rows);
      }
    }
    forall row | row in table && row !in all ensures row in rows {
      NewerOrSame(table, at, row, rows);
    }
  }

  lemma NewerOrSame(table: seq<Row>, at: Row, row: Row, rows: set<Row>)
    requires IsWindow(table) && NewerClosed(table, rows) && at in rows && at in table && row in table
    requires !StrictlyOlder(at.key).Holds(row.key)
    ensures row in rows
  {
    if row.key.id == at.key.id { SameIdSameRow(table, row, at); }
  }

  lemma PageFields(s: Tail)
    requires s.request.Some?
    ensures var s' := AfterPage(s);
            var all := Where(s.table, StrictlyOlder(s.request.value));
            var expanded := Merge(s.prefetch, Take(all, MESSAGE_HISTORY_FETCH_SIZE));
            var n := if s.showOnArrival then MESSAGES_PAGE_SIZE else 0;
            && SameBase(s, s') && s'.history == AddToHistory(s.history, Take(expanded, n))
            && s'.prefetch == Drop(expanded, n) && s'.request.None?
            && s'.hasMore == (|all| > MESSAGE_HISTORY_FETCH_SIZE)
  {
    var all := Where(s.table, StrictlyOlder(s.request.value));
    var rows := Take(all, MESSAGE_HISTORY_FETCH_SIZE + 1);
    assert Take(rows, MESSAGE_HISTORY_FETCH_SIZE) == Take(all, MESSAGE_HISTORY_FETCH_SIZE);
    var expanded := Merge(s.prefetch, Take(all, MESSAGE_HISTORY_FETCH_SIZE));
    assert Take(expanded, 0) == [] && Drop(expanded, 0) == expanded;
  }

  lemma PageKeepsInv(s: Tail)
    requires Inv(s) && s.request.Some?
    ensures Inv(AfterPage(s))
  {
    var at :| at in s.Shown() + RowSet(s.prefetch) && at.key == s.request.value;
    PageExtendsBuffer(s, at);
    PageFields(s);
    var expanded := Merge(s.prefetch, Take(Where(s.table, StrictlyOlder(at.key)), MESSAGE_HISTORY_FETCH_SIZE));
    ShowFromBuffer(s, expanded, if s.showOnArrival then MESSAGES_PAGE_SIZE else 0, AfterPage(s));
  }

  lemma ShowOlderKeepsInv(s: Tail)
    requires Inv(s)
    ensures Inv(AfterShowOlder(s))
  {
    if s.prefetch != [] {
      ShowFromBuffer(s, s.prefetch, MESSAGES_PAGE_SIZE, AfterShowOlder(s));
      KeepsRequest(s, AfterShowOlder(s));
    } else if s.hasMore {
      RequestKeepsInv(s, true);
    }
  }

  lemma PageFailsKeepsInv(s: Tail)
    requires Inv(s)
    ensures Inv(s.(request := None, showOnArrival := false))
  {
    var s' := s.(request := None, showOnArrival := false);
    SameListsKeepShape(s, s');
    SameCoverage(s, s');
  }

  lemma StepIs(s: Tail, e: Event)
    ensures e.HeadInsert? ==> Step(s, e) == if IsWindow([e.row] + s.table) then s.(table := [e.row] + s.table) else s
    ensures e.LiveResult? ==> Step(s, e) == AfterLiveResult(s)
    ensures e.Rerun? ==> Step(s, e) == AfterRerun(s)
    ensures e.GapPage? ==> Step(s, e) == if s.gap.Some? then AfterGapPage(s) else s
    ensures e.GapAbandoned? ==> Step(s, e) == Abandon(s)
    ensures e.ShowOlder? ==> Step(s, e) == AfterShowOlder(s)
    ensures e.RequestOlder? ==> Step(s, e) == AfterRequest(s, e.show)
    ensures e.PageArrives? ==> Step(s, e) == if s.request.Some? then AfterPage(s) else s
    ensures e.PageFails? ==> Step(s, e) == s.(request := None, showOnArrival := false)
  {}

  lemma StepKeepsInv(s: Tail, e: Event)
    requires Inv(s)
    ensures Inv(Step(s, e))
  {
    StepIs(s, e);
    match e
    case HeadInsert(row) => if IsWindow([row] + s.table) { GrowthKeepsInv(s, [row]); }
    case LiveResult => LiveKeepsInv(s);
    case Rerun => RerunKeepsInv(s);
    case GapPage => if s.gap.Some? { GapPageKeepsInv(s); }
    case GapAbandoned => AbandonKeepsInv(s);
    case ShowOlder => ShowOlderKeepsInv(s);
    case RequestOlder(show) => RequestKeepsInv(s, show);
    case PageArrives => if s.request.Some? { PageKeepsInv(s); }
    case PageFails => PageFailsKeepsInv(s);
  }

  // ----- theorems over whole runs

  lemma {:induction false} RunKeepsInv(s: Tail, events: seq<Event>)
    requires Inv(s)
    ensures Inv(Run(s, events))
    decreases |events|
  {
    if events != [] {
      StepKeepsInv(s, events[0]);
      RunKeepsInv(Step(s, events[0]), events[1..]);
    }
  }

  lemma StartInv(s: Tail)
    requires IsStart(s)
    ensures Inv(s)
  {
    SuffixRows(s.seen, s.table);
    TakeRows(s.seen, MESSAGES_PAGE_SIZE);
    TakeClosed(s.seen, MESSAGES_PAGE_SIZE);
    assert RowSet([]) == {};
    assert s.Settled() == RowSet(s.tail) && s.Settled() + RowSet(s.prefetch) == RowSet(s.tail);
  }

  ghost predicate Reachable(s: Tail) {
    exists start, events :: IsStart(start) && s == Run(start, events)
  }

  lemma ReachableInv(s: Tail)
    requires Reachable(s)
    ensures Inv(s)
  {
    var start, events :| IsStart(start) && s == Run(start, events);
    StartInv(start);
    RunKeepsInv(start, events);
  }

  /** When the has-more flag is off, every row of the last live result is shown, buffered or being recovered. */
  lemma NoMoreMeansAllLoaded(s: Tail)
    requires Reachable(s) && !s.hasMore
    ensures RowSet(s.seen) <= s.Settled() + RowSet(s.prefetch)
  {
    ReachableInv(s);
  }

  // ----- the recovery inside the machine

  function GapPages(s: Tail, n: nat): Tail
    decreases n
  {
    if n == 0 || s.gap.None? then s else GapPages(AfterGapPage(s), n - 1)
  }

  /** Left alone, a recovery finishes, and adds exactly what RecoverGap computes. */
  lemma {:induction false} RecoveryFinishes(s: Tail) returns (n: nat)
    requires IsWindow(s.table) && s.gap.Some?
    ensures GapPages(s, n).gap.None?
    ensures GapPages(s, n).history ==
              AddToHistory(s.history, s.gap.value.recovered + Where(s.table, Between(s.gap.value.cursor, s.gap.value.bound)))
    decreases |Where(s.table, Between(s.gap.value.cursor, s.gap.value.bound))|
  {
    var g := s.gap.value;
    var all := Where(s.table, Between(g.cursor, g.bound));
    GapPageFields(s);
    if |all| <= MESSAGE_HISTORY_FETCH_SIZE {
      n := 1;
      assert GapPages(s, 1) == GapPages(AfterGapPage(s), 0);
    } else {
      NextGapPage(s.table, g.cursor, g.bound, MESSAGE_HISTORY_FETCH_SIZE);
      var page, rest := all[..MESSAGE_HISTORY_FETCH_SIZE], all[MESSAGE_HISTORY_FETCH_SIZE..];
      assert g.recovered + all == (g.recovered + page) + rest;
      var m := RecoveryFinishes(AfterGapPage(s));
      n := m + 1;
    }
  }
}
