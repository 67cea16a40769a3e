/** The tail's refs and state, updated in place; each method is a step of the machine in TailRecovery. */
module TailHistoryClass {
  import opened MessageOrder
  import opened MessageWindow
  import opened MessageTable
  import opened TailRecovery
  import opened TailScrolling
  import opened Wrappers

  class TailHistory {
    ghost var seen: seq<Row>
    var tailRows: seq<Row>
    var tailHistory: seq<Row>
    var tailOlderPrefetch: seq<Row>
    var tailHasMore: bool
    var gap: Option<Gap>
    var request: Option<Key>
    var revealAfterPrefetch: bool
    ghost var lost: set<Row>

    ghost function State(table: seq<Row>): Tail
      reads this
    {
      Tail(table, seen, tailRows, tailHistory, tailOlderPrefetch, tailHasMore, gap, request, revealAfterPrefetch, lost)
    }

    constructor (warm: seq<Row>)
      ensures forall table :: State(table) ==
                Tail(table, warm, Take(warm, MESSAGES_PAGE_SIZE), [], [], true, None, None, false, {})
    {
      seen, lost := warm, {};
      tailRows, tailHistory, tailOlderPrefetch := Take(warm, MESSAGES_PAGE_SIZE), [], [];
      tailHasMore, gap, request, revealAfterPrefetch := true, None, None, false;
    }

    method Expose(rows: seq<Row>)
      modifies this`tailHistory
      ensures tailHistory == AddToHistory(old(tailHistory), rows)
    {
      if |rows| > 0 { tailHistory := MergeNewestFirstRows(tailHistory, rows); }
    }

    /** The generation counter moves on: a recovery in progress will not deliver. */
    method AbandonGap(table: seq<Row>)
      modifies this`gap, this`lost
      ensures State(table) == Abandon(old(State(table)))
    {
      lost := lost + State(table).Pending();
      gap := None;
    }

    method StartGap(table: seq<Row>, authoritative: seq<Row>, previousNewest: Row)
      requires authoritative != []
      modifies this`gap, this`lost
      ensures State(table) ==
                Abandon(old(State(table))).(gap := Some(Gap(Last(authoritative).key, previousNewest.key, [])))
    {
      AbandonGap(table);
      gap := Some(Gap(Last(authoritative).key, previousNewest.key, []));
    }

    method CommitPage(table: seq<Row>, tail: seq<Row>, toExpose: seq<Row>, overflow: seq<Row>, more: bool)
      modifies this`seen, this`tailRows, this`tailHistory, this`tailOlderPrefetch, this`tailHasMore
      ensures State(table) ==
                old(State(table)).(seen := table, tail := tail, history := AddToHistory(old(tailHistory), toExpose),
                  prefetch := if overflow == [] then old(tailOlderPrefetch) else Merge(overflow, old(tailOlderPrefetch)),
                  hasMore := more)
    {
      seen, tailRows := table, tail;
      Expose(toExpose);
      if |overflow| > 0 { tailOlderPrefetch := MergeNewestFirstRows(overflow, tailOlderPrefetch); }
      tailHasMore := more;
    }

    /** The effect that follows a live result. */
    method OnLiveResult(table: seq<Row>)
      modifies this
      ensures State(table) == AfterLiveResult(old(State(table)))
      ensures old(Inv(State(table))) ==> Inv(State(table))
    {
      if Inv(State(table)) { LiveKeepsInv(State(table)); }
      var data := Take(table, MESSAGE_HISTORY_FETCH_SIZE + 1);
      var authoritative := Take(data, MESSAGE_HISTORY_FETCH_SIZE);
      assert authoritative == Authoritative(table);
      var previous, tail := tailRows, Take(data, MESSAGES_PAGE_SIZE);
      var exposed := MergeNewestFirstRows(tail, tailHistory);
      var toExpose := CollectRowsToExpose(previous, tail, authoritative, exposed);
      var overflow := Unlisted(Drop(authoritative, MESSAGES_PAGE_SIZE), Ids(exposed) + Ids(toExpose));
      if StartsGap(previous, authoritative) { StartGap(table, authoritative, previous[0]); }
      CommitPage(table, tail, toExpose, overflow, |data| > MESSAGE_HISTORY_FETCH_SIZE);
    }

    /** The effect again, on the result it has already seen. */
    method OnRerun(data: seq<Row>, table: seq<Row>)
      requires data == seen
      modifies this
      ensures State(table) == AfterRerun(old(State(table)))
      ensures old(Inv(State(table))) ==> Inv(State(table))
    {
      if Inv(State(table)) { RerunKeepsInv(State(table)); }
      OnLiveResult(data);
    }

    /** One trip of the recovery loop. */
    method OnGapPage(table: seq<Row>)
      requires gap.Some?
      modifies this
      ensures State(table) == AfterGapPage(old(State(table)))
      ensures old(Inv(State(table))) ==> Inv(State(table))
    {
      if Inv(State(table)) { GapPageKeepsInv(State(table)); }
      var g := gap.value;
      var pageResult := GapQuery(table, g.cursor, g.bound);
      var page := Take(pageResult, MESSAGE_HISTORY_FETCH_SIZE);
      var recovered := g.recovered + page;
      if |pageResult| <= MESSAGE_HISTORY_FETCH_SIZE {
        gap := None;
        Expose(recovered);
      } else {
        gap := Some(Gap(page[|page| - 1].key, g.bound, recovered));
      }
    }

    method PrefetchTailHistory(revealOnArrival: bool, table: seq<Row>)
      modifies this
      ensures State(table) == AfterRequest(old(State(table)), revealOnArrival)
      ensures old(tailHasMore && CursorRows(State(table)) != []) ==>
                request.Some? && revealAfterPrefetch == (old(revealAfterPrefetch) || revealOnArrival)
      ensures old(Inv(State(table))) ==> Inv(State(table))
    {
      if Inv(State(table)) { RequestKeepsInv(State(table), revealOnArrival); }
      if revealOnArrival { revealAfterPrefetch := true; }
      if request.Some? || !tailHasMore { return; }
      var cursorRows := tailOlderPrefetch;
      if |cursorRows| == 0 { cursorRows := MergeNewestFirstRows(tailRows, tailHistory); }
      if |cursorRows| == 0 {
        revealAfterPrefetch := false;
        return;
      }
      request := Some(Last(cursorRows).key);
    }

    method PageArrived(table: seq<Row>)
      requires request.Some?
      modifies this
      ensures State(table) == AfterPage(old(State(table)))
      ensures old(Inv(State(table))) ==> Inv(State(table))
    {
      if Inv(State(table)) { PageKeepsInv(State(table)); }
      var rows := Take(Where(table, StrictlyOlder(request.value)), MESSAGE_HISTORY_FETCH_SIZE + 1);
      var expanded := MergeNewestFirstRows(tailOlderPrefetch, Take(rows, MESSAGE_HISTORY_FETCH_SIZE));
      if revealAfterPrefetch {
        tailOlderPrefetch := Drop(expanded, MESSAGES_PAGE_SIZE);
        Expose(Take(expanded, MESSAGES_PAGE_SIZE));
      } else {
        tailOlderPrefetch := expanded;
      }
      tailHasMore := |rows| > MESSAGE_HISTORY_FETCH_SIZE;
      request, revealAfterPrefetch := None, false;
    }

    method PageFailed(table: seq<Row>)
      modifies this
      ensures State(table) == Step(old(State(table)), PageFails)
      ensures old(Inv(State(table))) ==> Inv(State(table))
    {
      if Inv(State(table)) { PageFailsKeepsInv(State(table)); }
      request, revealAfterPrefetch := None, false;
    }

    method LoadOlder(table: seq<Row>)
      modifies this
      ensures State(table) == AfterShowOlder(old(State(table)))
      ensures old(tailOlderPrefetch == [] && tailHasMore && State(table).Exposed() != []) ==> Waiting(State(table))
      ensures old(Inv(State(table))) ==> Inv(State(table))
    {
      if Inv(State(table)) { ShowOlderKeepsInv(State(table)); }
      if |tailOlderPrefetch| > 0 {
        tailHistory := MergeNewestFirstRows(tailHistory, Take(tailOlderPrefetch, MESSAGES_PAGE_SIZE));
        tailOlderPrefetch := Drop(tailOlderPrefetch, MESSAGES_PAGE_SIZE);
        return;
      }
      if !tailHasMore { return; }
      PrefetchTailHistory(true, table);
    }
  }
}
