/** The rerun machine of useLiveQuery, src/db/use-live-query.ts:105-160. */
module LiveQuery {
  import opened Wrappers

  /** A query: the tables its result depends on, and the name the hook found for it, that of its own
      table or view. A query over neither has no name. */
  datatype Source = Source(name: Option<string>, tables: set<string>)

  /** A committed change of a table; the event that announces it may not name the table. */
  datatype Change = Change(table: string, named: bool)

  /** Commits that change what the query can see are numbered: relevant counts them. A read started
      after n of them returns a state that has at least those n in it. */
  datatype Query = Query(
    active: bool, inFlight: bool, dirty: bool, scheduled: bool,
    timers: nat,                         // rerun timers set and not yet fired or cleared
    executing: nat,                      // reads the database is working on
    relevant: nat,                       // relevant commits so far
    undelivered: seq<Option<string>>,    // change events on their way, each with its table if known
    started: nat,                        // relevant commits before the last read started
    data: Option<nat>,                   // relevant commits in the rows shown
    error: bool,
    settled: nat)                        // what started was for the read that ended last

  datatype Event =
    | Commit(change: Change)
    | Deliver
    | Tick
    | Settle(seen: Option<nat>)          // None: the read failed
    | Unmount

  predicate Relevant(source: Source, change: Change) {
    change.table in source.tables
  }

  /** The table an event names. */
  function Named(change: Change): Option<string> {
    if change.named then Some(change.table) else None
  }

  /** The listener's test. */
  predicate Concerns(tableName: Option<string>, table: Option<string>) {
    tableName.None? || tableName.value == "" || table.None? || table.value == "" || table == tableName
  }

  // ----- the closures of the effect

  function Schedule(q: Query): Query {
    if !q.active || q.scheduled then q else q.(scheduled := true, timers := q.timers + 1)
  }

  function RunQuery(q: Query): Query {
    if !q.active then q
    else if q.inFlight then q.(dirty := true)
    else q.(inFlight := true, executing := q.executing + 1, started := q.relevant)
  }

  function Mounted(relevant: nat, undelivered: seq<Option<string>>): Query {
    RunQuery(Query(true, false, false, false, 0, 0, relevant, undelivered, 0, None, false, 0))
  }

  function Fire(q: Query): Query
    requires q.timers > 0
  {
    RunQuery(q.(scheduled := false, timers := q.timers - 1))
  }

  function Finish(q: Query, seen: Option<nat>): Query
    requires q.executing > 0
  {
    var shown := if !q.active then q
                 else if seen.Some? then q.(data := seen, error := false, settled := q.started)
                 else q.(error := true, settled := q.started);
    var idle := shown.(inFlight := false, executing := q.executing - 1);
    if !idle.active || !idle.dirty then idle else Schedule(idle.(dirty := false))
  }

  function Notify(q: Query, tableName: Option<string>, table: Option<string>): Query {
    if Concerns(tableName, table) then Schedule(q) else q
  }

  predicate Enabled(q: Query, event: Event) {
    match event
    case Commit(_) => true
    case Deliver => q.undelivered != []
    case Tick => q.timers > 0
    case Settle(seen) => q.executing > 0 && (seen.Some? ==> q.started <= seen.value <= q.relevant)
    case Unmount => q.active
  }

  function Step(q: Query, source: Source, event: Event): Query
    requires Enabled(q, event)
  {
    match event
    case Commit(change) =>
      q.(undelivered := q.undelivered + [Named(change)],
         relevant := if Relevant(source, change) then q.relevant + 1 else q.relevant)
    case Deliver =>
      var rest := q.(undelivered := q.undelivered[1..]);
      if q.active then Notify(rest, source.name, q.undelivered[0]) else rest
    case Tick => Fire(q)
    case Settle(seen) => Finish(q, seen)
    case Unmount => q.(active := false, timers := 0)
  }

  predicate Runs(q: Query, source: Source, events: seq<Event>)
    decreases |events|
  {
    events == [] || (Enabled(q, events[0]) && Runs(Step(q, source, events[0]), source, events[1..]))
  }

  function Run(q: Query, source: Source, events: seq<Event>): Query
    requires Runs(q, source, events)
    decreases |events|
  {
    if events == [] then q else Run(Step(q, source, events[0]), source, events[1..])
  }

  // ----- no change is lost

  predicate Awaited(tableName: Option<string>, undelivered: seq<Option<string>>) {
    exists i :: 0 <= i < |undelivered| && Concerns(tableName, undelivered[i])
  }

  /** A relevant commit the last read may have missed has a rerun coming: its event is on the way,
      the timer is set, or the read in flight is marked to be repeated. */
  predicate Inv(q: Query, source: Source) {
    && q.executing == (if q.inFlight then 1 else 0)
    && q.timers == (if q.active && q.scheduled then 1 else 0)
    && q.started <= q.relevant
    && (q.active ==>
        && (q.dirty ==> q.inFlight)
        && (q.started < q.relevant ==> q.scheduled || q.dirty || Awaited(source.name, q.undelivered))
        && (!q.inFlight ==>
            && q.settled == q.started
            && (q.error || (q.data.Some? && q.started <= q.data.value <= q.relevant))))
  }

  lemma AwaitedAfter(tableName: Option<string>, undelivered: seq<Option<string>>, table: Option<string>)
    ensures Awaited(tableName, undelivered + [table]) <==>
            Awaited(tableName, undelivered) || Concerns(tableName, table)
  {
    var all := undelivered + [table];
    if Concerns(tableName, table) { assert Concerns(tableName, all[|undelivered|]); }
    if Awaited(tableName, undelivered) {
      var i :| 0 <= i < |undelivered| && Concerns(tableName, undelivered[i]);
      assert Concerns(tableName, all[i]);
    }
  }

  lemma AwaitedHead(tableName: Option<string>, undelivered: seq<Option<string>>)
    requires undelivered != []
    ensures Awaited(tableName, undelivered) <==>
            Concerns(tableName, undelivered[0]) || Awaited(tableName, undelivered[1..])
  {
    if Awaited(tableName, undelivered[1..]) {
      var i :| 0 <= i < |undelivered[1..]| && Concerns(tableName, undelivered[1..][i]);
      assert Concerns(tableName, undelivered[i + 1]);
    }
    if Awaited(tableName, undelivered) && !Concerns(tableName, undelivered[0]) {
      var i :| 0 <= i < |undelivered| && Concerns(tableName, undelivered[i]);
      assert Concerns(tableName, undelivered[1..][i - 1]);
    }
  }

  /** The query has no name, or reads nothing but the table of that name. */
  predicate Covered(source: Source) {
    source.name in {None, Some("")} || forall table :: table in source.tables ==> table == "" || Some(table) == source.name
  }

  lemma StepKeepsInv(q: Query, source: Source, event: Event)
    requires Inv(q, source) && Enabled(q, event) && (event.Commit? && Relevant(source, event.change) ==>
               Concerns(source.name, Named(event.change)))
    ensures Inv(Step(q, source, event), source)
  {
    match event
    case Commit(change) => AwaitedAfter(source.name, q.undelivered, Named(change));
    case Deliver => AwaitedHead(source.name, q.undelivered);
    case _ =>
  }

  lemma CoveredConcerns(source: Source, change: Change)
    requires Covered(source) && Relevant(source, change)
    ensures Concerns(source.name, Named(change))
  {}

  lemma {:induction false} RunKeepsInv(q: Query, source: Source, events: seq<Event>)
    requires Covered(source) && Inv(q, source) && Runs(q, source, events)
    ensures Inv(Run(q, source, events), source)
    decreases |events|
  {
    if events != [] {
      if events[0].Commit? && Relevant(source, events[0].change) { CoveredConcerns(source, events[0].change); }
      StepKeepsInv(q, source, events[0]);
      RunKeepsInv(Step(q, source, events[0]), source, events[1..]);
    }
  }

  predicate Quiescent(q: Query) {
    q.undelivered == [] && !q.scheduled && !q.inFlight
  }

  /** Whatever happened before, at most one read is in flight and at most one timer set, a repeat is
      only ever asked of a read in flight, and no change is forgotten. */
  lemma NoChangeIsLost(relevant: nat, undelivered: seq<Option<string>>, source: Source, events: seq<Event>)
    requires Covered(source) && Runs(Mounted(relevant, undelivered), source, events)
    ensures var q := Run(Mounted(relevant, undelivered), source, events);
            q.executing <= 1 && q.timers <= 1 && (q.active && q.dirty ==> q.inFlight) &&
            (q.active && q.started < q.relevant ==>
              q.scheduled || q.dirty || Awaited(source.name, q.undelivered))
  {
    RunKeepsInv(Mounted(relevant, undelivered), source, events);
  }

  // ----- what the hook shows

  /** The rows and the error a mounted hook shows after these events, read off the outcomes of its reads
      alone: a successful read shows its rows and clears the error, a failed one shows the error over the
      rows there were, and after unmount nothing changes. */
  function ShownBy(rows: Option<nat>, failed: bool, events: seq<Event>): (Option<nat>, bool)
    decreases |events|
  {
    if events == [] || events[0].Unmount? then (rows, failed)
    else if !events[0].Settle? then ShownBy(rows, failed, events[1..])
    else if events[0].seen.Some? then ShownBy(events[0].seen, false, events[1..])
    else ShownBy(rows, true, events[1..])
  }

  /** In every run the hook shows the outcome of its last read, however reads, changes and timers interleave. */
  lemma {:induction false} ShowsTheLastRead(q: Query, source: Source, events: seq<Event>)
    requires q.active && Runs(q, source, events)
    ensures (Run(q, source, events).data, Run(q, source, events).error) == ShownBy(q.data, q.error, events)
    decreases |events|
  {
    if events != [] {
      if events[0].Unmount? {
        UnmountedStaysSilent(Step(q, source, events[0]), source, events[1..]);
      } else {
        ShowsTheLastRead(Step(q, source, events[0]), source, events[1..]);
      }
    }
  }

  /** When everything has come to rest the hook shows the database as it is: the last read started
      after the last relevant commit; the error shows exactly when that read failed, and otherwise its
      rows do, with every relevant commit in them. */
  lemma QuiescentIsCurrent(relevant: nat, undelivered: seq<Option<string>>, source: Source, events: seq<Event>)
    requires Covered(source) && Runs(Mounted(relevant, undelivered), source, events)
    ensures var q := Run(Mounted(relevant, undelivered), source, events);
            var (rows, failed) := ShownBy(None, false, events);
            q.active && Quiescent(q) ==>
              && q.settled == q.started == q.relevant && q.error == failed
              && (!failed ==> q.data == rows == Some(q.relevant))
  {
    RunKeepsInv(Mounted(relevant, undelivered), source, events);
    ShowsTheLastRead(Mounted(relevant, undelivered), source, events);
  }

  // ----- changes the listener does not notice

  predicate CurrentAtRest(q: Query) {
    q.active && Quiescent(q) && !q.error ==> q.data == Some(q.relevant)
  }

  ghost predicate AlwaysCurrent(source: Source) {
    forall relevant: nat, events :: Runs(Mounted(relevant, []), source, events) ==>
      CurrentAtRest(Run(Mounted(relevant, []), source, events))
  }

  /** A named change of a table that the query reads under another name, as of a joined table or of a
      table under a view: its event is ignored, and the hook rests on old rows. */
  lemma UnnoticedChange(source: Source, table: string)
    requires table in source.tables && table != "" && source.name.Some? && source.name.value != "" && source.name.value != table
    ensures var events := [Settle(Some(0)), Commit(Change(table, true)), Deliver];
            && Runs(Mounted(0, []), source, events)
            && !CurrentAtRest(Run(Mounted(0, []), source, events))
  {
    var q1 := Step(Mounted(0, []), source, Settle(Some(0)));
    assert q1.data == Some(0) && !q1.error && q1.undelivered == [] && q1.relevant == 0;
    var q2 := Step(q1, source, Commit(Change(table, true)));
    assert q2.undelivered == [Some(table)] && q2.relevant == 1;
    var q3 := Step(q2, source, Deliver);
    assert !Concerns(source.name, Some(table));
    assert q3 == q2.(undelivered := []) && !CurrentAtRest(q3);
    ThreeSteps(Mounted(0, []), q1, q2, source, Settle(Some(0)), Commit(Change(table, true)), Deliver);
  }

  lemma ThreeSteps(q: Query, q1: Query, q2: Query, source: Source, a: Event, b: Event, c: Event)
    requires Enabled(q, a) && q1 == Step(q, source, a) && Enabled(q1, b) && q2 == Step(q1, source, b) && Enabled(q2, c)
    ensures Runs(q, source, [a, b, c]) && Run(q, source, [a, b, c]) == Step(q2, source, c)
  {
    var events := [a, b, c];
    assert events[2..] == [c] && events[2..][1..] == [];
    assert events[1..][1..] == events[2..];
    assert Runs(q2, source, events[2..]) && Run(q2, source, events[2..]) == Step(q2, source, c);
    assert Runs(q1, source, events[1..]) && Run(q1, source, events[1..]) == Step(q2, source, c);
  }

  lemma CoveredIsCurrent(source: Source)
    requires Covered(source)
    ensures AlwaysCurrent(source)
  {
    forall relevant: nat, events | Runs(Mounted(relevant, []), source, events)
      ensures CurrentAtRest(Run(Mounted(relevant, []), source, events))
    {
      QuiescentIsCurrent(relevant, [], source, events);
    }
  }

  lemma UnnoticedRun(source: Source) returns (events: seq<Event>)
    requires !Covered(source)
    ensures Runs(Mounted(0, []), source, events) && !CurrentAtRest(Run(Mounted(0, []), source, events))
  {
    var table :| table in source.tables && table != "" && Some(table) != source.name;
    UnnoticedChange(source, table);
    events := [Settle(Some(0)), Commit(Change(table, true)), Deliver];
  }

  /** Exactly the queries without a name, and those over the one table of their name, are always
      current at rest. */
  lemma AlwaysCurrentExactlyWhenCovered(source: Source)
    ensures AlwaysCurrent(source) <==> Covered(source)
  {
    if Covered(source) {
      CoveredIsCurrent(source);
    } else {
      var events := UnnoticedRun(source);
    }
  }

  // ----- it does come to rest

  function Debt(q: Query): nat {
    4 * |q.undelivered| + (if q.scheduled then 3 else 0) + (if q.dirty then 2 else 0) + (if q.inFlight then 2 else 0)
  }

  /** Every step that is not a new commit pays off debt, so an active query stops running within
      Debt steps of the last commit. */
  lemma DebtShrinks(q: Query, source: Source, event: Event)
    requires Inv(q, source) && q.active && Enabled(q, event) && !event.Commit? && !event.Unmount?
    ensures Debt(Step(q, source, event)) < Debt(q) && Step(q, source, event).active
  {}

  lemma NotQuiescentCanStep(q: Query, source: Source)
    requires Inv(q, source) && q.active
    ensures Quiescent(q) <==> !Enabled(q, Deliver) && !Enabled(q, Tick) && !Enabled(q, Settle(None))
  {}

  lemma {:induction false} ComesToRest(q: Query, source: Source, events: seq<Event>)
    requires Inv(q, source) && q.active && Runs(q, source, events)
    requires forall e :: e in events ==> !e.Commit? && !e.Unmount?
    ensures |events| <= Debt(q) - Debt(Run(q, source, events))
    decreases |events|
  {
    if events != [] {
      DebtShrinks(q, source, events[0]);
      StepKeepsInv(q, source, events[0]);
      ComesToRest(Step(q, source, events[0]), source, events[1..]);
    }
  }

  /** After the component is gone nothing is read, no timer is set, and nothing shown changes. */
  lemma {:induction false} UnmountedStaysSilent(q: Query, source: Source, events: seq<Event>)
    requires !q.active && q.timers == 0 && Runs(q, source, events)
    ensures var last := Run(q, source, events);
            !last.active && last.timers == 0 && last.executing <= q.executing && last.data == q.data && last.error == q.error
    decreases |events|
  {
    if events != [] { UnmountedStaysSilent(Step(q, source, events[0]), source, events[1..]); }
  }

  /** The effect's variables, updated in place. */
  class Effect {
    const tableName: Option<string>
    /** The tables the query depends on, which the effect does not know. */
    ghost const tables: set<string>
    var active: bool
    var inFlight: bool
    var dirty: bool
    var scheduled: bool
    var timers: nat
    var executing: nat
    var started: nat
    var data: Option<nat>
    var error: bool
    var settled: nat

    ghost function Origin(): Source {
      Source(tableName, tables)
    }

    function At(relevant: nat, undelivered: seq<Option<string>>): Query
      reads this
    {
      Query(active, inFlight, dirty, scheduled, timers, executing, relevant, undelivered, started, data, error, settled)
    }

    constructor (tableName: Option<string>, ghost tables: set<string>, relevant: nat)
      ensures this.tableName == tableName && this.tables == tables
      ensures forall u :: At(relevant, u) == Mounted(relevant, u)
    {
      this.tableName, this.tables := tableName, tables;
      active, dirty, scheduled, timers := true, false, false, 0;
      data, error, settled := None, false, 0;
      inFlight, executing, started := true, 1, relevant;
    }

    method ScheduleRerun(relevant: nat, undelivered: seq<Option<string>>)
      modifies this
      ensures At(relevant, undelivered) == Schedule(old(At(relevant, undelivered)))
    {
      if !active || scheduled { return; }
      scheduled, timers := true, timers + 1;
    }

    method RunRead(relevant: nat, undelivered: seq<Option<string>>)
      modifies this
      ensures At(relevant, undelivered) == RunQuery(old(At(relevant, undelivered)))
    {
      if !active { return; }
      if inFlight {
        dirty := true;
        return;
      }
      inFlight := true;
      executing, started := executing + 1, relevant;
    }

    method OnTimer(relevant: nat, undelivered: seq<Option<string>>)
      requires Enabled(At(relevant, undelivered), Tick)
      modifies this
      ensures At(relevant, undelivered) == Step(old(At(relevant, undelivered)), Origin(), Tick)
      ensures old(Inv(At(relevant, undelivered), Origin())) ==> Inv(At(relevant, undelivered), Origin())
    {
      if Inv(At(relevant, undelivered), Origin()) { StepKeepsInv(At(relevant, undelivered), Origin(), Tick); }
      scheduled, timers := false, timers - 1;
      RunRead(relevant, undelivered);
    }

    method OnChange(relevant: nat, undelivered: seq<Option<string>>)
      requires active && undelivered != []
      modifies this
      ensures At(relevant, undelivered[1..]) == Step(old(At(relevant, undelivered)), Origin(), Deliver)
      ensures old(Inv(At(relevant, undelivered), Origin())) ==> Inv(At(relevant, undelivered[1..]), Origin())
    {
      if Inv(At(relevant, undelivered), Origin()) { StepKeepsInv(At(relevant, undelivered), Origin(), Deliver); }
      if Concerns(tableName, undelivered[0]) { ScheduleRerun(relevant, undelivered[1..]); }
    }

    method OnSettled(seen: Option<nat>, relevant: nat, undelivered: seq<Option<string>>)
      requires Enabled(At(relevant, undelivered), Settle(seen))
      modifies this
      ensures At(relevant, undelivered) == Step(old(At(relevant, undelivered)), Origin(), Settle(seen))
      ensures old(Inv(At(relevant, undelivered), Origin())) ==> Inv(At(relevant, undelivered), Origin())
    {
      if Inv(At(relevant, undelivered), Origin()) { StepKeepsInv(At(relevant, undelivered), Origin(), Settle(seen)); }
      if active {
        if seen.Some? { data, error := seen, false; } else { error := true; }
        settled := started;
      }
      inFlight, executing := false, executing - 1;
      if !active || !dirty { return; }
      dirty := false;
      ScheduleRerun(relevant, undelivered);
    }

    method CleanUp(relevant: nat, undelivered: seq<Option<string>>)
      requires active
      modifies this
      ensures At(relevant, undelivered) == Step(old(At(relevant, undelivered)), Origin(), Unmount)
      ensures old(Inv(At(relevant, undelivered), Origin())) ==> Inv(At(relevant, undelivered), Origin())
    {
      if Inv(At(relevant, undelivered), Origin()) { StepKeepsInv(At(relevant, undelivered), Origin(), Unmount); }
      active, timers := false, 0;
    }
  }
}
