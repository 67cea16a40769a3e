/** What becomes of a statement that ran in a transaction, and of an owner that is gone. */
module BrokerFate {
  import opened DatabaseWorker
  import opened DatabaseBroker
  import opened BrokerProofs
  import opened BrokerTheorems
  import opened BrokerOrder
  import opened Wrappers

  // ----- a statement

  /** Of the savepoints that were open when a statement ran, the root among them, `left` are still
      open; or all were released; or one of them was rolled back. */
  datatype Fate = Open(left: nat) | Kept | Lost

  predicate Closes(b: Broker, e: Event) {
    (e.Finish? || e.Undo?) && Valid(b, e.owner, e.id)
  }

  function FateStep(s: System, e: Event, fate: Fate): Fate {
    if !fate.Open? then fate
    else if e.CleanupOwner? && s.broker.running && IsOuter(s.broker, e.owner, HeadId(s.broker)) then Lost
    else if !Closes(s.broker, e) || |s.trace.frames| != fate.left then fate
    else if e.Undo? then Lost
    else if fate.left <= 1 then Kept
    else Open(fate.left - 1)
  }

  function FateOf(s: System, events: seq<Event>, fate: Fate): Fate
    decreases |events|
  {
    if events == [] then fate else FateOf(Step(s, events[0]), events[1..], FateStep(s, events[0], fate))
  }

  /** The event runs the statement, or asks for it. */
  predicate Runs(e: Event, statement: Statement) {
    match e
    case CallExecute(_, ran) => ran == statement
    case ExecuteIn(_, _, ran, _) => ran == statement
    case BatchIn(_, _, rows, _) => statement in BatchStatements(rows)
    case _ => false
  }

  predicate Queued(b: Broker, statement: Statement) {
    exists i :: 0 <= i < |b.queue| && b.queue[i].call.Auto? && b.queue[i].call.statement == statement
  }

  ghost predicate PlacedAt(t: Trace, statement: Statement, fate: Fate, i: nat)
    requires i < |t.frames|
  {
    statement in Effects(t.frames[i].items) <==> fate == Open(i + 1)
  }

  /** Where the statement is. */
  ghost predicate Placed(t: Trace, statement: Statement, fate: Fate) {
    && (statement in Replay(t.history) <==> fate.Kept?)
    && (fate.Open? ==> 1 <= fate.left <= |t.frames|)
    && (forall i :: 0 <= i < |t.frames| ==> PlacedAt(t, statement, fate, i))
  }

  ghost predicate InFrame(frames: seq<Frame>, statement: Statement, i: nat)
    requires i < |frames|
  {
    statement in Effects(frames[i].items)
  }

  lemma LastFrame(frames: seq<Frame>, statement: Statement)
    requires frames != []
    ensures statement in FramesEffects(frames) <==>
              statement in FramesEffects(frames[..|frames| - 1]) || InFrame(frames, statement, |frames| - 1)
  {}

  lemma {:induction false} FrameIsIn(frames: seq<Frame>, statement: Statement, i: nat)
    requires i < |frames| && InFrame(frames, statement, i)
    ensures statement in FramesEffects(frames)
  {
    LastFrame(frames, statement);
    if i < |frames| - 1 { FrameIsIn(frames[..|frames| - 1], statement, i); }
  }

  lemma {:induction false} FrameThatHolds(frames: seq<Frame>, statement: Statement) returns (i: nat)
    requires statement in FramesEffects(frames)
    ensures i < |frames| && InFrame(frames, statement, i)
  {
    LastFrame(frames, statement);
    if InFrame(frames, statement, |frames| - 1) {
      i := |frames| - 1;
    } else {
      i := FrameThatHolds(frames[..|frames| - 1], statement);
    }
  }

  lemma InFrames(frames: seq<Frame>, statement: Statement)
    ensures statement in FramesEffects(frames) <==> exists i :: 0 <= i < |frames| && InFrame(frames, statement, i)
  {
    if statement in FramesEffects(frames) {
      var i := FrameThatHolds(frames, statement);
    } else {
      forall i | 0 <= i < |frames| ensures !InFrame(frames, statement, i) {
        if InFrame(frames, statement, i) { FrameIsIn(frames, statement, i); }
      }
    }
  }

  lemma AddedItems(t: Trace, t': Trace, items: seq<Item>, added: seq<Statement>, statement: Statement, fate: Fate)
    requires t.frames != [] && t'.frames == AddItems(t.frames, items) && t'.history == t.history
    requires var last := t.frames[|t.frames| - 1]; Effects(last.items + items) == Effects(last.items) + added
    requires statement !in added && Placed(t, statement, fate)
    ensures Placed(t', statement, fate)
  {
    AddedIds(t.frames, items);
    forall i | 0 <= i < |t'.frames| ensures PlacedAt(t', statement, fate, i) { assert PlacedAt(t, statement, fate, i); }
  }

  /** The fate once the innermost savepoint, of n, has closed. */
  function ClosedFate(fate: Fate, n: nat, commit: bool): Fate {
    if fate != Open(n) then fate else if !commit then Lost else if n <= 1 then Kept else Open(n - 1)
  }

  lemma ClosedItems(t: Trace, t': Trace, commit: bool, statement: Statement, fate: Fate)
    requires |t.frames| >= 2 && t'.history == t.history && Placed(t, statement, fate)
    requires t'.frames == AddItems(t.frames[..|t.frames| - 1], [Wrapped(t.frames[|t.frames| - 1].items, commit)])
    ensures Placed(t', statement, ClosedFate(fate, |t.frames|, commit))
  {
    var n := |t.frames|;
    var rest, item := t.frames[..n - 1], Wrapped(t.frames[n - 1].items, commit);
    AddedIds(rest, [item]);
    forall i | 0 <= i < n - 1 ensures PlacedAt(t', statement, ClosedFate(fate, n, commit), i) {
      assert PlacedAt(t, statement, fate, i) && PlacedAt(t, statement, fate, n - 1);
      if i == n - 2 { EffectsSnoc(rest[n - 2].items, item); }
    }
  }

  lemma ReplayAdds(history: seq<Unit>, u: Unit, statement: Statement)
    ensures statement in Replay(history + [u]) <==> statement in Replay(history) || statement in UnitEffects(u)
  {
    ReplaySnoc(history, u);
  }

  lemma RootKept(t: Trace, u: Unit, statement: Statement, fate: Fate)
    requires Placed(t, statement, fate) && |t.frames| == 1 && u.RootUnit? && u.committed && u.items == t.frames[0].items
    ensures Placed(Trace(t.history + [u], [], map[]), statement, if fate.Open? then Kept else fate)
  {
    ReplayAdds(t.history, u, statement);
    assert PlacedAt(t, statement, fate, 0);
  }

  lemma RootLost(t: Trace, u: Unit, statement: Statement, fate: Fate)
    requires Placed(t, statement, fate) && u.RootUnit? && !u.committed
    ensures Placed(Trace(t.history + [u], [], map[]), statement, if fate.Open? then Lost else fate)
  {
    ReplayAdds(t.history, u, statement);
  }

  lemma NestedMoves(s: System, e: Event, statement: Statement, fate: Fate)
    requires Inv(s) && Disciplined(s, e) && Closes(s.broker, e) && Placed(s.trace, statement, fate) && |s.trace.frames| >= 2
    ensures Placed(Step(s, e).trace, statement, ClosedFate(fate, |s.trace.frames|, e.Finish?))
  {
    NestedTrace(s, e);
    ClosedItems(s.trace, Step(s, e).trace, e.Finish?, statement, fate);
  }

  lemma RootMoves(s: System, e: Event, statement: Statement, fate: Fate)
    requires Inv(s) && Disciplined(s, e) && Closes(s.broker, e) && Placed(s.trace, statement, fate) && |s.trace.frames| < 2
    ensures |s.trace.frames| == 1 && Placed(Step(s, e).trace, statement, ClosedFate(fate, 1, e.Finish?))
  {
    var u := RootTrace(s, e);
    if e.Finish? { RootKept(s.trace, u, statement, fate); } else { RootLost(s.trace, u, statement, fate); }
  }

  lemma CloseMoves(s: System, e: Event, statement: Statement, fate: Fate)
    requires Inv(s) && Disciplined(s, e) && Closes(s.broker, e) && Placed(s.trace, statement, fate)
    ensures Placed(Step(s, e).trace, statement, FateStep(s, e, fate))
  {
    if |s.trace.frames| >= 2 { NestedMoves(s, e, statement, fate); } else { RootMoves(s, e, statement, fate); }
    CloseFate(s, e, fate);
  }

  lemma CloseFate(s: System, e: Event, fate: Fate)
    requires Closes(s.broker, e) && s.trace.frames != [] && (fate.Open? ==> 1 <= fate.left <= |s.trace.frames|)
    ensures FateStep(s, e, fate) == ClosedFate(fate, |s.trace.frames|, e.Finish?)
  {}

  lemma NestedTrace(s: System, e: Event)
    requires Inv(s) && Disciplined(s, e) && Closes(s.broker, e) && |s.trace.frames| >= 2
    ensures var t, t' := s.trace, Step(s, e).trace;
            && t'.history == t.history
            && t'.frames == AddItems(t.frames[..|t.frames| - 1], [Wrapped(t.frames[|t.frames| - 1].items, e.Finish?)])
  {
    var parent := InnermostParent(s, e.owner, e.id);
    NestedCloses(s.trace, s.broker.queue[0].number, e.owner, e.id, parent, e.Finish?);
  }

  lemma RootTrace(s: System, e: Event) returns (u: Unit)
    requires Inv(s) && Disciplined(s, e) && Closes(s.broker, e) && |s.trace.frames| < 2
    ensures |s.trace.frames| == 1 && u.RootUnit? && u.items == s.trace.frames[0].items && u.committed == e.Finish?
    ensures Step(s, e).trace == Trace(s.trace.history + [u], [], map[])
  {
    Opened(s, e.owner, e.id);
    OnlyRoot(s, e.owner, e.id);
    u := RootCloses(s, e.owner, e.id, e.Finish?);
  }

  lemma BatchRuns(rows: seq<nat>, n: nat, statement: Statement)
    requires n <= |rows| && statement !in BatchStatements(rows)
    ensures statement !in BatchStatements(rows[..n])
  {
    forall i | 0 <= i < n ensures BatchStatements(rows[..n])[i] != statement {
      assert BatchStatements(rows)[i] == Statement(rows[i], true);
    }
  }

  lemma ExecuteMoves(s: System, e: Event, statement: Statement, fate: Fate)
    requires Inv(s) && Placed(s.trace, statement, fate) && !Runs(e, statement) && e.ExecuteIn?
    ensures Placed(Step(s, e).trace, statement, fate)
  {
    if e.ok && Valid(s.broker, e.owner, e.id) {
      Opened(s, e.owner, e.id);
      EffectsSnoc(s.trace.frames[|s.trace.frames| - 1].items, Ran(e.statement, true));
      RunTrace(s, e.owner, e.id, e.statement);
      AddedItems(s.trace, Step(s, e).trace, [Ran(e.statement, true)], [e.statement], statement, fate);
    }
  }

  lemma BatchMoves(s: System, e: Event, statement: Statement, fate: Fate)
    requires Inv(s) && Placed(s.trace, statement, fate) && !Runs(e, statement) && e.BatchIn?
    ensures Placed(Step(s, e).trace, statement, fate)
  {
    if Valid(s.broker, e.owner, e.id) {
      Opened(s, e.owner, e.id);
      BatchTrace(s, e);
      AddedBatch(s.trace, Step(s, e).trace, e.rows, e.applied, statement, fate);
    }
  }

  lemma BatchTrace(s: System, e: Event)
    requires e.BatchIn? && Valid(s.broker, e.owner, e.id) && s.trace.frames != [] && s.broker.queue != []
    ensures var t' := Step(s, e).trace;
            t'.history == s.trace.history && t'.frames == AddItems(s.trace.frames, BatchItems(e.rows, e.applied))
  {}

  lemma AddedBatch(t: Trace, t': Trace, rows: seq<nat>, applied: nat, statement: Statement, fate: Fate)
    requires Placed(t, statement, fate) && t.frames != [] && statement !in BatchStatements(rows)
    requires t'.history == t.history && t'.frames == AddItems(t.frames, BatchItems(rows, applied))
    ensures Placed(t', statement, fate)
  {
    var items := BatchItems(rows, applied);
    BatchRun(t.frames[|t.frames| - 1].items, rows, applied);
    BatchRuns(rows, |items|, statement);
    AddedItems(t, t', items, BatchStatements(rows[..|items|]), statement, fate);
  }

  lemma PushedFrame(t: Trace, t': Trace, id: nat, statement: Statement, fate: Fate)
    requires Placed(t, statement, fate) && t'.history == t.history && t'.frames == t.frames + [Frame(id, [])]
    ensures Placed(t', statement, fate)
  {
    forall i | 0 <= i < |t'.frames| ensures PlacedAt(t', statement, fate, i) {
      if i < |t.frames| { assert PlacedAt(t, statement, fate, i); }
    }
  }

  lemma BeginMoves(s: System, e: Event, statement: Statement, fate: Fate)
    requires Inv(s) && Placed(s.trace, statement, fate) && e.BeginIn?
    ensures Placed(Step(s, e).trace, statement, fate)
  {
    if e.ok && Valid(s.broker, e.owner, e.parent) {
      Opened(s, e.owner, e.parent);
      PushedFrame(s.trace, Step(s, e).trace, e.id, statement, fate);
    }
  }

  lemma GrantMoves(s: System, e: Event, statement: Statement, fate: Fate)
    requires Inv(s) && Placed(s.trace, statement, fate) && !Queued(s.broker, statement)
    requires e.GrantAuto? || e.GrantBegin?
    ensures Placed(Step(s, e).trace, statement, fate)
  {
    var b, t := s.broker, s.trace;
    if e.GrantAuto? && e.ok && b.queue != [] && !b.running && b.queue[0].call.Auto? {
      ReplayAdds(t.history, AutoUnit(b.queue[0].number, b.queue[0].call.owner, b.queue[0].call.statement), statement);
    }
  }

  lemma CleanupFate(s: System, owner: nat, fate: Fate)
    requires Inv(s)
    ensures FateStep(s, CleanupOwner(owner), fate) ==
              if fate.Open? && s.broker.running && s.broker.queue[0].call.owner == owner then Lost else fate
  {
    OneOwner(s);
  }

  lemma CleanupMoves(s: System, owner: nat, statement: Statement, fate: Fate)
    requires Inv(s) && Placed(s.trace, statement, fate)
    ensures Placed(Step(s, CleanupOwner(owner)).trace, statement, FateStep(s, CleanupOwner(owner), fate))
  {
    CleanupFate(s, owner, fate);
    CleanupTrace(s, owner);
    if s.broker.running && s.broker.queue[0].call.owner == owner {
      RootLost(s.trace, RootUnit(s.broker.queue[0].number, owner, s.trace.frames[0].items, [], false), statement, fate);
    }
  }

  lemma OtherFate(s: System, e: Event, fate: Fate)
    requires !e.CleanupOwner? && !Closes(s.broker, e)
    ensures FateStep(s, e, fate) == fate
  {}

  lemma QuietStep(s: System, e: Event)
    requires e.CallExecute? || e.CallBegin? || ((e.Finish? || e.Undo?) && !Closes(s.broker, e))
    ensures Step(s, e).trace == s.trace
  {}

  lemma OpenMoves(s: System, e: Event, statement: Statement, fate: Fate)
    requires Inv(s) && Disciplined(s, e) && Placed(s.trace, statement, fate)
    requires !Runs(e, statement) && !Queued(s.broker, statement) && !e.CleanupOwner? && !Closes(s.broker, e)
    ensures Placed(Step(s, e).trace, statement, fate)
  {
    match e
    case GrantAuto(_) => GrantMoves(s, e, statement, fate);
    case GrantBegin(_) => GrantMoves(s, e, statement, fate);
    case ExecuteIn(_, _, _, _) => ExecuteMoves(s, e, statement, fate);
    case BatchIn(_, _, _, _) => BatchMoves(s, e, statement, fate);
    case BeginIn(_, _, _, _) => BeginMoves(s, e, statement, fate);
    case _ => QuietStep(s, e);
  }

  lemma StepMoves(s: System, e: Event, statement: Statement, fate: Fate)
    requires Inv(s) && Disciplined(s, e) && Placed(s.trace, statement, fate)
    requires !Runs(e, statement) && !Queued(s.broker, statement)
    ensures Placed(Step(s, e).trace, statement, FateStep(s, e, fate))
  {
    if e.CleanupOwner? {
      CleanupMoves(s, e.owner, statement, fate);
    } else if Closes(s.broker, e) {
      CloseMoves(s, e, statement, fate);
    } else {
      OtherFate(s, e, fate);
      OpenMoves(s, e, statement, fate);
    }
  }

  /** No event but a call puts a ticket into the queue. */
  lemma QueueGrowsByCalls(b: Broker, e: Event)
    ensures var q := BrokerStep(b, e).queue;
            || q == b.queue || (b.queue != [] && q == b.queue[1..])
            || (e.CallExecute? && q == b.queue + [Ticket(b.next, Auto(e.owner, e.statement))])
            || (e.CallBegin? && q == b.queue + [Ticket(b.next, Root(e.owner, e.id))])
  {}

  lemma StaysUnqueued(b: Broker, e: Event, statement: Statement)
    requires !Queued(b, statement) && !Runs(e, statement)
    ensures !Queued(BrokerStep(b, e), statement)
  {
    QueueGrowsByCalls(b, e);
  }

  lemma {:induction false} RunMoves(s: System, events: seq<Event>, statement: Statement, fate: Fate)
    requires Inv(s) && AllDisciplined(s, events) && Placed(s.trace, statement, fate) && !Queued(s.broker, statement)
    requires forall e :: e in events ==> !Runs(e, statement)
    ensures Inv(Run(s, events)) && Placed(Run(s, events).trace, statement, FateOf(s, events, fate))
    decreases |events|
  {
    if events != [] {
      StepKeepsInv(s, events[0]);
      StepMoves(s, events[0], statement, fate);
      StaysUnqueued(s.broker, events[0], statement);
      RunMoves(Step(s, events[0]), events[1..], statement, FateStep(s, events[0], fate));
    }
  }

  /** What a statement of the open transaction would read. */
  function Contents(w: Worker): seq<Statement> {
    if w.view.Some? then w.view.value else w.durable
  }

  lemma PlacedContents(s: System, statement: Statement, fate: Fate)
    requires Inv(s) && Placed(s.trace, statement, fate)
    ensures statement in s.broker.worker.durable <==> fate.Kept?
    ensures statement in Contents(s.broker.worker) <==> !fate.Lost?
  {
    InFrames(s.trace.frames, statement);
    forall i | 0 <= i < |s.trace.frames| ensures InFrame(s.trace.frames, statement, i) <==> fate == Open(i + 1) {
      assert PlacedAt(s.trace, statement, fate, i);
    }
    if fate.Open? { assert InFrame(s.trace.frames, statement, fate.left - 1); }
  }

  lemma NewStatementPlaced(s: System, owner: nat, id: nat, statement: Statement)
    requires Inv(s) && Valid(s.broker, owner, id) && statement !in Contents(s.broker.worker)
    ensures Placed(Step(s, ExecuteIn(owner, id, statement, true)).trace, statement, Open(|s.trace.frames|))
  {
    Opened(s, owner, id);
    InFrames(s.trace.frames, statement);
    RunTrace(s, owner, id, statement);
    NewItem(s.trace, Step(s, ExecuteIn(owner, id, statement, true)).trace, statement);
  }

  lemma NewItem(t: Trace, t': Trace, statement: Statement)
    requires t.frames != [] && statement !in Replay(t.history) && t'.history == t.history
    requires forall i :: 0 <= i < |t.frames| ==> !InFrame(t.frames, statement, i)
    requires t'.frames == AddItems(t.frames, [Ran(statement, true)])
    ensures Placed(t', statement, Open(|t.frames|))
  {
    AddedIds(t.frames, [Ran(statement, true)]);
    forall i | 0 <= i < |t'.frames| ensures PlacedAt(t', statement, Open(|t.frames|), i) {
      assert !InFrame(t.frames, statement, i);
      if i == |t.frames| - 1 { EffectsSnoc(t.frames[i].items, Ran(statement, true)); }
    }
  }

  /** At any depth, whichever open transaction runs a statement, and whatever all callers do
      afterwards: it is in the database exactly when every savepoint that was open when it ran has
      been released, and it is gone exactly when one of them has been rolled back. */
  lemma SurvivesExactlyWhenEverySavepointIsReleased(s: System, owner: nat, id: nat, statement: Statement,
                                                    events: seq<Event>)
    requires Reachable(s) && Valid(s.broker, owner, id)
    requires statement !in Contents(s.broker.worker) && !Queued(s.broker, statement)
    requires forall e :: e in events ==> !Runs(e, statement)
    requires AllDisciplined(Step(s, ExecuteIn(owner, id, statement, true)), events)
    ensures var ran := Step(s, ExecuteIn(owner, id, statement, true));
            var fate, worker := FateOf(ran, events, Open(|s.trace.frames|)), Run(ran, events).broker.worker;
            && (statement in worker.durable <==> fate.Kept?)
            && (statement in Contents(worker) <==> !fate.Lost?)
  {
    ReachableInv(s);
    NewStatementPlaced(s, owner, id, statement);
    StepKeepsInv(s, ExecuteIn(owner, id, statement, true));
    var ran := Step(s, ExecuteIn(owner, id, statement, true));
    var fate := Open(|s.trace.frames|);
    RunMoves(ran, events, statement, fate);
    PlacedContents(Run(ran, events), statement, FateOf(ran, events, fate));
  }

  /** So a statement that a root runs while a child is open is lost with the child, although the root
      commits and, if the statement mutates, announces it. */
  lemma ParentStatementLostWithChild(s: System, owner: nat, root: nat, child: nat, statement: Statement)
    requires Reachable(s) && |s.trace.frames| == 2 && s.trace.frames[0].id == root && s.trace.frames[1].id == child
    requires Valid(s.broker, owner, root) && Valid(s.broker, owner, child)
    ensures var b1 := BrokerStep(s.broker, ExecuteIn(owner, root, statement, true));
            var b3 := BrokerStep(BrokerStep(b1, Undo(owner, child)), Finish(owner, root, true));
            && b3.worker.durable == s.broker.worker.durable + Effects(s.trace.frames[0].items)
            && (statement.mutates ==> b3.notices == s.broker.notices + [owner])
  {
    OneChildOpen(s, owner, root, child);
    LostWithChild(s.broker, owner, root, child, statement);
  }

  lemma OneChildOpen(s: System, owner: nat, root: nat, child: nat)
    requires Reachable(s) && |s.trace.frames| == 2 && s.trace.frames[0].id == root && s.trace.frames[1].id == child
    requires Valid(s.broker, owner, root) && Valid(s.broker, owner, child)
    ensures OneChild(s.broker, owner, root, child, s.broker.worker.durable + Effects(s.trace.frames[0].items))
  {
    ReachableInv(s);
    ChildRecords(s, root, child);
    ChildSavepoint(s.broker.worker, s.trace, child);
  }

  lemma ChildRecords(s: System, root: nat, child: nat)
    requires Inv(s) && |s.trace.frames| == 2 && s.trace.frames[0].id == root && s.trace.frames[1].id == child
    ensures root != child && root in s.broker.transactions && child in s.broker.transactions
    ensures s.broker.transactions[root].parent == None && s.broker.transactions[child].parent == Some(root)
  {
    assert ParentBelow(s.trace, 0) && ParentBelow(s.trace, 1);
    assert RecordOf(s.broker, s.trace.ledger, root) && RecordOf(s.broker, s.trace.ledger, child);
  }

  lemma ChildSavepoint(w: Worker, t: Trace, child: nat)
    requires WorkerInv(w, t) && |t.frames| == 2 && t.frames[1].id == child
    ensures w.view.Some? && w.savepoints == [Savepoint(child, w.durable + Effects(t.frames[0].items))]
  {
    assert SavepointOf(w, t, 0);
    OneFrame(t.frames);
  }

  predicate OneChild(b: Broker, owner: nat, root: nat, child: nat, snapshot: seq<Statement>) {
    && Valid(b, owner, root) && Valid(b, owner, child) && root != child
    && b.transactions[root].parent == None && b.transactions[child].parent == Some(root)
    && b.worker.view.Some? && b.worker.savepoints == [Savepoint(child, snapshot)]
  }

  lemma LostWithChild(b: Broker, owner: nat, root: nat, child: nat, statement: Statement)
    requires b.worker.savepoints != [] && OneChild(b, owner, root, child, b.worker.savepoints[0].snapshot)
    ensures var b1 := AfterExecuteIn(b, owner, root, statement, true);
            var b3 := AfterFinish(AfterUndo(b1, owner, child), owner, root, true);
            && b3.worker.durable == b.worker.savepoints[0].snapshot
            && (statement.mutates ==> b3.notices == b.notices + [owner])
  {
    var b1 := AfterExecuteIn(b, owner, root, statement, true);
    ExecuteFields(b, owner, root, statement);
    assert OneChild(b1, owner, root, child, b.worker.savepoints[0].snapshot);
    UndoneChild(b1, owner, root, child);
  }

  /** Undoing a child of the root, with nothing else open, restores the contents at its savepoint. */
  lemma UndoneChild(b: Broker, owner: nat, root: nat, child: nat)
    requires b.worker.savepoints != [] && OneChild(b, owner, root, child, b.worker.savepoints[0].snapshot)
    ensures var done := AfterFinish(AfterUndo(b, owner, child), owner, root, true);
            && done.worker.durable == b.worker.savepoints[0].snapshot
            && done.notices == b.notices + if b.transactions[root].dirty then [owner] else []
  {
    assert Find(b.worker.savepoints, child) == Some(0);
  }

  /** A COMMIT that fails leaves the connection inside the dead transaction: the gate moves on, the
      next root cannot begin, and the next autocommit statement does not become durable. */
  lemma FailedCommitLeavesConnectionOpen(s: System, owner: nat, id: nat, call: Call)
    requires Reachable(s) && Valid(s.broker, owner, id) && Innermost(s.trace, id) && |s.trace.frames| == 1
    requires |s.broker.queue| >= 2 && s.broker.queue[1].call == call
    ensures var b := BrokerStep(s.broker, Finish(owner, id, false));
            && b.transactions == map[] && !b.running && b.queue == s.broker.queue[1..]
            && b.worker == s.broker.worker && b.worker.view.Some?
            && (call.Root? ==> BrokerStep(b, GrantBegin(true)).transactions == map[])
            && (call.Auto? ==> BrokerStep(b, GrantAuto(true)).worker.durable == s.broker.worker.durable)
  {
    OnlyRootOpen(s, owner, id);
    CommitFails(s.broker, owner, id);
  }

  lemma OnlyRootOpen(s: System, owner: nat, id: nat)
    requires Reachable(s) && Valid(s.broker, owner, id) && Innermost(s.trace, id) && |s.trace.frames| == 1
    ensures s.broker.transactions - {id} == map[] && s.broker.worker.view.Some?
    ensures s.broker.transactions[id].parent == None
  {
    ReachableInv(s);
    OnlyRoot(s, owner, id);
  }

  lemma CommitFails(b: Broker, owner: nat, id: nat)
    requires Valid(b, owner, id) && b.transactions[id].parent == None && b.transactions - {id} == map[] && b.queue != []
    ensures BrokerStep(b, Finish(owner, id, false)) == b.(transactions := map[], queue := b.queue[1..], running := false)
  {}

  // ----- an owner that is gone

  predicate WaitsToBegin(b: Broker, owner: nat) {
    exists i :: 0 <= i < |b.queue| && b.queue[i].call.Root? && b.queue[i].call.owner == owner
  }

  predicate BeginsNothing(events: seq<Event>, owner: nat) {
    forall e :: e in events ==> !(e.CallBegin? && e.owner == owner)
  }

  /** Without a ticket an owner never holds the gate. */
  lemma {:induction false} NeverHolds(s: System, owner: nat, events: seq<Event>)
    requires !WaitsToBegin(s.broker, owner) && BeginsNothing(events, owner)
    ensures !HeldBy(Run(s, events).broker, owner)
    decreases |events|
  {
    if events != [] {
      QueueGrowsByCalls(s.broker, events[0]);
      NeverHolds(Step(s, events[0]), owner, events[1..]);
    }
  }

  /** One step that takes the head out of the gate: its owner is cleaned up, or its call fails. */
  lemma HeadLeaves(s: System) returns (e: Event)
    requires Inv(s) && s.broker.queue != []
    ensures Disciplined(s, e) && !e.CallBegin? && BrokerStep(s.broker, e).queue == s.broker.queue[1..]
  {
    var b := s.broker;
    if b.running {
      e := CleanupOwner(b.queue[0].call.owner);
      CleanupFields(s, b.queue[0].call.owner);
    } else {
      e := if b.queue[0].call.Auto? then GrantAuto(false) else GrantBegin(false);
    }
  }

  /** Events that bring the owner to the gate, with no further `begin` of its own. */
  ghost predicate BringsToGate(s: System, events: seq<Event>, owner: nat) {
    AllDisciplined(s, events) && BeginsNothing(events, owner) && HeldBy(Run(s, events).broker, owner)
  }

  lemma HeadHolds(s: System, owner: nat) returns (events: seq<Event>)
    requires Inv(s) && s.broker.queue != [] && s.broker.queue[0].call.Root? && s.broker.queue[0].call.owner == owner
    ensures BringsToGate(s, events, owner)
  {
    OneOwner(s);
    if s.broker.running {
      events := [];
    } else {
      events := [GrantBegin(true)];
      RootOpens(s);
      assert events[1..] == [];
      assert Run(s, events) == Step(s, GrantBegin(true));
    }
  }

  lemma BringsLater(s: System, e: Event, later: seq<Event>, owner: nat)
    requires Disciplined(s, e) && !e.CallBegin? && BringsToGate(Step(s, e), later, owner)
    ensures BringsToGate(s, [e] + later, owner)
  {
    assert ([e] + later)[1..] == later;
  }

  lemma {:induction false} GetsTheGate(s: System, owner: nat, i: nat) returns (events: seq<Event>)
    requires Inv(s) && i < |s.broker.queue| && s.broker.queue[i].call.Root? && s.broker.queue[i].call.owner == owner
    ensures BringsToGate(s, events, owner)
    decreases i
  {
    if i == 0 {
      events := HeadHolds(s, owner);
    } else {
      var e := HeadLeaves(s);
      StepKeepsInv(s, e);
      var later := GetsTheGate(Step(s, e), owner, i - 1);
      BringsLater(s, e, later, owner);
      events := [e] + later;
    }
  }

  lemma WaitingGetsTheGate(s: System, owner: nat)
    requires Inv(s) && WaitsToBegin(s.broker, owner)
    ensures exists events :: BringsToGate(s, events, owner)
  {
    var i :| 0 <= i < |s.broker.queue| && s.broker.queue[i].call.Root? && s.broker.queue[i].call.owner == owner;
    var events := GetsTheGate(s, owner, i);
  }

  lemma CleanedUpHoldsNothing(s: System, owner: nat)
    requires Inv(s)
    ensures !HeldBy(Step(s, CleanupOwner(owner)).broker, owner)
  {
    CleanupFields(s, owner);
  }

  /** Cleaning up an owner does not withdraw its waiting `begin`. Though it makes no further one, it
      can hold the gate again exactly when such a call is somewhere in the queue; and by
      SilentHolderBlocksEveryone it then holds it for good. */
  lemma CleanedUpOwnerHoldsAgainExactlyWhenItWaits(s: System, dead: nat)
    requires Reachable(s)
    ensures var s0 := Step(s, CleanupOwner(dead));
            && !HeldBy(s0.broker, dead)
            && (WaitsToBegin(s0.broker, dead) <==> exists events :: BringsToGate(s0, events, dead))
  {
    ReachableInv(s);
    CleanupKeepsInv(s, dead);
    CleanedUpHoldsNothing(s, dead);
    var s0 := Step(s, CleanupOwner(dead));
    if WaitsToBegin(s0.broker, dead) {
      WaitingGetsTheGate(s0, dead);
    } else {
      forall events | BeginsNothing(events, dead) ensures !HeldBy(Run(s0, events).broker, dead) {
        NeverHolds(s0, dead, events);
      }
    }
  }
}
