/** What holds in every run of the broker, and exactly when the rest does. */
module BrokerTheorems {
  import opened DatabaseWorker
  import opened DatabaseBroker
  import opened BrokerProofs
  import opened Wrappers

  /** The durable database is the sequential execution, in gate order, of the autocommit statements
      and committed root transactions, without what ran under a rolled-back savepoint; and every
      change was announced exactly once, to its caller. */
  lemma DurableIsSequential(s: System)
    requires Reachable(s)
    ensures s.broker.worker.durable == Replay(s.trace.history)
    ensures forall i, j :: 0 <= i < j < |s.trace.history| ==> s.trace.history[i].number < s.trace.history[j].number
    ensures s.broker.notices == Due(s.trace.history)
  {
    ReachableInv(s);
  }

  /** A statement without a transaction never lands inside one: when it is let through, nothing is
      open, and it becomes durable alone. */
  lemma AutocommitIsIsolated(s: System)
    requires Reachable(s)
    requires s.broker.queue != [] && !s.broker.running && s.broker.queue[0].call.Auto?
    ensures s.broker.worker.view.None? && s.broker.transactions == map[]
    ensures Step(s, GrantAuto(true)).broker.worker.durable == s.broker.worker.durable + [s.broker.queue[0].call.statement]
    ensures Step(s, GrantAuto(false)).broker.worker == s.broker.worker
    ensures forall ok :: Step(s, GrantAuto(ok)).broker.queue == s.broker.queue[1..]
  {
    ReachableInv(s);
    NothingOpen(s);
  }

  /** A call naming another caller's transaction changes nothing. */
  lemma ForeignCallsAreRefused(s: System, owner: nat, id: nat, e: Event)
    requires !Valid(s.broker, owner, id)
    requires e.ExecuteIn? || e.BatchIn? || e.Finish? || e.Undo? || e.BeginIn?
    requires e.owner == owner && (if e.BeginIn? then e.parent == id else e.id == id)
    ensures Step(s, e) == s
  {}

  // ----- announcements

  /** Committing a root announces a change exactly when a completed mutating statement ran in it or in
      a descendant whose whole chain committed, whatever ran beside what. */
  lemma CommitAnnounces(s: System, owner: nat, id: nat)
    requires Reachable(s) && Valid(s.broker, owner, id) && Innermost(s.trace, id) && |s.trace.frames| == 1
    ensures id in s.trace.ledger
    ensures var b := Step(s, Finish(owner, id, true)).broker;
            && b.notices == s.broker.notices + (if Noted(s.trace.ledger[id].items) then [owner] else [])
            && b.worker.durable == s.broker.worker.durable + Effects(s.trace.frames[0].items)
  {
    ReachableInv(s);
    OnlyRoot(s, owner, id);
    CloseRootFields(s.broker, owner, id);
    OneFrame(s.trace.frames);
    assert s.trace.frames[..1] == s.trace.frames;
  }

  /** No row of a failed batch survives in these items. */
  predicate NoSwallowedBatch(items: seq<Item>)
    decreases items, 0
  {
    items == [] || (NoSwallowedBatch(items[..|items| - 1]) && NoSwallowedItem(items[|items| - 1]))
  }

  predicate NoSwallowedItem(item: Item)
    decreases item, 1
  {
    match item
    case Ran(statement, noted) => noted || !statement.mutates
    case Committed(items) => NoSwallowedBatch(items)
    case RolledBack(_) => true
  }

  predicate AnyMutates(statements: seq<Statement>) {
    exists i :: 0 <= i < |statements| && statements[i].mutates
  }

  lemma AnyMutatesConcat(a: seq<Statement>, b: seq<Statement>)
    ensures AnyMutates(a + b) <==> AnyMutates(a) || AnyMutates(b)
  {
    if AnyMutates(a) {
      var i :| 0 <= i < |a| && a[i].mutates;
      assert (a + b)[i].mutates;
    }
    if AnyMutates(b) {
      var i :| 0 <= i < |b| && b[i].mutates;
      assert (a + b)[|a| + i].mutates;
    }
  }

  /** What is noted changed something; and a change is either noted or the rest of a failed batch. */
  lemma {:induction false} NotedOrSwallowed(items: seq<Item>)
    ensures Noted(items) ==> AnyMutates(Effects(items))
    ensures !Noted(items) ==> (AnyMutates(Effects(items)) <==> !NoSwallowedBatch(items))
    decreases items, 0
  {
    if items != [] {
      var rest, last := items[..|items| - 1], items[|items| - 1];
      NotedOrSwallowed(rest);
      NotedOrSwallowedItem(last);
      AnyMutatesConcat(Effects(rest), EffectOf(last));
    }
  }

  lemma {:induction false} NotedOrSwallowedItem(item: Item)
    ensures NotedItem(item) ==> AnyMutates(EffectOf(item))
    ensures !NotedItem(item) ==> (AnyMutates(EffectOf(item)) <==> !NoSwallowedItem(item))
    decreases item, 1
  {
    match item
    case Ran(statement, noted) => assert EffectOf(item)[0] == statement;
    case Committed(items) => NotedOrSwallowed(items);
    case RolledBack(_) =>
  }

  /** A root commit is announced exactly when it changes the database if and only if its account says
      what the database got; for one that worked one thing at a time that is exactly: something is
      noted, or no failed batch left rows behind. */
  lemma AnnouncedExactlyWhenChanged(s: System, owner: nat, id: nat)
    requires Reachable(s) && Valid(s.broker, owner, id) && Innermost(s.trace, id) && |s.trace.frames| == 1
    ensures id in s.trace.ledger
    ensures var b := Step(s, Finish(owner, id, true)).broker;
            var account, items := s.trace.ledger[id].items, s.trace.frames[0].items;
            && s.broker.worker.durable <= b.worker.durable
            && var right := b.notices == s.broker.notices +
                              if AnyMutates(b.worker.durable[|s.broker.worker.durable|..]) then [owner] else [];
               && (right <==> (Noted(account) <==> AnyMutates(Effects(items))))
               && (account == items ==> (right <==> Noted(items) || NoSwallowedBatch(items)))
  {
    CommitAnnounces(s, owner, id);
    NotedOrSwallowed(s.trace.frames[0].items);
    var d, e, notices := s.broker.worker.durable, Effects(s.trace.frames[0].items), s.broker.notices;
    assert (d + e)[|d|..] == e;
    assert |notices + [owner]| != |notices + []|;
  }

  ghost predicate AccountIsFrame(t: Trace, i: nat)
    requires i < |t.frames|
  {
    && t.frames[i].id in t.ledger && t.ledger[t.frames[i].id].items == t.frames[i].items
    && (i > 0 ==> t.ledger[t.frames[i].id].parent == Some(t.frames[i - 1].id))
  }

  /** Each account holds what ran under the savepoint of its transaction. */
  ghost predicate AccountsAreFrames(t: Trace) {
    forall i :: 0 <= i < |t.frames| ==> AccountIsFrame(t, i)
  }

  lemma RunKeepsAccounts(t: Trace, id: nat, items: seq<Item>)
    requires StackInv(t) && AccountsAreFrames(t) && Innermost(t, id)
    ensures AccountsAreFrames(RunItems(t, id, items))
  {
    var t' := RunItems(t, id, items);
    forall i | 0 <= i < |t'.frames| ensures AccountIsFrame(t', i) {
      assert AccountIsFrame(t, i) && AccountIsFrame(t, |t.frames| - 1);
    }
  }

  lemma CloseKeepsAccounts(t: Trace, number: nat, owner: nat, id: nat, commit: bool)
    requires StackInv(t) && AccountsAreFrames(t) && Innermost(t, id) && id in t.ledger
    ensures AccountsAreFrames(Close(t, number, owner, id, commit))
  {
    var t', n := Close(t, number, owner, id, commit), |t.frames|;
    assert AccountIsFrame(t, n - 1);
    if n > 1 {
      assert AccountIsFrame(t, n - 2);
      AddedIds(t.frames[..n - 1], [Wrapped(t.frames[n - 1].items, commit)]);
      forall i | 0 <= i < |t'.frames| ensures AccountIsFrame(t', i) {
        assert AccountIsFrame(t, i) && t.frames[i].id != id;
      }
    }
  }

  lemma PushKeepsAccounts(t: Trace, t': Trace, parent: nat, id: nat)
    requires AccountsAreFrames(t) && Innermost(t, parent) && id !in t.ledger
    requires t'.frames == t.frames + [Frame(id, [])] && t'.ledger == t.ledger[id := Account(Some(parent), [])]
    ensures AccountsAreFrames(t')
  {
    forall i | 0 <= i < |t'.frames| ensures AccountIsFrame(t', i) {
      if i < |t.frames| {
        assert AccountIsFrame(t, i);
        if i > 0 { assert AccountIsFrame(t, i - 1); }
      }
    }
  }

  lemma SequentialStepKeepsAccounts(s: System, e: Event)
    requires Inv(s) && AccountsAreFrames(s.trace) && Sequential(s, e)
    ensures AccountsAreFrames(Step(s, e).trace)
  {
    match e
    case ExecuteIn(owner, id, statement, ok) =>
      if Valid(s.broker, owner, id) && ok {
        Opened(s, owner, id);
        RunKeepsAccounts(s.trace, id, [Ran(statement, true)]);
      }
    case BatchIn(owner, id, rows, applied) =>
      if Valid(s.broker, owner, id) {
        Opened(s, owner, id);
        RunKeepsAccounts(s.trace, id, BatchItems(rows, applied));
      }
    case BeginIn(owner, parent, id, ok) =>
      if Valid(s.broker, owner, parent) && ok {
        Opened(s, owner, parent);
        LedgerIsRecorded(s.broker, s.trace.ledger);
        PushKeepsAccounts(s.trace, Step(s, e).trace, parent, id);
      }
    case Finish(owner, id, ok) =>
      if Valid(s.broker, owner, id) {
        Opened(s, owner, id);
        CloseKeepsAccounts(s.trace, s.broker.queue[0].number, owner, id, true);
      }
    case Undo(owner, id) =>
      if Valid(s.broker, owner, id) {
        Opened(s, owner, id);
        CloseKeepsAccounts(s.trace, s.broker.queue[0].number, owner, id, false);
      }
    case GrantBegin(ok) =>
      if ok && s.broker.queue != [] && !s.broker.running && s.broker.queue[0].call.Root? {
        assert AccountIsFrame(Step(s, e).trace, 0);
      }
    case _ =>
  }

  /** Transactions that work one thing at a time have such accounts in every run. */
  lemma {:induction false} SequentialRunsKeepAccounts(s: System, events: seq<Event>)
    requires Inv(s) && AccountsAreFrames(s.trace) && AllSequential(s, events)
    ensures AccountsAreFrames(Run(s, events).trace) && AllDisciplined(s, events)
    decreases |events|
  {
    if events != [] {
      StepKeepsInv(s, events[0]);
      SequentialStepKeepsAccounts(s, events[0]);
      SequentialRunsKeepAccounts(Step(s, events[0]), events[1..]);
    }
  }

  // ----- batches

  predicate CallOf(e: Event, owner: nat) {
    match e
    case ExecuteIn(o, _, _, _) => o == owner
    case BatchIn(o, _, _, _) => o == owner
    case BeginIn(o, _, _, _) => o == owner
    case Finish(o, _, _) => o == owner
    case Undo(o, _) => o == owner
    case CleanupOwner(o) => o == owner
    case _ => false
  }

  ghost predicate HeldBy(b: Broker, owner: nat) {
    && b.running && b.queue != [] && b.queue[0].call.Root? && b.queue[0].call.owner == owner
    && (forall id :: id in b.transactions ==> b.transactions[id].owner == owner)
  }

  /** The owner's transactions, the connection and the announcements are as they were; others may only
      have joined the queue. */
  ghost predicate Undisturbed(b: Broker, b': Broker, owner: nat) {
    && HeldBy(b', owner) && b'.worker == b.worker && b'.notices == b.notices && b'.transactions == b.transactions
    && b.queue <= b'.queue
  }

  lemma OthersCannotMove(s: System, owner: nat, e: Event)
    requires HeldBy(s.broker, owner) && !CallOf(e, owner)
    ensures Undisturbed(s.broker, Step(s, e).broker, owner)
  {
    if e.CleanupOwner? {
      assert ForgetOwner(s.broker, e.owner).transactions == s.broker.transactions;
    }
  }

  /** While one owner's root transaction is open and its owner stays silent, nobody else's call reaches
      the database, however many are made. */
  lemma {:induction false} SilentHolderBlocksEveryone(s: System, owner: nat, events: seq<Event>)
    requires HeldBy(s.broker, owner) && forall e :: e in events ==> !CallOf(e, owner)
    ensures Undisturbed(s.broker, Run(s, events).broker, owner)
    decreases |events|
  {
    if events != [] {
      OthersCannotMove(s, owner, events[0]);
      SilentHolderBlocksEveryone(Step(s, events[0]), owner, events[1..]);
    }
  }

  /** The broker while owner's root id has run these statements and nothing else is open. */
  predicate InBatch(b: Broker, owner: nat, id: nat, start: seq<Statement>, done: seq<Statement>, dirty: bool) {
    && b.running && b.queue != [] && b.queue[0].call == Root(owner, id)
    && b.transactions == map[id := Transaction(owner, None, dirty)]
    && b.worker == Worker(start, Some(start + done), [])
  }

  lemma OthersLeaveBatch(s: System, owner: nat, id: nat, start: seq<Statement>, done: seq<Statement>, dirty: bool,
                         events: seq<Event>)
    requires InBatch(s.broker, owner, id, start, done, dirty) && forall e :: e in events ==> !CallOf(e, owner)
    ensures InBatch(Run(s, events).broker, owner, id, start, done, dirty)
    ensures Run(s, events).broker.notices == s.broker.notices
  {
    SilentHolderBlocksEveryone(s, owner, events);
  }

  /** The three calls of a top-level batch, with any calls of others between them. */
  ghost function BatchRan(s: System, owner: nat, id: nat, rows: seq<nat>, applied: nat,
                          between: seq<Event>, after: seq<Event>): System
  {
    Run(Step(Run(Step(s, GrantBegin(true)), between), BatchIn(owner, id, rows, applied)), after)
  }

  lemma BatchBegins(s: System, owner: nat, id: nat, between: seq<Event>)
    requires Reachable(s) && s.broker.queue != [] && !s.broker.running && s.broker.queue[0].call == Root(owner, id)
    requires forall e :: e in between ==> !CallOf(e, owner)
    ensures var begun := Run(Step(s, GrantBegin(true)), between).broker;
            InBatch(begun, owner, id, s.broker.worker.durable, [], false) && begun.notices == s.broker.notices
  {
    ReachableInv(s);
    RootOpens(s);
    HeadAndTail(s.broker.worker.durable);
    OthersLeaveBatch(Step(s, GrantBegin(true)), owner, id, s.broker.worker.durable, [], false, between);
  }

  lemma BatchRowsRun(b: Broker, owner: nat, id: nat, start: seq<Statement>, rows: seq<nat>, applied: nat)
    requires InBatch(b, owner, id, start, [], false)
    ensures var n, ran := |BatchItems(rows, applied)|, AfterBatchIn(b, owner, id, rows, applied);
            && InBatch(ran, owner, id, start, BatchStatements(rows[..n]), n == |rows| && rows != [])
            && ran.notices == b.notices
  {
    BatchFields(b, owner, id, rows, applied);
    HeadAndTail(start);
  }

  lemma BatchRuns(s: System, owner: nat, id: nat, rows: seq<nat>, applied: nat, between: seq<Event>, after: seq<Event>)
    requires Reachable(s) && s.broker.queue != [] && !s.broker.running && s.broker.queue[0].call == Root(owner, id)
    requires forall e :: e in between ==> !CallOf(e, owner)
    requires forall e :: e in after ==> !CallOf(e, owner)
    ensures var n := |BatchItems(rows, applied)|;
            var ran := BatchRan(s, owner, id, rows, applied, between, after).broker;
            && InBatch(ran, owner, id, s.broker.worker.durable, BatchStatements(rows[..n]), n == |rows| && rows != [])
            && ran.notices == s.broker.notices
  {
    var start, n := s.broker.worker.durable, |BatchItems(rows, applied)|;
    BatchBegins(s, owner, id, between);
    var begun := Run(Step(s, GrantBegin(true)), between);
    BatchRowsRun(begun.broker, owner, id, start, rows, applied);
    OthersLeaveBatch(Step(begun, BatchIn(owner, id, rows, applied)), owner, id, start, BatchStatements(rows[..n]),
                     n == |rows| && rows != [], after);
  }

  /** A top-level batch is all or nothing, whatever other callers do meanwhile: it ends with every row
      durable and one announcement, or, at the first failing row, with none of either. */
  lemma BatchIsAllOrNothing(s: System, owner: nat, id: nat, rows: seq<nat>, applied: nat,
                            between: seq<Event>, after: seq<Event>)
    requires Reachable(s) && s.broker.queue != [] && !s.broker.running && s.broker.queue[0].call == Root(owner, id)
    requires forall e :: e in between ==> !CallOf(e, owner)
    requires forall e :: e in after ==> !CallOf(e, owner)
    ensures var ran := BatchRan(s, owner, id, rows, applied, between, after);
            var ended := Step(ran, if applied >= |rows| then Finish(owner, id, true) else Undo(owner, id)).broker;
            && ended.worker == Worker(s.broker.worker.durable + (if applied >= |rows| then BatchStatements(rows) else []), None, [])
            && ended.notices == s.broker.notices + (if applied >= |rows| && rows != [] then [owner] else [])
            && !ended.running && ended.transactions == map[]
  {
    BatchRuns(s, owner, id, rows, applied, between, after);
    BatchOutcome(BatchRan(s, owner, id, rows, applied, between, after).broker, owner, id, s.broker.worker.durable, rows, applied);
  }

  lemma BatchOutcome(b: Broker, owner: nat, id: nat, start: seq<Statement>, rows: seq<nat>, applied: nat)
    requires var n := |BatchItems(rows, applied)|;
             InBatch(b, owner, id, start, BatchStatements(rows[..n]), n == |rows| && rows != [])
    ensures var ended := BrokerStep(b, if applied >= |rows| then Finish(owner, id, true) else Undo(owner, id));
            && ended.worker == Worker(start + (if applied >= |rows| then BatchStatements(rows) else []), None, [])
            && ended.notices == b.notices + (if applied >= |rows| && rows != [] then [owner] else [])
            && !ended.running && ended.transactions == map[]
  {
    var n := |BatchItems(rows, applied)|;
    BatchEnds(b, owner, id, start, BatchStatements(rows[..n]), n == |rows| && rows != []);
    assert rows[..|rows|] == rows;
    HeadAndTail(start);
    HeadAndTail(b.notices);
  }

  lemma BatchEnds(b: Broker, owner: nat, id: nat, start: seq<Statement>, done: seq<Statement>, dirty: bool)
    requires InBatch(b, owner, id, start, done, dirty)
    ensures var ended := AfterFinish(b, owner, id, true);
            && ended.worker == Worker(start + done, None, []) && !ended.running && ended.transactions == map[]
            && ended.notices == b.notices + if dirty then [owner] else []
    ensures var ended := AfterUndo(b, owner, id);
            && ended.worker == Worker(start, None, []) && !ended.running && ended.transactions == map[]
            && ended.notices == b.notices
  {
    assert b.transactions - {id} == map[];
    CloseRootFields(b, owner, id);
  }

  /** Cleaning the owner up in mid-batch, before or after its rows ran, leaves none of them, announces
      nothing, and ends the batch: what the owner still calls for it is refused. */
  lemma CleanupEndsBatch(s: System, owner: nat, id: nat, rows: seq<nat>, applied: nat,
                         between: seq<Event>, after: seq<Event>, ran: bool)
    requires Reachable(s) && s.broker.queue != [] && !s.broker.running && s.broker.queue[0].call == Root(owner, id)
    requires forall e :: e in between ==> !CallOf(e, owner)
    requires forall e :: e in after ==> !CallOf(e, owner)
    ensures var at := if ran then BatchRan(s, owner, id, rows, applied, between, after)
                      else Run(Step(s, GrantBegin(true)), between);
            var ended := Step(at, CleanupOwner(owner)).broker;
            && ended.worker == Worker(s.broker.worker.durable, None, []) && ended.notices == s.broker.notices
            && ended.transactions == map[] && !ended.running && !Valid(ended, owner, id)
  {
    var start, n := s.broker.worker.durable, |BatchItems(rows, applied)|;
    if ran {
      BatchRuns(s, owner, id, rows, applied, between, after);
      BatchCleaned(BatchRan(s, owner, id, rows, applied, between, after).broker, owner, id, start,
                   BatchStatements(rows[..n]), n == |rows| && rows != []);
    } else {
      BatchBegins(s, owner, id, between);
      BatchCleaned(Run(Step(s, GrantBegin(true)), between).broker, owner, id, start, [], false);
    }
  }

  lemma BatchCleaned(b: Broker, owner: nat, id: nat, start: seq<Statement>, done: seq<Statement>, dirty: bool)
    requires InBatch(b, owner, id, start, done, dirty)
    ensures var ended := AfterCleanup(b, owner);
            && ended.worker == Worker(start, None, []) && ended.notices == b.notices
            && ended.transactions == map[] && !ended.running
  {
    assert ForgetOwner(AfterUndo(b, owner, id), owner).transactions == map[];
  }

  /** A batch that fails part-way, and whose failure the transaction survives, changes the database
      without an announcement. */
  lemma PartialBatchGoesUnannounced(s: System, owner: nat, id: nat, rows: seq<nat>, applied: nat)
    requires Reachable(s) && s.broker.queue != [] && !s.broker.running && s.broker.queue[0].call == Root(owner, id)
    requires 0 < applied < |rows|
    ensures var b1 := BrokerStep(s.broker, GrantBegin(true));
            var b3 := BrokerStep(BrokerStep(b1, BatchIn(owner, id, rows, applied)), Finish(owner, id, true));
            && b3.worker.durable == s.broker.worker.durable + BatchStatements(rows[..applied])
            && b3.notices == s.broker.notices
  {
    var start, n := s.broker.worker.durable, |BatchItems(rows, applied)|;
    BatchBegins(s, owner, id, []);
    var b1 := BrokerStep(s.broker, GrantBegin(true));
    assert Run(Step(s, GrantBegin(true)), []).broker == b1;
    BatchRowsRun(b1, owner, id, start, rows, applied);
    BatchEnds(AfterBatchIn(b1, owner, id, rows, applied), owner, id, start, BatchStatements(rows[..n]), false);
    HeadAndTail(s.broker.notices);
  }
}
