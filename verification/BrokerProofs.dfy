/** Every disciplined run of the broker equals the sequential execution. */
module BrokerProofs {
  import opened DatabaseWorker
  import opened DatabaseBroker
  import opened Wrappers

  function FramesEffects(frames: seq<Frame>): seq<Statement> {
    if frames == [] then [] else FramesEffects(frames[..|frames| - 1]) + Effects(frames[|frames| - 1].items)
  }

  /** The queue is numbered in arrival order; finished units came before whoever holds the gate. */
  ghost predicate GateInv(b: Broker, history: seq<Unit>) {
    && |b.queue| <= b.next
    && (forall i :: 0 <= i < |b.queue| ==> b.queue[i].number == b.next - |b.queue| + i)
    && (forall i, j :: 0 <= i < j < |history| ==> history[i].number < history[j].number)
    && (forall i :: 0 <= i < |history| ==> history[i].number < b.next - |b.queue|)
  }

  /** Roots waiting for the gate have ids of their own. */
  ghost predicate QueueInv(b: Broker, frames: seq<Frame>) {
    && (forall i, j :: 0 <= i < j < |b.queue| && b.queue[i].call.Root? && b.queue[j].call.Root? ==>
          b.queue[i].call.id != b.queue[j].call.id)
    && (forall i, j :: (if b.running then 1 else 0) <= i < |b.queue| && b.queue[i].call.Root? && 0 <= j < |frames| ==>
          b.queue[i].call.id != frames[j].id)
  }

  ghost predicate RunningInv(b: Broker, frames: seq<Frame>) {
    && (b.running <==> frames != [])
    && (b.running ==> b.queue != [] && b.queue[0].call.Root? && b.queue[0].call.id == frames[0].id)
  }

  ghost predicate ParentBelow(t: Trace, i: nat)
    requires i < |t.frames|
  {
    && t.frames[i].id in t.ledger
    && (i == 0 ==> t.ledger[t.frames[0].id].parent == None)
    && (i > 0 ==> exists j :: 0 <= j < i && t.ledger[t.frames[i].id].parent == Some(t.frames[j].id))
  }

  predicate IsOpen(t: Trace, id: nat) {
    exists i :: 0 <= i < |t.frames| && t.frames[i].id == id
  }

  /** Every open transaction has one savepoint, above that of its parent. */
  ghost predicate StackInv(t: Trace) {
    && (forall i, j :: 0 <= i < j < |t.frames| ==> t.frames[i].id != t.frames[j].id)
    && (forall i :: 0 <= i < |t.frames| ==> ParentBelow(t, i))
    && (forall id :: id in t.ledger ==> IsOpen(t, id))
  }

  ghost predicate RecordOf(b: Broker, ledger: map<nat, Account>, id: nat)
    requires id in ledger
  {
    && id in b.transactions && b.queue != []
    && b.transactions[id] == Transaction(b.queue[0].call.owner, ledger[id].parent, Noted(ledger[id].items))
  }

  /** The records are exactly the open accounts, dirty exactly when noted. */
  ghost predicate RecordsInv(b: Broker, ledger: map<nat, Account>) {
    && (forall id :: id in b.transactions ==> id in ledger)
    && (forall id :: id in ledger ==> RecordOf(b, ledger, id))
  }

  ghost predicate SavepointOf(w: Worker, t: Trace, i: nat)
    requires i < |w.savepoints| && i + 1 < |t.frames|
  {
    w.savepoints[i] == Savepoint(t.frames[i + 1].id, Replay(t.history) + FramesEffects(t.frames[..i + 1]))
  }

  /** The connection holds what the reference says, at every savepoint. */
  ghost predicate WorkerInv(w: Worker, t: Trace) {
    && w.durable == Replay(t.history)
    && w.view == (if t.frames == [] then None else Some(Replay(t.history) + FramesEffects(t.frames)))
    && |w.savepoints| == (if t.frames == [] then 0 else |t.frames| - 1)
    && (forall i :: 0 <= i < |w.savepoints| ==> SavepointOf(w, t, i))
  }

  ghost predicate Inv(s: System) {
    && GateInv(s.broker, s.trace.history)
    && QueueInv(s.broker, s.trace.frames)
    && RunningInv(s.broker, s.trace.frames)
    && StackInv(s.trace)
    && RecordsInv(s.broker, s.trace.ledger)
    && WorkerInv(s.broker.worker, s.trace)
    && s.broker.notices == Due(s.trace.history)
  }

  // ----- effects grow at the end

  lemma EffectsSnoc(items: seq<Item>, item: Item)
    ensures Effects(items + [item]) == Effects(items) + EffectOf(item)
    ensures Noted(items + [item]) <==> Noted(items) || NotedItem(item)
  {
    var all := items + [item];
    assert all[..|all| - 1] == items;
  }

  lemma BatchSnoc(rows: seq<nat>, n: nat)
    requires 0 < n <= |rows|
    ensures BatchStatements(rows[..n]) == BatchStatements(rows[..n - 1]) + [Statement(rows[n - 1], true)]
  {}

  lemma {:induction false} BatchEffects(items: seq<Item>, rows: seq<nat>, applied: nat, n: nat)
    requires n <= |BatchItems(rows, applied)|
    ensures Effects(items + BatchItems(rows, applied)[..n]) == Effects(items) + BatchStatements(rows[..n])
    ensures Noted(items + BatchItems(rows, applied)[..n]) <==>
              Noted(items) || (n > 0 && |BatchItems(rows, applied)| == |rows|)
  {
    var all := BatchItems(rows, applied);
    if n == 0 {
      assert items + all[..0] == items;
    } else {
      var front, last := all[..n - 1], all[n - 1];
      BatchEffects(items, rows, applied, n - 1);
      TakeOneMore(all, n);
      ConcatAssociative(items, front, [last]);
      EffectsSnoc(items + front, last);
      BatchItem(rows, applied, n - 1);
      BatchSnoc(rows, n);
      ConcatAssociative(Effects(items), BatchStatements(rows[..n - 1]), [Statement(rows[n - 1], true)]);
    }
  }

  lemma BatchItem(rows: seq<nat>, applied: nat, k: nat)
    requires k < |BatchItems(rows, applied)|
    ensures k < |rows| && EffectOf(BatchItems(rows, applied)[k]) == [Statement(rows[k], true)]
    ensures NotedItem(BatchItems(rows, applied)[k]) <==> |BatchItems(rows, applied)| == |rows|
  {}

  lemma BatchRun(items: seq<Item>, rows: seq<nat>, applied: nat)
    ensures var batch := BatchItems(rows, applied);
            && Effects(items + batch) == Effects(items) + BatchStatements(rows[..|batch|])
            && (Noted(items + batch) <==> Noted(items) || (|batch| == |rows| && rows != []))
  {
    var batch := BatchItems(rows, applied);
    BatchEffects(items, rows, applied, |batch|);
    assert batch[..|batch|] == batch;
  }

  lemma FramesSnoc(frames: seq<Frame>, frame: Frame)
    ensures FramesEffects(frames + [frame]) == FramesEffects(frames) + Effects(frame.items)
  {
    assert (frames + [frame])[..|frames + [frame]| - 1] == frames;
  }

  lemma OneFrame(frames: seq<Frame>)
    requires frames != []
    ensures FramesEffects(frames[..1]) == Effects(frames[0].items)
  {
    FramesSnoc([], frames[0]);
    HeadAndTail(Effects(frames[0].items));
    assert frames[..1] == [] + [frames[0]];
  }

  lemma AddItemsEffects(frames: seq<Frame>, items: seq<Item>, added: seq<Statement>)
    requires frames != []
    requires Effects(frames[|frames| - 1].items + items) == Effects(frames[|frames| - 1].items) + added
    ensures FramesEffects(AddItems(frames, items)) == FramesEffects(frames) + added
  {
    var rest, last := frames[..|frames| - 1], frames[|frames| - 1];
    FramesSnoc(rest, Frame(last.id, last.items + items));
    ConcatAssociative(FramesEffects(rest), Effects(last.items), added);
  }

  lemma ReplaySnoc(history: seq<Unit>, u: Unit)
    ensures Replay(history + [u]) == Replay(history) + UnitEffects(u)
    ensures Due(history + [u]) == Due(history) + UnitNotice(u)
  {
    assert (history + [u])[..|history + [u]| - 1] == history;
  }

  // ----- calls on the gate

  lemma EnqueueKeepsGate(b: Broker, history: seq<Unit>, call: Call)
    requires GateInv(b, history)
    ensures GateInv(Enqueue(b, call), history)
  {
    var b' := Enqueue(b, call);
    assert forall i :: 0 <= i < |b.queue| ==> b'.queue[i] == b.queue[i];
  }

  lemma EnqueueKeepsQueue(b: Broker, t: Trace, call: Call)
    requires QueueInv(b, t.frames) && RunningInv(b, t.frames) && StackInv(t) && RecordsInv(b, t.ledger)
    requires call.Root? ==> FreshId(b, call.id)
    ensures QueueInv(Enqueue(b, call), t.frames) && RunningInv(Enqueue(b, call), t.frames)
  {
    var b' := Enqueue(b, call);
    assert forall i :: 0 <= i < |b.queue| ==> b'.queue[i] == b.queue[i];
    if call.Root? {
      forall j | 0 <= j < |t.frames| ensures t.frames[j].id != call.id {
        assert ParentBelow(t, j) && RecordOf(b, t.ledger, t.frames[j].id);
      }
    }
  }

  lemma SameRecords(b: Broker, b': Broker, ledger: map<nat, Account>)
    requires RecordsInv(b, ledger) && b'.transactions == b.transactions
    requires b.queue != [] ==> b'.queue != [] && b'.queue[0] == b.queue[0]
    ensures RecordsInv(b', ledger)
  {
    forall id | id in ledger ensures RecordOf(b', ledger, id) { assert RecordOf(b, ledger, id); }
  }

  lemma EnqueueKeepsInv(s: System, call: Call)
    requires Inv(s) && (call.Root? ==> FreshId(s.broker, call.id))
    ensures Inv(System(Enqueue(s.broker, call), s.trace))
  {
    EnqueueKeepsGate(s.broker, s.trace.history, call);
    EnqueueKeepsQueue(s.broker, s.trace, call);
    SameRecords(s.broker, Enqueue(s.broker, call), s.trace.ledger);
  }

  lemma LedgerIsOpen(t: Trace, id: nat)
    requires StackInv(t) && id in t.ledger
    ensures t.frames != []
  {
    assert IsOpen(t, id);
  }

  lemma NothingOpen(s: System)
    requires Inv(s) && s.trace.frames == []
    ensures s.trace.ledger == map[] && s.broker.transactions == map[]
  {
    forall id ensures id !in s.trace.ledger {
      if id in s.trace.ledger { LedgerIsOpen(s.trace, id); }
    }
  }

  lemma GateMovesOn(b: Broker, history: seq<Unit>, u: Unit, frames: seq<Frame>)
    requires GateInv(b, history) && b.queue != [] && u.number == b.queue[0].number && QueueInv(b, frames)
    ensures GateInv(ReleaseGate(b), history + [u]) && GateInv(ReleaseGate(b), history)
    ensures QueueInv(ReleaseGate(b), [])
  {
    var b' := ReleaseGate(b);
    assert forall i :: 0 <= i < |b'.queue| ==> b'.queue[i] == b.queue[i + 1];
  }

  lemma AutoRuns(s: System)
    requires Inv(s) && s.broker.queue != [] && !s.broker.running && s.broker.queue[0].call.Auto?
    ensures Inv(Step(s, GrantAuto(true)))
    ensures s.broker.transactions == map[] && s.broker.worker.view.None?
  {
    NothingOpen(s);
    var head := s.broker.queue[0];
    var u := AutoUnit(head.number, head.call.owner, head.call.statement);
    var s' := Step(s, GrantAuto(true));
    assert s'.trace == Trace(s.trace.history + [u], [], map[]);
    assert s'.broker == ReleaseGate(s.broker).(notices := s.broker.notices + UnitNotice(u),
                          worker := s.broker.worker.(durable := s.broker.worker.durable + UnitEffects(u)));
    GateMovesOn(s.broker, s.trace.history, u, []);
    ReplaySnoc(s.trace.history, u);
  }

  lemma GrantFails(s: System)
    requires Inv(s) && s.broker.queue != [] && !s.broker.running
    ensures Inv(System(ReleaseGate(s.broker), s.trace))
  {
    NothingOpen(s);
    GateMovesOn(s.broker, s.trace.history, AutoUnit(s.broker.queue[0].number, 0, Statement(0, false)), []);
  }

  lemma GrantAutoKeepsInv(s: System, ok: bool)
    requires Inv(s)
    ensures Inv(Step(s, GrantAuto(ok)))
  {
    if s.broker.queue != [] && !s.broker.running && s.broker.queue[0].call.Auto? {
      if ok { AutoRuns(s); } else { GrantFails(s); }
    }
  }

  lemma GrantBeginKeepsInv(s: System, ok: bool)
    requires Inv(s)
    ensures Inv(Step(s, GrantBegin(ok)))
  {
    var b, t := s.broker, s.trace;
    if b.queue != [] && !b.running && b.queue[0].call.Root? {
      NothingOpen(s);
      if ok { RootOpens(s); } else { GrantFails(s); }
    }
  }

  lemma RootOpens(s: System)
    requires Inv(s) && s.broker.queue != [] && !s.broker.running && s.broker.queue[0].call.Root?
    ensures Inv(Step(s, GrantBegin(true)))
    ensures Step(s, GrantBegin(true)).broker ==
              s.broker.(running := true, worker := s.broker.worker.(view := Some(s.broker.worker.durable)),
                        transactions := map[s.broker.queue[0].call.id := Transaction(s.broker.queue[0].call.owner, None, false)])
  {
    NothingOpen(s);
    var s' := Step(s, GrantBegin(true));
    RootFields(s.broker, s.trace);
    RootWorker(s.broker.worker, s.trace, s'.broker.worker, s'.trace, s.broker.queue[0].call.id);
    RootStack(s'.trace, s.broker.queue[0].call.id);
    assert RecordOf(s'.broker, s'.trace.ledger, s.broker.queue[0].call.id);
  }

  lemma RootFields(b: Broker, t: Trace)
    requires b.queue != [] && !b.running && b.queue[0].call.Root? && b.worker.view.None? && b.worker.savepoints == []
    requires b.transactions == map[]
    ensures var call := b.queue[0].call;
            && AfterGrantBegin(b, true) ==
                 b.(running := true, worker := b.worker.(view := Some(b.worker.durable)),
                    transactions := map[call.id := Transaction(call.owner, None, false)])
            && TraceStep(b, t, GrantBegin(true)) ==
                 t.(frames := [Frame(call.id, [])], ledger := map[call.id := Account(None, [])])
  {}

  lemma RootWorker(w: Worker, t: Trace, w': Worker, t': Trace, id: nat)
    requires WorkerInv(w, t) && t.frames == [] && t'.history == t.history && t'.frames == [Frame(id, [])]
    requires w' == w.(view := Some(w.durable))
    ensures WorkerInv(w', t')
  {
    FramesSnoc([], Frame(id, []));
    HeadAndTail([Frame(id, [])]);
    HeadAndTail(Replay(t.history));
  }

  lemma RootStack(t: Trace, id: nat)
    requires t.frames == [Frame(id, [])] && t.ledger == map[id := Account(None, [])]
    ensures StackInv(t)
  {
    assert ParentBelow(t, 0);
    assert t.frames[0].id == id && IsOpen(t, id);
  }

  // ----- calls inside a transaction

  lemma Opened(s: System, owner: nat, id: nat)
    requires Inv(s) && Valid(s.broker, owner, id)
    ensures s.trace.frames != [] && id in s.trace.ledger && IsOpen(s.trace, id)
    ensures RecordOf(s.broker, s.trace.ledger, id)
    ensures s.broker.running && s.broker.queue != [] && s.broker.queue[0].call.owner == owner
  {
    assert RecordOf(s.broker, s.trace.ledger, id) && IsOpen(s.trace, id);
  }

  lemma RunKeepsSavepoints(w: Worker, t: Trace, t': Trace, added: seq<Statement>)
    requires WorkerInv(w, t) && |t'.frames| == |t.frames| && t.frames != [] && t'.history == t.history
    requires forall i :: 0 <= i < |t.frames| ==> t'.frames[i].id == t.frames[i].id
    requires forall i :: 0 <= i < |t.frames| - 1 ==> t'.frames[i] == t.frames[i]
    ensures forall i :: 0 <= i < |w.savepoints| ==> SavepointOf(Execute(w, added), t', i)
  {
    forall i | 0 <= i < |w.savepoints| ensures SavepointOf(Execute(w, added), t', i) {
      assert SavepointOf(w, t, i) && t'.frames[..i + 1] == t.frames[..i + 1];
    }
  }

  /** Running statements under the innermost savepoint, whichever transaction runs them. */
  lemma RunKeepsWorker(w: Worker, t: Trace, id: nat, items: seq<Item>, added: seq<Statement>)
    requires WorkerInv(w, t) && t.frames != []
    requires Effects(t.frames[|t.frames| - 1].items + items) == Effects(t.frames[|t.frames| - 1].items) + added
    ensures WorkerInv(Execute(w, added), RunItems(t, id, items))
  {
    AddItemsEffects(t.frames, items, added);
    ConcatAssociative(Replay(t.history), FramesEffects(t.frames), added);
    RunKeepsSavepoints(w, t, RunItems(t, id, items), added);
  }

  /** The stack only depends on ids and parents. */
  lemma SameStack(t: Trace, t': Trace)
    requires StackInv(t) && |t'.frames| == |t.frames| && t'.ledger.Keys == t.ledger.Keys
    requires forall i :: 0 <= i < |t.frames| ==> t'.frames[i].id == t.frames[i].id
    requires forall id :: id in t.ledger ==> t'.ledger[id].parent == t.ledger[id].parent
    ensures StackInv(t')
  {
    forall i | 0 <= i < |t'.frames| ensures ParentBelow(t', i) {
      assert ParentBelow(t, i);
      if i > 0 {
        var j :| 0 <= j < i && t.ledger[t.frames[i].id].parent == Some(t.frames[j].id);
        assert t'.ledger[t'.frames[i].id].parent == Some(t'.frames[j].id);
      }
    }
    forall id | id in t'.ledger ensures IsOpen(t', id) {
      assert IsOpen(t, id);
      var i :| 0 <= i < |t.frames| && t.frames[i].id == id;
      assert t'.frames[i].id == id;
    }
  }

  lemma NoteKeepsRecords(b: Broker, b': Broker, ledger: map<nat, Account>, id: nat, items: seq<Item>, noted: bool)
    requires RecordsInv(b, ledger) && id in ledger && b'.queue == b.queue
    requires Noted(ledger[id].items + items) <==> Noted(ledger[id].items) || noted
    requires id in b.transactions
    requires b'.transactions == b.transactions[id := b.transactions[id].(dirty := b.transactions[id].dirty || noted)]
    ensures RecordsInv(b', Note(ledger, id, items))
  {
    var ledger' := Note(ledger, id, items);
    forall key | key in ledger' ensures RecordOf(b', ledger', key) { assert RecordOf(b, ledger, key); }
  }

  /** A call that runs statements in an open transaction and marks it when `noted`. */
  lemma RunIn(s: System, s': System, owner: nat, id: nat, items: seq<Item>, added: seq<Statement>, noted: bool)
    requires Inv(s) && Valid(s.broker, owner, id) && s.trace.frames != [] && id in s.trace.ledger
    requires var last := s.trace.frames[|s.trace.frames| - 1];
             Effects(last.items + items) == Effects(last.items) + added
    requires var own := s.trace.ledger[id]; Noted(own.items + items) <==> Noted(own.items) || noted
    requires s'.trace == RunItems(s.trace, id, items)
    requires s'.broker == s.broker.(worker := Execute(s.broker.worker, added),
                transactions := s.broker.transactions[id := s.broker.transactions[id].(dirty := s.broker.transactions[id].dirty || noted)])
    ensures Inv(s')
  {
    RunKeepsWorker(s.broker.worker, s.trace, id, items, added);
    NoteKeepsRecords(s.broker, s'.broker, s.trace.ledger, id, items, noted);
    RunItemsShape(s.trace, id, items);
    SameStack(s.trace, s'.trace);
    SameIdsKeepGate(s, s');
  }

  lemma RunItemsShape(t: Trace, id: nat, items: seq<Item>)
    requires t.frames != [] && id in t.ledger
    ensures var t' := RunItems(t, id, items);
            && |t'.frames| == |t.frames| && t'.history == t.history && t'.ledger.Keys == t.ledger.Keys
            && (forall i :: 0 <= i < |t.frames| ==> t'.frames[i].id == t.frames[i].id)
            && (forall key :: key in t.ledger ==> t'.ledger[key].parent == t.ledger[key].parent)
            && t'.ledger == Note(t.ledger, id, items)
  {}

  lemma SameIdsKeepGate(s: System, s': System)
    requires GateInv(s.broker, s.trace.history) && QueueInv(s.broker, s.trace.frames) && RunningInv(s.broker, s.trace.frames)
    requires s'.broker.queue == s.broker.queue && s'.broker.next == s.broker.next && s'.broker.running == s.broker.running
    requires s'.trace.history == s.trace.history && 0 < |s'.trace.frames| <= |s.trace.frames|
    requires forall i :: 0 <= i < |s'.trace.frames| ==> s'.trace.frames[i].id == s.trace.frames[i].id
    ensures GateInv(s'.broker, s'.trace.history) && QueueInv(s'.broker, s'.trace.frames) && RunningInv(s'.broker, s'.trace.frames)
  {}

  lemma ExecuteFields(b: Broker, owner: nat, id: nat, statement: Statement)
    requires Valid(b, owner, id)
    ensures AfterExecuteIn(b, owner, id, statement, true) ==
              b.(worker := Execute(b.worker, [statement]),
                 transactions := b.transactions[id := b.transactions[id].(dirty := b.transactions[id].dirty || statement.mutates)])
  {
    assert b.transactions[id := b.transactions[id]] == b.transactions;
  }

  lemma RunTrace(s: System, owner: nat, id: nat, statement: Statement)
    requires s.trace.frames != [] && Valid(s.broker, owner, id) && s.broker.queue != []
    ensures Step(s, ExecuteIn(owner, id, statement, true)) ==
              System(AfterExecuteIn(s.broker, owner, id, statement, true), RunItems(s.trace, id, [Ran(statement, true)]))
  {}

  lemma ExecuteInKeepsInv(s: System, owner: nat, id: nat, statement: Statement, ok: bool)
    requires Inv(s)
    ensures Inv(Step(s, ExecuteIn(owner, id, statement, ok)))
  {
    if Valid(s.broker, owner, id) && ok {
      Opened(s, owner, id);
      EffectsSnoc(s.trace.frames[|s.trace.frames| - 1].items, Ran(statement, true));
      EffectsSnoc(s.trace.ledger[id].items, Ran(statement, true));
      ExecuteFields(s.broker, owner, id, statement);
      RunTrace(s, owner, id, statement);
      RunIn(s, Step(s, ExecuteIn(owner, id, statement, ok)), owner, id, [Ran(statement, true)], [statement], statement.mutates);
    }
  }

  lemma BatchFields(b: Broker, owner: nat, id: nat, rows: seq<nat>, applied: nat)
    requires Valid(b, owner, id)
    ensures var n := |BatchItems(rows, applied)|;
            AfterBatchIn(b, owner, id, rows, applied) ==
              b.(worker := Execute(b.worker, BatchStatements(rows[..n])),
                 transactions := b.transactions[id := b.transactions[id].(dirty :=
                                   b.transactions[id].dirty || (n == |rows| && rows != []))])
  {
    assert b.transactions[id := b.transactions[id]] == b.transactions;
  }

  lemma BatchInKeepsInv(s: System, owner: nat, id: nat, rows: seq<nat>, applied: nat)
    requires Inv(s)
    ensures Inv(Step(s, BatchIn(owner, id, rows, applied)))
  {
    if Valid(s.broker, owner, id) {
      Opened(s, owner, id);
      var items := BatchItems(rows, applied);
      BatchRun(s.trace.frames[|s.trace.frames| - 1].items, rows, applied);
      BatchRun(s.trace.ledger[id].items, rows, applied);
      BatchFields(s.broker, owner, id, rows, applied);
      RunIn(s, Step(s, BatchIn(owner, id, rows, applied)), owner, id, items, BatchStatements(rows[..|items|]),
            |items| == |rows| && rows != []);
    }
  }

  // ----- savepoints

  lemma PushKeepsWorker(w: Worker, t: Trace, t': Trace, id: nat)
    requires WorkerInv(w, t) && t.frames != []
    requires t'.history == t.history && t'.frames == t.frames + [Frame(id, [])]
    ensures OpenSavepoint(w, id).Some? && WorkerInv(OpenSavepoint(w, id).value, t')
  {
    var w' := OpenSavepoint(w, id).value;
    FramesSnoc(t.frames, Frame(id, []));
    HeadAndTail(FramesEffects(t.frames));
    assert t'.frames[..|t.frames|] == t.frames;
    forall i | 0 <= i < |w'.savepoints| ensures SavepointOf(w', t', i) {
      if i < |w.savepoints| { assert SavepointOf(w, t, i) && t'.frames[..i + 1] == t.frames[..i + 1]; }
    }
  }

  lemma PushKeepsStack(t: Trace, t': Trace, parent: nat, id: nat)
    requires StackInv(t) && parent in t.ledger && id !in t.ledger
    requires t'.frames == t.frames + [Frame(id, [])] && t'.ledger == t.ledger[id := Account(Some(parent), [])]
    ensures StackInv(t')
  {
    var n := |t.frames|;
    assert IsOpen(t, parent);
    var p :| 0 <= p < n && t.frames[p].id == parent;
    forall i | 0 <= i < |t'.frames| ensures ParentBelow(t', i) {
      if i < n {
        assert ParentBelow(t, i);
        PushedParent(t, t', id, i);
      } else {
        assert t'.ledger[id].parent == Some(t'.frames[p].id);
      }
    }
    forall i | 0 <= i < n ensures t.frames[i].id != id { assert ParentBelow(t, i); }
    forall key | key in t'.ledger ensures IsOpen(t', key) {
      if key == id { assert t'.frames[n].id == id; } else { OpenStays(t, t', key); }
    }
  }

  lemma PushedParent(t: Trace, t': Trace, id: nat, i: nat)
    requires i < |t.frames| && ParentBelow(t, i) && id !in t.ledger && t.frames <= t'.frames
    requires forall key :: key in t.ledger ==> key in t'.ledger && t'.ledger[key] == t.ledger[key]
    ensures ParentBelow(t', i)
  {
    if i > 0 {
      var j :| 0 <= j < i && t.ledger[t.frames[i].id].parent == Some(t.frames[j].id);
      assert t'.ledger[t'.frames[i].id].parent == Some(t'.frames[j].id);
    }
  }

  lemma OpenStays(t: Trace, t': Trace, id: nat)
    requires t.frames <= t'.frames && id in t.ledger && IsOpen(t, id)
    ensures IsOpen(t', id)
  {
    var i :| 0 <= i < |t.frames| && t.frames[i].id == id;
    assert t'.frames[i].id == id;
  }

  lemma PushKeepsRecords(b: Broker, b': Broker, ledger: map<nat, Account>, parent: nat, id: nat)
    requires RecordsInv(b, ledger) && b.queue != [] && b'.queue == b.queue && id !in ledger
    requires b'.transactions == b.transactions[id := Transaction(b.queue[0].call.owner, Some(parent), false)]
    ensures RecordsInv(b', ledger[id := Account(Some(parent), [])])
  {
    var ledger' := ledger[id := Account(Some(parent), [])];
    forall key | key in ledger' ensures RecordOf(b', ledger', key) {
      if key != id { assert RecordOf(b, ledger, key); }
    }
  }

  lemma LedgerIsRecorded(b: Broker, ledger: map<nat, Account>)
    requires RecordsInv(b, ledger)
    ensures forall id :: id in ledger <==> id in b.transactions
  {
    forall id | id in ledger ensures id in b.transactions { assert RecordOf(b, ledger, id); }
  }

  lemma PushKeepsGate(s: System, s': System, id: nat)
    requires GateInv(s.broker, s.trace.history) && QueueInv(s.broker, s.trace.frames) && RunningInv(s.broker, s.trace.frames)
    requires s'.broker.queue == s.broker.queue && s'.broker.next == s.broker.next && s'.broker.running == s.broker.running
    requires s'.trace.history == s.trace.history && s'.trace.frames == s.trace.frames + [Frame(id, [])] && s.trace.frames != []
    requires FreshId(s.broker, id)
    ensures GateInv(s'.broker, s'.trace.history) && QueueInv(s'.broker, s'.trace.frames) && RunningInv(s'.broker, s'.trace.frames)
  {}

  lemma BeginInKeepsInv(s: System, owner: nat, parent: nat, id: nat, ok: bool)
    requires Inv(s) && FreshId(s.broker, id)
    ensures Inv(Step(s, BeginIn(owner, parent, id, ok)))
  {
    if Valid(s.broker, owner, parent) && ok {
      var s' := Step(s, BeginIn(owner, parent, id, ok));
      Opened(s, owner, parent);
      LedgerIsRecorded(s.broker, s.trace.ledger);
      PushKeepsWorker(s.broker.worker, s.trace, s'.trace, id);
      PushKeepsStack(s.trace, s'.trace, parent, id);
      PushKeepsRecords(s.broker, s'.broker, s.trace.ledger, parent, id);
      PushKeepsGate(s, s', id);
    }
  }

  lemma InnermostSavepoint(w: Worker, t: Trace)
    requires WorkerInv(w, t) && |t.frames| >= 2
    ensures var n, last := |w.savepoints|, t.frames[|t.frames| - 1];
            && n == |t.frames| - 1 && w.view.Some?
            && Find(w.savepoints, last.id) == Some(n - 1)
            && w.savepoints[n - 1].snapshot == Replay(t.history) + FramesEffects(t.frames[..n])
            && FramesEffects(t.frames) == FramesEffects(t.frames[..n]) + Effects(last.items)
  {
    assert SavepointOf(w, t, |w.savepoints| - 1);
  }

  lemma PopKeepsSavepoints(w: Worker, w': Worker, t: Trace, t': Trace)
    requires WorkerInv(w, t) && |t.frames| >= 2 && w'.savepoints == w.savepoints[..|w.savepoints| - 1]
    requires |t'.frames| == |t.frames| - 1 && t'.history == t.history
    requires forall i :: 0 <= i < |t'.frames| ==> t'.frames[i].id == t.frames[i].id
    requires forall i :: 0 <= i < |t'.frames| - 1 ==> t'.frames[i] == t.frames[i]
    ensures forall i :: 0 <= i < |w'.savepoints| ==> SavepointOf(w', t', i)
  {
    forall i | 0 <= i < |w'.savepoints| ensures SavepointOf(w', t', i) {
      assert SavepointOf(w, t, i) && t'.frames[..i + 1] == t.frames[..i + 1];
    }
  }

  lemma PopEffects(frames: seq<Frame>, commit: bool)
    requires |frames| >= 2
    ensures var rest, last := frames[..|frames| - 1], frames[|frames| - 1];
            FramesEffects(AddItems(rest, [Wrapped(last.items, commit)])) ==
              if commit then FramesEffects(frames) else FramesEffects(rest)
  {
    var rest, last := frames[..|frames| - 1], frames[|frames| - 1];
    var item := Wrapped(last.items, commit);
    EffectsSnoc(rest[|rest| - 1].items, item);
    AddItemsEffects(rest, [item], EffectOf(item));
    HeadAndTail(FramesEffects(rest));
  }

  lemma PoppedFields(w: Worker, t: Trace, commit: bool)
    requires WorkerInv(w, t) && |t.frames| >= 2
    ensures var id, rest := t.frames[|t.frames| - 1].id, t.frames[..|t.frames| - 1];
            var popped := if commit then Release(w, id) else RollbackSavepoint(w, id);
            && |w.savepoints| == |t.frames| - 1 && popped.Some?
            && popped.value == Worker(w.durable, Some(Replay(t.history) + FramesEffects(if commit then t.frames else rest)),
                                      w.savepoints[..|w.savepoints| - 1])
  {
    InnermostSavepoint(w, t);
  }

  lemma PoppedView(w': Worker, t: Trace, t': Trace, commit: bool)
    requires |t.frames| >= 2 && t'.history == t.history && |w'.savepoints| == |t.frames| - 2
    requires var rest, last := t.frames[..|t.frames| - 1], t.frames[|t.frames| - 1];
             t'.frames == AddItems(rest, [Wrapped(last.items, commit)]) &&
             w'.view == Some(Replay(t.history) + FramesEffects(if commit then t.frames else rest))
    requires w'.durable == Replay(t.history) && forall i :: 0 <= i < |w'.savepoints| ==> SavepointOf(w', t', i)
    ensures WorkerInv(w', t')
  {
    PopEffects(t.frames, commit);
  }

  /** Releasing the innermost savepoint keeps its effects, rolling it back removes them. */
  lemma PopKeepsWorker(w: Worker, t: Trace, t': Trace, commit: bool)
    requires WorkerInv(w, t) && |t.frames| >= 2 && t'.history == t.history
    requires var rest, last := t.frames[..|t.frames| - 1], t.frames[|t.frames| - 1];
             t'.frames == AddItems(rest, [Wrapped(last.items, commit)])
    ensures var id := t.frames[|t.frames| - 1].id;
            var popped := if commit then Release(w, id) else RollbackSavepoint(w, id);
            popped.Some? && WorkerInv(popped.value, t')
  {
    var id := t.frames[|t.frames| - 1].id;
    var popped := if commit then Release(w, id) else RollbackSavepoint(w, id);
    PoppedFields(w, t, commit);
    AddedIds(t.frames[..|t.frames| - 1], [Wrapped(t.frames[|t.frames| - 1].items, commit)]);
    PopKeepsSavepoints(w, popped.value, t, t');
    PoppedView(popped.value, t, t', commit);
  }

  lemma AddedIds(frames: seq<Frame>, items: seq<Item>)
    requires frames != []
    ensures var frames' := AddItems(frames, items);
            && |frames'| == |frames|
            && (forall i :: 0 <= i < |frames| ==> frames'[i].id == frames[i].id)
            && (forall i :: 0 <= i < |frames| - 1 ==> frames'[i] == frames[i])
  {}

  lemma PopKeepsStack(t: Trace, t': Trace, id: nat)
    requires StackInv(t) && |t.frames| >= 2 && t.frames[|t.frames| - 1].id == id && |t'.frames| == |t.frames| - 1
    requires forall i :: 0 <= i < |t'.frames| ==> t'.frames[i].id == t.frames[i].id
    requires forall key :: key in t'.ledger <==> key in t.ledger && key != id
    requires forall key :: key in t'.ledger ==> t'.ledger[key].parent == t.ledger[key].parent
    ensures StackInv(t')
  {
    forall i | 0 <= i < |t'.frames| ensures ParentBelow(t', i) {
      assert ParentBelow(t, i);
      assert t.frames[i].id != id;
      if i > 0 {
        var j :| 0 <= j < i && t.ledger[t.frames[i].id].parent == Some(t.frames[j].id);
        assert t'.ledger[t'.frames[i].id].parent == Some(t'.frames[j].id);
      }
    }
    forall key | key in t'.ledger ensures IsOpen(t', key) {
      assert IsOpen(t, key);
      var i :| 0 <= i < |t.frames| && t.frames[i].id == key;
      assert t'.frames[i].id == key;
    }
  }

  lemma PopKeepsRecords(b: Broker, b': Broker, ledger: map<nat, Account>, parent: nat, id: nat, item: Item)
    requires RecordsInv(b, ledger) && parent in ledger && id in ledger && parent != id && b'.queue == b.queue
    requires parent in b.transactions
    requires b'.transactions == (b.transactions[parent := b.transactions[parent].(dirty :=
                                   b.transactions[parent].dirty || NotedItem(item))]) - {id}
    ensures RecordsInv(b', Note(ledger, parent, [item]) - {id})
  {
    EffectsSnoc(ledger[parent].items, item);
    var ledger' := Note(ledger, parent, [item]) - {id};
    forall key | key in ledger' ensures RecordOf(b', ledger', key) { assert RecordOf(b, ledger, key); }
  }

  /** The innermost transaction and its parent. */
  lemma InnermostParent(s: System, owner: nat, id: nat) returns (parent: nat)
    requires Inv(s) && Valid(s.broker, owner, id) && Innermost(s.trace, id) && |s.trace.frames| >= 2
    ensures parent != id && parent in s.trace.ledger && id in s.trace.ledger && s.broker.queue != []
    ensures Valid(s.broker, owner, parent)
    ensures s.trace.ledger[id].parent == Some(parent) == s.broker.transactions[id].parent
    ensures s.broker.transactions[id].dirty == Noted(s.trace.ledger[id].items)
  {
    Opened(s, owner, id);
    var t, n := s.trace, |s.trace.frames|;
    assert ParentBelow(t, n - 1);
    var j :| 0 <= j < n - 1 && t.ledger[id].parent == Some(t.frames[j].id);
    parent := t.frames[j].id;
    assert ParentBelow(t, j) && RecordOf(s.broker, t.ledger, parent);
  }

  /** The broker after the innermost transaction has gone into its parent. */
  function Popped(b: Broker, worker: Worker, parent: nat, id: nat, noted: bool): Broker
    requires parent in b.transactions
  {
    var dirtied := b.transactions[parent].(dirty := b.transactions[parent].dirty || noted);
    b.(worker := worker, transactions := b.transactions[parent := dirtied] - {id})
  }

  lemma FinishNestedFields(b: Broker, owner: nat, id: nat, parent: nat, ok: bool)
    requires Valid(b, owner, id) && b.transactions[id].parent == Some(parent) && Valid(b, owner, parent) && parent != id
    requires Release(b.worker, id).Some?
    ensures AfterFinish(b, owner, id, ok) == Popped(b, Release(b.worker, id).value, parent, id, b.transactions[id].dirty)
  {
    assert b.transactions[parent := b.transactions[parent]] == b.transactions;
  }

  lemma UndoNestedFields(b: Broker, owner: nat, id: nat, parent: nat)
    requires Valid(b, owner, id) && b.transactions[id].parent == Some(parent) && parent in b.transactions
    requires RollbackSavepoint(b.worker, id).Some?
    ensures AfterUndo(b, owner, id) == Popped(b, RollbackSavepoint(b.worker, id).value, parent, id, false)
  {
    assert b.transactions[parent := b.transactions[parent]] == b.transactions;
  }

  lemma NestedCloses(t: Trace, number: nat, owner: nat, id: nat, parent: nat, commit: bool)
    requires |t.frames| >= 2 && id in t.ledger && t.ledger[id].parent == Some(parent)
    ensures var rest, last := t.frames[..|t.frames| - 1], t.frames[|t.frames| - 1];
            Close(t, number, owner, id, commit) ==
              t.(frames := AddItems(rest, [Wrapped(last.items, commit)]),
                 ledger := Note(t.ledger, parent, [Wrapped(t.ledger[id].items, commit)]) - {id})
  {}

  lemma NestedShape(t: Trace, t': Trace, id: nat, parent: nat, commit: bool)
    requires |t.frames| >= 2 && id in t.ledger && parent in t.ledger && parent != id
    requires var rest, last := t.frames[..|t.frames| - 1], t.frames[|t.frames| - 1];
             t' == t.(frames := AddItems(rest, [Wrapped(last.items, commit)]),
                      ledger := Note(t.ledger, parent, [Wrapped(t.ledger[id].items, commit)]) - {id})
    ensures |t'.frames| == |t.frames| - 1 && t'.history == t.history
    ensures forall i :: 0 <= i < |t'.frames| ==> t'.frames[i].id == t.frames[i].id
    ensures forall i :: 0 <= i < |t'.frames| - 1 ==> t'.frames[i] == t.frames[i]
    ensures forall key :: key in t'.ledger <==> key in t.ledger && key != id
    ensures forall key :: key in t'.ledger ==> t'.ledger[key].parent == t.ledger[key].parent
  {}

  lemma ClosedKeepsInv(s: System, s': System, owner: nat, id: nat, parent: nat, commit: bool)
    requires Inv(s) && |s.trace.frames| >= 2 && s.trace.frames[|s.trace.frames| - 1].id == id
    requires id in s.trace.ledger && parent in s.trace.ledger && parent != id && parent in s.broker.transactions
    requires s.trace.ledger[id].parent == Some(parent)
    requires s'.trace == Close(s.trace, s.broker.queue[0].number, owner, id, commit)
    requires var popped := if commit then Release(s.broker.worker, id) else RollbackSavepoint(s.broker.worker, id);
             popped.Some? &&
             s'.broker == Popped(s.broker, popped.value, parent, id, NotedItem(Wrapped(s.trace.ledger[id].items, commit)))
    ensures Inv(s')
  {
    NestedCloses(s.trace, s.broker.queue[0].number, owner, id, parent, commit);
    NestedShape(s.trace, s'.trace, id, parent, commit);
    PopKeepsWorker(s.broker.worker, s.trace, s'.trace, commit);
    PopKeepsStack(s.trace, s'.trace, id);
    PopKeepsRecords(s.broker, s'.broker, s.trace.ledger, parent, id, Wrapped(s.trace.ledger[id].items, commit));
    SameIdsKeepGate(s, s');
  }

  lemma SavepointThere(s: System, id: nat)
    requires Inv(s) && |s.trace.frames| >= 2 && s.trace.frames[|s.trace.frames| - 1].id == id
    ensures Release(s.broker.worker, id).Some? && RollbackSavepoint(s.broker.worker, id).Some?
  {
    InnermostSavepoint(s.broker.worker, s.trace);
  }

  lemma CloseTrace(s: System, owner: nat, id: nat, ok: bool)
    requires s.trace.frames != [] && id in s.trace.ledger && Valid(s.broker, owner, id) && s.broker.queue != []
    ensures Step(s, Finish(owner, id, ok)) ==
              System(AfterFinish(s.broker, owner, id, ok), Close(s.trace, s.broker.queue[0].number, owner, id, true))
    ensures Step(s, Undo(owner, id)) ==
              System(AfterUndo(s.broker, owner, id), Close(s.trace, s.broker.queue[0].number, owner, id, false))
  {}

  lemma FinishNestedKeepsInv(s: System, owner: nat, id: nat, ok: bool)
    requires Inv(s) && Valid(s.broker, owner, id) && Innermost(s.trace, id) && |s.trace.frames| >= 2
    ensures Inv(Step(s, Finish(owner, id, ok)))
  {
    var parent := InnermostParent(s, owner, id);
    SavepointThere(s, id);
    FinishNestedFields(s.broker, owner, id, parent, ok);
    CloseTrace(s, owner, id, ok);
    ClosedKeepsInv(s, Step(s, Finish(owner, id, ok)), owner, id, parent, true);
  }

  lemma UndoNestedKeepsInv(s: System, owner: nat, id: nat)
    requires Inv(s) && Valid(s.broker, owner, id) && Innermost(s.trace, id) && |s.trace.frames| >= 2
    ensures Inv(Step(s, Undo(owner, id)))
  {
    var parent := InnermostParent(s, owner, id);
    SavepointThere(s, id);
    UndoNestedFields(s.broker, owner, id, parent);
    CloseTrace(s, owner, id, true);
    ClosedKeepsInv(s, Step(s, Undo(owner, id)), owner, id, parent, false);
  }

  // ----- the end of a root transaction

  /** The gate passes on once the root is finished, whatever its outcome. */
  lemma EndRoot(s: System, s': System, u: Unit)
    requires Inv(s) && s.trace.frames != [] && u.RootUnit?
    requires u.number == s.broker.queue[0].number && u.owner == s.broker.queue[0].call.owner
    requires u.committed ==> |s.trace.frames| == 1 && u.items == s.trace.frames[0].items
    requires s'.trace == Trace(s.trace.history + [u], [], map[])
    requires s'.broker == ReleaseGate(s.broker).(transactions := map[], notices := s.broker.notices + UnitNotice(u),
               worker := Worker(if u.committed then s.broker.worker.view.value else s.broker.worker.durable, None, []))
    ensures Inv(s')
  {
    ReplaySnoc(s.trace.history, u);
    GateMovesOn(s.broker, s.trace.history, u, s.trace.frames);
    HeadAndTail(Replay(s.trace.history));
    if u.committed {
      OneFrame(s.trace.frames);
      assert s.trace.frames[..1] == s.trace.frames;
    }
  }

  lemma OnlyRoot(s: System, owner: nat, id: nat)
    requires Inv(s) && Valid(s.broker, owner, id) && Innermost(s.trace, id) && |s.trace.frames| == 1
    ensures s.broker.transactions - {id} == map[] && s.broker.worker.view.Some?
    ensures id in s.trace.ledger && s.broker.queue != [] && s.broker.queue[0].call.owner == owner
    ensures s.broker.transactions[id] == Transaction(owner, None, Noted(s.trace.ledger[id].items))
  {
    Opened(s, owner, id);
    assert ParentBelow(s.trace, 0);
    forall key | key in s.broker.transactions ensures key == id { assert IsOpen(s.trace, key); }
  }

  lemma CloseRootFields(b: Broker, owner: nat, id: nat)
    requires Valid(b, owner, id) && b.transactions[id].parent == None && b.worker.view.Some? && b.transactions - {id} == map[]
    ensures AfterFinish(b, owner, id, true) ==
              ReleaseGate(b).(transactions := map[], notices := b.notices + (if b.transactions[id].dirty then [owner] else []),
                              worker := Worker(b.worker.view.value, None, []))
    ensures AfterUndo(b, owner, id) ==
              ReleaseGate(b).(transactions := map[], worker := Worker(b.worker.durable, None, []))
  {}

  lemma RootCloses(s: System, owner: nat, id: nat, commit: bool) returns (u: Unit)
    requires |s.trace.frames| == 1 && id in s.trace.ledger && Valid(s.broker, owner, id) && s.broker.queue != []
    ensures u == RootUnit(s.broker.queue[0].number, owner, s.trace.frames[0].items, s.trace.ledger[id].items, commit)
    ensures TraceStep(s.broker, s.trace, if commit then Finish(owner, id, true) else Undo(owner, id)) ==
              Trace(s.trace.history + [u], [], map[])
  {
    u := RootUnit(s.broker.queue[0].number, owner, s.trace.frames[0].items, s.trace.ledger[id].items, commit);
  }

  lemma CommitRootKeepsInv(s: System, owner: nat, id: nat)
    requires Inv(s) && Valid(s.broker, owner, id) && Innermost(s.trace, id) && |s.trace.frames| == 1
    ensures Inv(Step(s, Finish(owner, id, true)))
  {
    OnlyRoot(s, owner, id);
    CloseRootFields(s.broker, owner, id);
    var u := RootCloses(s, owner, id, true);
    EndRoot(s, Step(s, Finish(owner, id, true)), u);
  }

  lemma UndoRootKeepsInv(s: System, owner: nat, id: nat)
    requires Inv(s) && Valid(s.broker, owner, id) && Innermost(s.trace, id) && |s.trace.frames| == 1
    ensures Inv(Step(s, Undo(owner, id)))
  {
    OnlyRoot(s, owner, id);
    CloseRootFields(s.broker, owner, id);
    var u := RootCloses(s, owner, id, false);
    HeadAndTail(s.broker.notices);
    EndRoot(s, Step(s, Undo(owner, id)), u);
  }

  lemma OneOwner(s: System)
    requires Inv(s)
    ensures forall id :: id in s.broker.transactions ==>
              s.broker.queue != [] && s.broker.transactions[id].owner == s.broker.queue[0].call.owner
    ensures s.broker.running ==>
              && s.broker.queue != [] && s.broker.queue[0].call.Root?
              && Valid(s.broker, s.broker.queue[0].call.owner, s.broker.queue[0].call.id)
              && s.broker.transactions[s.broker.queue[0].call.id].parent == None
  {
    forall id | id in s.broker.transactions
      ensures s.broker.queue != [] && s.broker.transactions[id].owner == s.broker.queue[0].call.owner
    {
      assert RecordOf(s.broker, s.trace.ledger, id);
    }
    if s.broker.running {
      assert ParentBelow(s.trace, 0) && RecordOf(s.broker, s.trace.ledger, s.trace.frames[0].id);
    }
  }

  /** Cleaning up the owner that holds the gate ends its root; cleaning up another does nothing. */
  lemma CleanupFields(s: System, owner: nat)
    requires Inv(s)
    ensures AfterCleanup(s.broker, owner) ==
              if s.broker.running && s.broker.queue[0].call.owner == owner
              then ReleaseGate(s.broker).(transactions := map[], worker := Worker(s.broker.worker.durable, None, []))
              else s.broker
  {
    OneOwner(s);
    var b := s.broker;
    if b.running && b.queue[0].call.owner == owner {
      assert ForgetOwner(AfterUndo(b, owner, HeadId(b)), owner).transactions == map[];
    } else {
      if !b.running { NothingOpen(s); }
      assert ForgetOwner(b, owner).transactions == b.transactions;
    }
  }

  lemma CleanupTrace(s: System, owner: nat)
    requires Inv(s)
    ensures TraceStep(s.broker, s.trace, CleanupOwner(owner)) ==
              if s.broker.running && s.broker.queue[0].call.owner == owner
              then Trace(s.trace.history + [RootUnit(s.broker.queue[0].number, owner, s.trace.frames[0].items, [], false)], [], map[])
              else s.trace
  {
    OneOwner(s);
  }

  lemma CleanupKeepsInv(s: System, owner: nat)
    requires Inv(s)
    ensures Inv(Step(s, CleanupOwner(owner)))
  {
    CleanupFields(s, owner);
    CleanupTrace(s, owner);
    if s.broker.running && s.broker.queue[0].call.owner == owner {
      var u := RootUnit(s.broker.queue[0].number, owner, s.trace.frames[0].items, [], false);
      HeadAndTail(s.broker.notices);
      EndRoot(s, Step(s, CleanupOwner(owner)), u);
    }
  }

  lemma CloseKeepsInv(s: System, owner: nat, id: nat, e: Event)
    requires Inv(s) && Valid(s.broker, owner, id) && Innermost(s.trace, id)
    requires e == Undo(owner, id) || (e.Finish? && e.owner == owner && e.id == id && Disciplined(s, e))
    ensures Inv(Step(s, e))
  {
    if e.Finish? {
      if |s.trace.frames| > 1 {
        FinishNestedKeepsInv(s, owner, id, e.ok);
      } else {
        OnlyRoot(s, owner, id);
        CommitRootKeepsInv(s, owner, id);
      }
    } else {
      if |s.trace.frames| > 1 { UndoNestedKeepsInv(s, owner, id); } else { UndoRootKeepsInv(s, owner, id); }
    }
  }

  lemma StepKeepsInv(s: System, e: Event)
    requires Inv(s) && Disciplined(s, e)
    ensures Inv(Step(s, e))
  {
    match e
    case CallExecute(owner, statement) => EnqueueKeepsInv(s, Auto(owner, statement));
    case CallBegin(owner, id) => EnqueueKeepsInv(s, Root(owner, id));
    case GrantAuto(ok) => GrantAutoKeepsInv(s, ok);
    case GrantBegin(ok) => GrantBeginKeepsInv(s, ok);
    case ExecuteIn(owner, id, statement, ok) => ExecuteInKeepsInv(s, owner, id, statement, ok);
    case BatchIn(owner, id, rows, applied) => BatchInKeepsInv(s, owner, id, rows, applied);
    case BeginIn(owner, parent, id, ok) => BeginInKeepsInv(s, owner, parent, id, ok);
    case Finish(owner, id, ok) => if Valid(s.broker, owner, id) { CloseKeepsInv(s, owner, id, e); }
    case Undo(owner, id) => if Valid(s.broker, owner, id) { CloseKeepsInv(s, owner, id, e); }
    case CleanupOwner(owner) => CleanupKeepsInv(s, owner);
  }

  lemma {:induction false} RunKeepsInv(s: System, events: seq<Event>)
    requires Inv(s) && AllDisciplined(s, events)
    ensures Inv(Run(s, events))
    decreases |events|
  {
    if events != [] {
      StepKeepsInv(s, events[0]);
      RunKeepsInv(Step(s, events[0]), events[1..]);
    }
  }

  ghost predicate Reachable(s: System) {
    exists events :: AllDisciplined(START, events) && s == Run(START, events)
  }

  lemma ReachableInv(s: System)
    requires Reachable(s)
    ensures Inv(s)
  {
    var events :| AllDisciplined(START, events) && s == Run(START, events);
    RunKeepsInv(START, events);
  }
}
