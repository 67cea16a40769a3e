/** The order in which transactions close, and what becomes of a statement and of an owner that is gone. */
module BrokerOrder {
  import opened DatabaseWorker
  import opened DatabaseBroker
  import opened BrokerProofs
  import opened BrokerTheorems
  import opened Wrappers

  // ----- closing order

  predicate Nested(b: Broker, id: nat) {
    id in b.transactions && b.transactions[id].parent.Some?
  }

  /** Every nested transaction still has its savepoint. */
  ghost predicate SavepointsStand(b: Broker) {
    forall x :: Nested(b, x) ==> Find(b.worker.savepoints, x).Some?
  }

  lemma SavepointNames(s: System)
    requires Inv(s)
    ensures |s.broker.worker.savepoints| == if s.trace.frames == [] then 0 else |s.trace.frames| - 1
    ensures forall i :: 0 <= i < |s.broker.worker.savepoints| ==> s.broker.worker.savepoints[i].name == s.trace.frames[i + 1].id
    ensures forall i, j :: 0 <= i < j < |s.broker.worker.savepoints| ==>
              s.broker.worker.savepoints[i].name != s.broker.worker.savepoints[j].name
  {
    forall i | 0 <= i < |s.broker.worker.savepoints|
      ensures s.broker.worker.savepoints[i].name == s.trace.frames[i + 1].id
    {
      assert SavepointOf(s.broker.worker, s.trace, i);
    }
  }

  lemma FoundAt(savepoints: seq<Savepoint>, at: nat)
    requires at < |savepoints|
    requires forall i, j :: 0 <= i < j < |savepoints| ==> savepoints[i].name != savepoints[j].name
    ensures Find(savepoints, savepoints[at].name) == Some(at)
  {}

  /** A nested transaction and its savepoint. */
  lemma NestedFrame(s: System, id: nat) returns (k: nat)
    requires Inv(s) && Nested(s.broker, id)
    ensures 1 <= k < |s.trace.frames| && s.trace.frames[k].id == id
    ensures Find(s.broker.worker.savepoints, id) == Some(k - 1)
  {
    k := FrameOf(s, id);
    SavepointNames(s);
    FoundAt(s.broker.worker.savepoints, k - 1);
  }

  lemma FrameOf(s: System, id: nat) returns (k: nat)
    requires Inv(s) && Nested(s.broker, id)
    ensures 1 <= k < |s.trace.frames| && s.trace.frames[k].id == id
  {
    assert RecordOf(s.broker, s.trace.ledger, id) && IsOpen(s.trace, id);
    k :| 0 <= k < |s.trace.frames| && s.trace.frames[k].id == id;
    assert ParentBelow(s.trace, k);
  }

  lemma FrameIsNested(s: System, k: nat)
    requires Inv(s) && 1 <= k < |s.trace.frames|
    ensures Nested(s.broker, s.trace.frames[k].id)
  {
    assert ParentBelow(s.trace, k) && RecordOf(s.broker, s.trace.ledger, s.trace.frames[k].id);
  }

  /** A nested transaction of the owner, with its savepoint and its parent. */
  predicate Closable(b: Broker, owner: nat, id: nat) {
    && Valid(b, owner, id) && Nested(b, id) && Valid(b, owner, b.transactions[id].parent.value)
    && b.transactions[id].parent != Some(id) && b.worker.view.Some? && Find(b.worker.savepoints, id).Some?
  }

  /** Finishing or undoing a nested transaction takes its record, and its savepoint with all above it. */
  lemma NestedClosed(b: Broker, owner: nat, id: nat, ok: bool)
    requires Closable(b, owner, id)
    ensures var at := Find(b.worker.savepoints, id).value;
            var finished, undone := AfterFinish(b, owner, id, ok), AfterUndo(b, owner, id);
            && finished.worker == b.worker.(savepoints := b.worker.savepoints[..at])
            && undone.worker == b.worker.(view := Some(b.worker.savepoints[at].snapshot), savepoints := b.worker.savepoints[..at])
            && (forall x :: x in finished.transactions <==> x in b.transactions && x != id)
            && (forall x :: x in undone.transactions <==> x in b.transactions && x != id)
            && (forall x :: x in finished.transactions ==>
                  finished.transactions[x].parent == b.transactions[x].parent &&
                  finished.transactions[x].owner == b.transactions[x].owner)
            && (forall x :: x in undone.transactions ==> undone.transactions[x] == b.transactions[x])
  {}

  lemma NestedParentValid(s: System, owner: nat, id: nat)
    requires Inv(s) && Valid(s.broker, owner, id) && Nested(s.broker, id)
    ensures s.broker.worker.view.Some? && s.broker.transactions[id].parent.value != id
    ensures Valid(s.broker, owner, s.broker.transactions[id].parent.value)
  {
    Opened(s, owner, id);
    var k := NestedFrame(s, id);
    assert ParentBelow(s.trace, k);
    var j :| 0 <= j < k && s.trace.ledger[id].parent == Some(s.trace.frames[j].id);
    assert ParentBelow(s.trace, j) && RecordOf(s.broker, s.trace.ledger, s.trace.frames[j].id);
  }

  /** b without the nested transaction id and without the savepoints from position `at` upwards. */
  ghost predicate CutAt(b: Broker, b': Broker, id: nat, at: nat) {
    && at <= |b.worker.savepoints| && b'.worker.savepoints == b.worker.savepoints[..at]
    && (forall x :: Nested(b', x) <==> Nested(b, x) && x != id)
  }

  lemma NestedIsCut(s: System, owner: nat, id: nat, e: Event, k: nat)
    requires Inv(s) && Valid(s.broker, owner, id) && Nested(s.broker, id)
    requires (e.Finish? || e.Undo?) && e.owner == owner && e.id == id
    requires Find(s.broker.worker.savepoints, id) == Some(k)
    ensures CutAt(s.broker, BrokerStep(s.broker, e), id, k)
  {
    NestedIsClosable(s, owner, id);
    ClosedIsCut(s.broker, owner, id, e, k);
  }

  lemma ClosedIsCut(b: Broker, owner: nat, id: nat, e: Event, k: nat)
    requires Closable(b, owner, id) && Find(b.worker.savepoints, id) == Some(k)
    requires (e.Finish? || e.Undo?) && e.owner == owner && e.id == id
    ensures CutAt(b, BrokerStep(b, e), id, k)
  {
    NestedClosed(b, owner, id, if e.Finish? then e.ok else true);
  }

  lemma InnermostCut(s: System, b': Broker, id: nat)
    requires Inv(s) && |s.trace.frames| >= 2 && Innermost(s.trace, id)
    requires CutAt(s.broker, b', id, |s.trace.frames| - 2)
    ensures SavepointsStand(b')
  {
    SavepointNames(s);
    forall x | Nested(b', x) ensures Find(b'.worker.savepoints, x).Some? {
      var j := NestedFrame(s, x);
      assert b'.worker.savepoints[j - 1].name == x;
    }
  }

  lemma OuterCut(s: System, b': Broker, id: nat, k: nat)
    requires Inv(s) && 1 <= k < |s.trace.frames| - 1 && s.trace.frames[k].id == id && CutAt(s.broker, b', id, k - 1)
    ensures !SavepointsStand(b')
  {
    var n := |s.trace.frames|;
    FrameIsNested(s, n - 1);
    assert Nested(b', s.trace.frames[n - 1].id);
    NotBelow(s, k, n - 1, b'.worker.savepoints);
  }

  /** Closing a nested transaction leaves every other open transaction its savepoint exactly when it is
      the innermost one. */
  lemma SavepointsStandExactlyWhenInnermost(s: System, owner: nat, id: nat, e: Event)
    requires Reachable(s) && Valid(s.broker, owner, id) && Nested(s.broker, id)
    requires (e.Finish? || e.Undo?) && e.owner == owner && e.id == id
    ensures SavepointsStand(BrokerStep(s.broker, e)) <==> Innermost(s.trace, id)
  {
    ReachableInv(s);
    var k := NestedFrame(s, id);
    NestedIsCut(s, owner, id, e, k - 1);
    if k == |s.trace.frames| - 1 {
      InnermostCut(s, BrokerStep(s.broker, e), id);
    } else {
      OuterCut(s, BrokerStep(s.broker, e), id, k);
    }
  }

  lemma NotBelow(s: System, k: nat, j: nat, left: seq<Savepoint>)
    requires Inv(s) && 1 <= k < j < |s.trace.frames| && left == s.broker.worker.savepoints[..k - 1]
    ensures Find(left, s.trace.frames[j].id).None?
  {
    SavepointNames(s);
    forall i | 0 <= i < |left| ensures left[i].name != s.trace.frames[j].id {
      assert s.broker.worker.savepoints[i].name != s.broker.worker.savepoints[j - 1].name;
    }
  }

  /** The transaction with the innermost savepoint is nobody's parent. */
  lemma TopHasNoChild(s: System, id: nat, k: nat)
    requires Inv(s) && k < |s.trace.frames| && s.trace.frames[k].id == id && id in s.trace.ledger
    ensures s.trace.ledger[id].parent != Some(s.trace.frames[|s.trace.frames| - 1].id)
  {
    assert ParentBelow(s.trace, k);
    if k > 0 {
      var j :| 0 <= j < k && s.trace.ledger[id].parent == Some(s.trace.frames[j].id);
      assert s.trace.frames[j].id != s.trace.frames[|s.trace.frames| - 1].id;
    }
  }

  lemma FinishedFirst(b: Broker, owner: nat, id: nat, top: nat, at: nat)
    requires Closable(b, owner, id) && Closable(b, owner, top) && id != top && Find(b.worker.savepoints, id) == Some(at)
    requires forall i :: 0 <= i < at ==> b.worker.savepoints[i].name != top
    ensures var late := AfterUndo(AfterFinish(b, owner, id, true), owner, top);
            late.worker.view == b.worker.view && late.transactions.Keys == b.transactions.Keys - {id, top}
  {
    NestedClosed(b, owner, id, true);
    var finished := AfterFinish(b, owner, id, true);
    assert Find(finished.worker.savepoints, top).None?;
  }

  lemma UndoneFirst(b: Broker, owner: nat, id: nat, top: nat, at: nat)
    requires Closable(b, owner, id) && Closable(b, owner, top) && id != top && b.transactions[id].parent != Some(top)
    requires Find(b.worker.savepoints, top) == Some(at) && exists i :: 0 <= i < at && b.worker.savepoints[i].name == id
    ensures var first := AfterFinish(AfterUndo(b, owner, top), owner, id, true);
            && first.worker.view == Some(b.worker.savepoints[at].snapshot)
            && first.transactions.Keys == b.transactions.Keys - {id, top}
  {
    NestedClosed(b, owner, top, true);
    var undone := AfterUndo(b, owner, top);
    var i :| 0 <= i < at && b.worker.savepoints[i].name == id;
    assert undone.worker.savepoints[i].name == id;
    NestedClosed(undone, owner, id, true);
  }

  /** At every moment of the run the connection is what the reference says: the durable contents, the
      open transaction, and every savepoint. */
  ghost predicate FollowsReplay(s: System, events: seq<Event>)
    decreases |events|
  {
    && WorkerInv(s.broker.worker, s.trace)
    && (events == [] || FollowsReplay(Step(s, events[0]), events[1..]))
  }

  lemma RootFrame(s: System, owner: nat, id: nat)
    requires Inv(s) && Valid(s.broker, owner, id) && !Nested(s.broker, id)
    ensures s.trace.frames != [] && s.trace.frames[0].id == id && s.broker.worker.view.Some? && id in s.trace.ledger
  {
    Opened(s, owner, id);
    var k :| 0 <= k < |s.trace.frames| && s.trace.frames[k].id == id;
    assert ParentBelow(s.trace, k);
  }

  /** Closing a root beside open children takes their savepoints; a failed COMMIT leaves it open. */
  lemma RootClosedBadly(s: System, owner: nat, id: nat, e: Event)
    requires Inv(s) && Valid(s.broker, owner, id) && !Nested(s.broker, id)
    requires (e.Finish? || e.Undo?) && e.owner == owner && e.id == id && !Disciplined(s, e)
    ensures !WorkerInv(Step(s, e).broker.worker, Step(s, e).trace)
  {
    RootFrame(s, owner, id);
    var w' := Step(s, e).broker.worker;
    if |s.trace.frames| == 1 {
      assert w' == s.broker.worker;
    } else if e.Undo? || e.ok {
      assert w'.view.None?;
    } else {
      assert w' == s.broker.worker && |Step(s, e).trace.frames| == |s.trace.frames| - 1;
    }
  }

  lemma NestedClosedBadly(s: System, owner: nat, id: nat, e: Event)
    requires Inv(s) && Valid(s.broker, owner, id) && Nested(s.broker, id) && !Innermost(s.trace, id)
    requires (e.Finish? || e.Undo?) && e.owner == owner && e.id == id
    ensures !WorkerInv(Step(s, e).broker.worker, Step(s, e).trace)
  {
    var k := NestedFrame(s, id);
    NestedIsCut(s, owner, id, e, k - 1);
    Opened(s, owner, id);
    ClosePops(s, owner, id, e);
    FewerSavepoints(Step(s, e).broker.worker, Step(s, e).trace, k);
  }

  lemma ClosePops(s: System, owner: nat, id: nat, e: Event)
    requires s.broker.queue != [] && s.trace.frames != [] && id in s.trace.ledger && Valid(s.broker, owner, id)
    requires (e.Finish? || e.Undo?) && e.owner == owner && e.id == id
    ensures |Step(s, e).trace.frames| == |s.trace.frames| - 1
  {}

  lemma FewerSavepoints(w: Worker, t: Trace, k: nat)
    requires 1 <= k < |t.frames| && |w.savepoints| == k - 1
    ensures !WorkerInv(w, t)
  {}

  lemma UndisciplinedStep(s: System, e: Event)
    requires Inv(s) && Fresh(s.broker, e) && !Disciplined(s, e)
    ensures !WorkerInv(Step(s, e).broker.worker, Step(s, e).trace)
  {
    if Nested(s.broker, e.id) { NestedClosedBadly(s, e.owner, e.id, e); } else { RootClosedBadly(s, e.owner, e.id, e); }
  }

  /** For every run with new ids: the connection follows the sequential execution throughout exactly
      when every transaction closed while its savepoint was the innermost one and no COMMIT failed. */
  lemma {:induction false} FollowsReplayExactlyWhenInnermostFirst(s: System, events: seq<Event>)
    requires Inv(s) && AllFresh(s, events)
    ensures FollowsReplay(s, events) <==> AllDisciplined(s, events)
    decreases |events|
  {
    if events != [] {
      if Disciplined(s, events[0]) {
        StepKeepsInv(s, events[0]);
        FollowsReplayExactlyWhenInnermostFirst(Step(s, events[0]), events[1..]);
      } else {
        UndisciplinedStep(s, events[0]);
      }
    }
  }

  /** A nested transaction id, and another one, top, at the top of the stack: below is what it found. */
  ghost predicate Above(b: Broker, owner: nat, id: nat, top: nat, below: seq<Statement>, ran: seq<Statement>) {
    var w, n := b.worker, |b.worker.savepoints|;
    && id != top && Closable(b, owner, id) && Closable(b, owner, top) && b.transactions[id].parent != Some(top)
    && Find(w.savepoints, top) == Some(n - 1) && Find(w.savepoints, id).value < n - 1
    && (forall i :: 0 <= i < n - 1 ==> w.savepoints[i].name != top)
    && w.savepoints[n - 1].snapshot == below && w.view == Some(below + ran)
  }

  lemma OrderMatters(b: Broker, owner: nat, id: nat, top: nat, below: seq<Statement>, ran: seq<Statement>)
    requires Above(b, owner, id, top, below, ran)
    ensures var first := AfterFinish(AfterUndo(b, owner, top), owner, id, true);
            var late := AfterUndo(AfterFinish(b, owner, id, true), owner, top);
            && first.worker.view == Some(below) && late.worker.view == Some(below + ran)
            && late.transactions.Keys == first.transactions.Keys
            && (late.worker.view == first.worker.view <==> ran == [])
  {
    FinishedFirst(b, owner, id, top, Find(b.worker.savepoints, id).value);
    UndoneFirst(b, owner, id, top, |b.worker.savepoints| - 1);
    if ran != [] { assert |below + ran| > |below|; } else { HeadAndTail(below); }
  }

  /** What that costs. Rolling back the innermost transaction first, and finishing id after it, leaves
      what ran below the savepoint rolled back. Finishing id first swallows that savepoint, and the
      rollback that follows undoes nothing: the two orders agree exactly when nothing ran under it. */
  lemma FinishOrderMatters(s: System, owner: nat, id: nat)
    requires Reachable(s) && Valid(s.broker, owner, id) && Nested(s.broker, id) && !Innermost(s.trace, id)
    ensures s.trace.frames != []
    ensures var b, n := s.broker, |s.trace.frames|; var top := s.trace.frames[n - 1];
            var below := Replay(s.trace.history) + FramesEffects(s.trace.frames[..n - 1]);
            var first := AfterFinish(AfterUndo(b, owner, top.id), owner, id, true);
            var late := AfterUndo(AfterFinish(b, owner, id, true), owner, top.id);
            && first.worker.view == Some(below) && late.worker.view == Some(below + Effects(top.items))
            && late.transactions.Keys == first.transactions.Keys
            && (late.worker.view == first.worker.view <==> Effects(top.items) == [])
  {
    var below := TopOfStack(s, owner, id);
    var top := s.trace.frames[|s.trace.frames| - 1];
    OrderMatters(s.broker, owner, id, top.id, below, Effects(top.items));
  }

  lemma TopOfStack(s: System, owner: nat, id: nat) returns (below: seq<Statement>)
    requires Reachable(s) && Valid(s.broker, owner, id) && Nested(s.broker, id) && !Innermost(s.trace, id)
    ensures |s.trace.frames| >= 2
    ensures below == Replay(s.trace.history) + FramesEffects(s.trace.frames[..|s.trace.frames| - 1])
    ensures var top := s.trace.frames[|s.trace.frames| - 1];
            Above(s.broker, owner, id, top.id, below, Effects(top.items))
  {
    ReachableInv(s);
    var k := NestedFrame(s, id);
    var n := |s.trace.frames|;
    below := Replay(s.trace.history) + FramesEffects(s.trace.frames[..n - 1]);
    var top := s.trace.frames[n - 1];
    TopIsValid(s, owner, id);
    NestedIsClosable(s, owner, id);
    NestedIsClosable(s, owner, top.id);
    TopHasNoChild(s, id, k);
    SavepointNames(s);
    InnermostSavepoint(s.broker.worker, s.trace);
    ConcatAssociative(Replay(s.trace.history), FramesEffects(s.trace.frames[..n - 1]), Effects(top.items));
  }

  lemma TopIsValid(s: System, owner: nat, id: nat)
    requires Inv(s) && Valid(s.broker, owner, id) && |s.trace.frames| >= 2
    ensures var top := s.trace.frames[|s.trace.frames| - 1].id; Valid(s.broker, owner, top) && Nested(s.broker, top)
  {
    FrameIsNested(s, |s.trace.frames| - 1);
    OneOwner(s);
  }

  lemma NestedIsClosable(s: System, owner: nat, id: nat)
    requires Inv(s) && Valid(s.broker, owner, id) && Nested(s.broker, id)
    ensures Closable(s.broker, owner, id)
    ensures id in s.trace.ledger && s.broker.transactions[id].parent == s.trace.ledger[id].parent
  {
    NestedParentValid(s, owner, id);
    var at := NestedFrame(s, id);
    assert RecordOf(s.broker, s.trace.ledger, id);
  }

  /** The broker with only a root open, or with the root and two children of it. */
  predicate OnlyOpen(b: Broker, owner: nat, root: nat, view: seq<Statement>) {
    && b.transactions.Keys == {root} && Valid(b, owner, root) && b.transactions[root].parent.None?
    && b.worker.view == Some(view) && b.worker.savepoints == []
  }

  predicate TwoOpen(b: Broker, owner: nat, root: nat, a: nat, c: nat, view: seq<Statement>, now: seq<Statement>) {
    && b.transactions.Keys == {root, a, c} && Valid(b, owner, root) && Valid(b, owner, a) && Valid(b, owner, c)
    && b.transactions[root].parent.None? && b.transactions[a].parent == b.transactions[c].parent == Some(root)
    && b.worker.view == Some(now) && b.worker.savepoints == [Savepoint(a, view), Savepoint(c, view)]
  }

  lemma TwoBegin(b: Broker, owner: nat, root: nat, a: nat, c: nat, view: seq<Statement>)
    requires OnlyOpen(b, owner, root, view) && root != a && root != c && a != c
    ensures TwoOpen(BrokerStep(BrokerStep(b, BeginIn(owner, root, a, true)), BeginIn(owner, root, c, true)),
                    owner, root, a, c, view, view)
  {}

  lemma TwoClose(b: Broker, owner: nat, root: nat, a: nat, c: nat, view: seq<Statement>, now: seq<Statement>)
    requires TwoOpen(b, owner, root, a, c, view, now) && root != a && root != c && a != c
    ensures OnlyOpen(BrokerStep(BrokerStep(b, Finish(owner, a, true)), Undo(owner, c)), owner, root, now)
  {
    assert b.worker.savepoints[0].name == a && b.worker.savepoints[1].name == c;
    FinishedFirst(b, owner, a, c, 0);
    NestedClosed(b, owner, a, true);
  }

  lemma TwoExecute(b: Broker, owner: nat, root: nat, a: nat, c: nat, view: seq<Statement>, statement: Statement)
    requires TwoOpen(b, owner, root, a, c, view, view) && root != c && a != c
    ensures TwoOpen(BrokerStep(b, ExecuteIn(owner, c, statement, true)), owner, root, a, c, view, view + [statement])
  {}

  /** Two children of one root that overlap, each finished after its own children: the first to be
      finished swallows the savepoint of the second, whose rollback then keeps its statement. */
  lemma OverlappingChildrenLoseARollback(s: System, owner: nat, root: nat, a: nat, c: nat, statement: Statement)
    requires Reachable(s) && Valid(s.broker, owner, root) && |s.trace.frames| == 1 && Innermost(s.trace, root)
    requires a != c && a !in s.broker.transactions && c !in s.broker.transactions
    ensures var b1 := BrokerStep(BrokerStep(s.broker, BeginIn(owner, root, a, true)), BeginIn(owner, root, c, true));
            var b2 := BrokerStep(b1, ExecuteIn(owner, c, statement, true));
            var b3 := BrokerStep(BrokerStep(b2, Finish(owner, a, true)), Undo(owner, c));
            && s.broker.worker.view.Some? && OnlyOpen(b3, owner, root, s.broker.worker.view.value + [statement])
            && BrokerStep(b3, Finish(owner, root, true)).worker.durable == s.broker.worker.view.value + [statement]
  {
    ReachableInv(s);
    OnlyRoot(s, owner, root);
    var view := s.broker.worker.view.value;
    assert OnlyOpen(s.broker, owner, root, view);
    TwoBegin(s.broker, owner, root, a, c, view);
    var b1 := BrokerStep(BrokerStep(s.broker, BeginIn(owner, root, a, true)), BeginIn(owner, root, c, true));
    TwoExecute(b1, owner, root, a, c, view, statement);
    TwoClose(BrokerStep(b1, ExecuteIn(owner, c, statement, true)), owner, root, a, c, view, view + [statement]);
  }
}
