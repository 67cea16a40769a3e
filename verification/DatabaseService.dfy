/** The broker object, one method for each stretch of code that runs without waiting. Every method is
    proved to be the corresponding step of DatabaseBroker. */
module DatabaseServiceClass {
  import opened DatabaseWorker
  import opened DatabaseBroker
  import opened Wrappers

  class DatabaseService {
    const worker: Connection
    var transactions: map<nat, Transaction>
    var queue: seq<Ticket>
    var next: nat
    var running: bool
    var notices: seq<nat>

    function Model(): Broker
      reads this, worker
    {
      Broker(transactions, queue, next, running, worker.Model(), notices)
    }

    constructor (connection: Connection)
      requires connection.Model() == START.broker.worker
      ensures worker == connection && Model() == START.broker
    {
      worker := connection;
      transactions, queue, next, running, notices := map[], [], 0, false, [];
    }

    /** `acquire`: the caller joins the end of the chain. */
    method Acquire(call: Call)
      modifies this
      ensures Model() == Enqueue(old(Model()), call)
    {
      queue := queue + [Ticket(next, call)];
      next := next + 1;
    }

    method Release()
      modifies this
      ensures Model() == ReleaseGate(old(Model()))
    {
      if |queue| > 0 { queue := queue[1..]; }
      running := false;
    }

    method EmitChange(owner: nat)
      modifies this
      ensures Model() == old(Model()).(notices := old(notices) + [owner])
    {
      notices := notices + [owner];
    }

    /** The gate reaches an autocommit statement. */
    method RunAutocommit(ok: bool)
      modifies this, worker
      ensures Model() == AfterGrantAuto(old(Model()), ok)
    {
      if |queue| == 0 || running || !queue[0].call.Auto? { return; }
      var call := queue[0].call;
      if ok {
        worker.Run([call.statement]);
        if call.statement.mutates { EmitChange(call.owner); }
      }
      Release();
    }

    /** The gate reaches a root transaction. */
    method BeginRoot(ok: bool)
      modifies this, worker
      ensures Model() == AfterGrantBegin(old(Model()), ok)
    {
      if |queue| == 0 || running || !queue[0].call.Root? { return; }
      var call := queue[0].call;
      var begun := false;
      if ok { begun := worker.BeginImmediate(); }
      if !begun {
        Release();
        return;
      }
      running := true;
      transactions := transactions[call.id := Transaction(call.owner, None, false)];
    }

    method ExecuteInTransaction(owner: nat, id: nat, statement: Statement, ok: bool) returns (accepted: bool)
      modifies this, worker
      ensures accepted <==> Valid(old(Model()), owner, id)
      ensures Model() == AfterExecuteIn(old(Model()), owner, id, statement, ok)
    {
      if id !in transactions || transactions[id].owner != owner { return false; }
      accepted := true;
      if ok {
        worker.Run([statement]);
        if statement.mutates { transactions := transactions[id := transactions[id].(dirty := true)]; }
      }
    }

    method RunBatchInTransaction(owner: nat, id: nat, rows: seq<nat>, applied: nat) returns (accepted: bool)
      modifies this, worker
      ensures accepted <==> Valid(old(Model()), owner, id)
      ensures Model() == AfterBatchIn(old(Model()), owner, id, rows, applied)
    {
      if id !in transactions || transactions[id].owner != owner { return false; }
      accepted := true;
      var n := if applied < |rows| then applied else |rows|;
      worker.Run(BatchStatements(rows[..n]));
      if n == |rows| && |rows| > 0 { transactions := transactions[id := transactions[id].(dirty := true)]; }
    }

    method BeginNested(owner: nat, parent: nat, id: nat, ok: bool) returns (accepted: bool)
      modifies this, worker
      ensures accepted <==> Valid(old(Model()), owner, parent)
      ensures Model() == AfterBeginIn(old(Model()), owner, parent, id, ok)
    {
      if parent !in transactions || transactions[parent].owner != owner { return false; }
      accepted := true;
      var pushed := false;
      if ok { pushed := worker.SetSavepoint(id); }
      if pushed { transactions := transactions[id := Transaction(owner, Some(parent), false)]; }
    }

    method CommitTransaction(owner: nat, id: nat, ok: bool)
      modifies this, worker
      ensures Model() == AfterFinish(old(Model()), owner, id, ok)
    {
      if id !in transactions || transactions[id].owner != owner { return; }
      var transaction := transactions[id];
      if transaction.parent.Some? {
        var released := worker.ReleaseSavepoint(id);
        if !released { return; }
        if transaction.dirty {
          var parent := transaction.parent.value;
          if parent !in transactions || transactions[parent].owner != owner { return; }
          transactions := transactions[parent := transactions[parent].(dirty := true)];
        }
        transactions := transactions - {id};
        return;
      }
      if ok {
        var committed := worker.CommitAll();
        if committed && transaction.dirty { EmitChange(owner); }
      }
      transactions := transactions - {id};
      Release();
    }

    method RollbackTransaction(owner: nat, id: nat)
      modifies this, worker
      ensures Model() == AfterUndo(old(Model()), owner, id)
    {
      if id !in transactions || transactions[id].owner != owner { return; }
      var transaction := transactions[id];
      if transaction.parent.Some? {
        var undone := worker.RollbackToSavepoint(id);
        transactions := transactions - {id};
      } else {
        var undone := worker.RollbackAll();
        transactions := transactions - {id};
        Release();
      }
    }

    method CleanupOwner(owner: nat)
      modifies this, worker
      ensures Model() == AfterCleanup(old(Model()), owner)
    {
      var head := if |queue| > 0 && queue[0].call.Root? then queue[0].call.id else 0;
      if running && head in transactions && transactions[head].owner == owner && transactions[head].parent.None? {
        RollbackTransaction(owner, head);
      }
      transactions := map id | id in transactions && transactions[id].owner != owner :: transactions[id];
    }
  }
}
