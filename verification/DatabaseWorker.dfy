/** The SQLite connection behind the broker: durable contents, an open transaction and its savepoints. */
module DatabaseWorker {
  import opened Wrappers

  /** One executed statement. Database contents are the statements applied so far, in order;
      `mutates` is the verdict of the source's statement classifier. */
  datatype Statement = Statement(id: nat, mutates: bool)

  datatype Savepoint = Savepoint(name: nat, snapshot: seq<Statement>)

  datatype Worker = Worker(durable: seq<Statement>, view: Option<seq<Statement>>, savepoints: seq<Savepoint>)

  function Execute(w: Worker, statements: seq<Statement>): Worker {
    if w.view.Some? then w.(view := Some(w.view.value + statements)) else w.(durable := w.durable + statements)
  }

  function Begin(w: Worker): Option<Worker> {
    if w.view.Some? then None else Some(w.(view := Some(w.durable), savepoints := []))
  }

  function Commit(w: Worker): Option<Worker> {
    if w.view.None? then None else Some(Worker(w.view.value, None, []))
  }

  function Rollback(w: Worker): Option<Worker> {
    if w.view.None? then None else Some(Worker(w.durable, None, []))
  }

  function OpenSavepoint(w: Worker, name: nat): Option<Worker> {
    if w.view.None? then None
    else Some(w.(savepoints := w.savepoints + [Savepoint(name, w.view.value)]))
  }

  /** The position of the innermost savepoint of that name. */
  function Find(savepoints: seq<Savepoint>, name: nat): (at: Option<nat>)
    ensures at.Some? ==> at.value < |savepoints| && savepoints[at.value].name == name
    ensures at.None? <==> forall i :: 0 <= i < |savepoints| ==> savepoints[i].name != name
  {
    if savepoints == [] then None
    else if savepoints[|savepoints| - 1].name == name then Some(|savepoints| - 1)
    else Find(savepoints[..|savepoints| - 1], name)
  }

  /** RELEASE merges the savepoint and everything above it into what lies below. */
  function Release(w: Worker, name: nat): Option<Worker> {
    var at := Find(w.savepoints, name);
    if w.view.None? || at.None? then None else Some(w.(savepoints := w.savepoints[..at.value]))
  }

  /** ROLLBACK TO followed by RELEASE: back to the snapshot, and the savepoint is gone. */
  function RollbackSavepoint(w: Worker, name: nat): Option<Worker> {
    var at := Find(w.savepoints, name);
    if w.view.None? || at.None? then None
    else Some(w.(view := Some(w.savepoints[at.value].snapshot), savepoints := w.savepoints[..at.value]))
  }

  /** The module-level connection of the worker. Each method is one command; `ok` is false when the
      command fails, and then nothing has changed. */
  class Connection {
    var durable: seq<Statement>
    var view: Option<seq<Statement>>
    var savepoints: seq<Savepoint>

    function Model(): Worker
      reads this
    {
      Worker(durable, view, savepoints)
    }

    constructor ()
      ensures Model() == Worker([], None, [])
    {
      durable, view, savepoints := [], None, [];
    }

    /** `execute`, `exec` and `runBatch`: the statements that succeeded before the first failure. */
    method Run(statements: seq<Statement>)
      modifies this
      ensures Model() == Execute(old(Model()), statements)
    {
      if view.Some? {
        view := Some(view.value + statements);
      } else {
        durable := durable + statements;
      }
    }

    method BeginImmediate() returns (ok: bool)
      modifies this
      ensures ok <==> Begin(old(Model())).Some?
      ensures ok <==> old(view).None?
      ensures Model() == if ok then Begin(old(Model())).value else old(Model())
    {
      if view.Some? { return false; }
      view, savepoints := Some(durable), [];
      ok := true;
    }

    method CommitAll() returns (ok: bool)
      modifies this
      ensures ok <==> Commit(old(Model())).Some?
      ensures ok <==> old(view).Some?
      ensures Model() == if ok then Commit(old(Model())).value else old(Model())
    {
      if view.None? { return false; }
      durable, view, savepoints := view.value, None, [];
      ok := true;
    }

    method RollbackAll() returns (ok: bool)
      modifies this
      ensures ok <==> Rollback(old(Model())).Some?
      ensures (ok <==> old(view).Some?) && durable == old(durable)
      ensures Model() == if ok then Rollback(old(Model())).value else old(Model())
    {
      if view.None? { return false; }
      view, savepoints := None, [];
      ok := true;
    }

    method SetSavepoint(name: nat) returns (ok: bool)
      modifies this
      ensures ok <==> OpenSavepoint(old(Model()), name).Some?
      ensures Model() == if ok then OpenSavepoint(old(Model()), name).value else old(Model())
    {
      if view.None? { return false; }
      savepoints := savepoints + [Savepoint(name, view.value)];
      ok := true;
    }

    /** Searches from the innermost savepoint outwards. */
    method Locate(name: nat) returns (at: Option<nat>)
      ensures at == Find(savepoints, name)
    {
      var i := |savepoints|;
      assert savepoints[..i] == savepoints;
      while i > 0
        invariant 0 <= i <= |savepoints|
        invariant Find(savepoints, name) == Find(savepoints[..i], name)
      {
        assert savepoints[..i][..i - 1] == savepoints[..i - 1];
        i := i - 1;
        if savepoints[i].name == name { return Some(i); }
      }
      at := None;
    }

    method ReleaseSavepoint(name: nat) returns (ok: bool)
      modifies this
      ensures ok <==> Release(old(Model()), name).Some?
      ensures Model() == if ok then Release(old(Model()), name).value else old(Model())
    {
      var at := Locate(name);
      if view.None? || at.None? { return false; }
      savepoints := savepoints[..at.value];
      ok := true;
    }

    method RollbackToSavepoint(name: nat) returns (ok: bool)
      modifies this
      ensures ok <==> RollbackSavepoint(old(Model()), name).Some?
      ensures Model() == if ok then RollbackSavepoint(old(Model()), name).value else old(Model())
    {
      var at := Locate(name);
      if view.None? || at.None? { return false; }
      view, savepoints := Some(savepoints[at.value].snapshot), savepoints[..at.value];
      ok := true;
    }
  }
}
