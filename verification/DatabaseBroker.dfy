/** The desktop database broker: a first-come gate over one connection, root transactions, nested
    savepoints, ownership checks and change notification. */
module DatabaseBroker {
  import opened DatabaseWorker
  import opened Wrappers

  datatype Transaction = Transaction(owner: nat, parent: Option<nat>, dirty: bool)

  /** A call waiting for the gate: an autocommit statement, or the start of a root transaction. */
  datatype Call = Auto(owner: nat, statement: Statement) | Root(owner: nat, id: nat)

  datatype Ticket = Ticket(number: nat, call: Call)

  /** `queue` is the chain of gate promises: its head holds the gate. `running` says that the head
      is a root transaction that has begun. `notices` are the change notifications sent. */
  datatype Broker = Broker(
    transactions: map<nat, Transaction>,
    queue: seq<Ticket>,
    next: nat,
    running: bool,
    worker: Worker,
    notices: seq<nat>)

  datatype Event =
    | CallExecute(owner: nat, statement: Statement)
    | CallBegin(owner: nat, id: nat)
    | GrantAuto(ok: bool)
    | GrantBegin(ok: bool)
    | ExecuteIn(owner: nat, id: nat, statement: Statement, ok: bool)
    | BatchIn(owner: nat, id: nat, rows: seq<nat>, applied: nat)
    | BeginIn(owner: nat, parent: nat, id: nat, ok: bool)
    | Finish(owner: nat, id: nat, ok: bool)
    | Undo(owner: nat, id: nat)
    | CleanupOwner(owner: nat)

  // ----- what the broker does

  predicate Valid(b: Broker, owner: nat, id: nat) {
    id in b.transactions && b.transactions[id].owner == owner
  }

  function Enqueue(b: Broker, call: Call): Broker {
    b.(queue := b.queue + [Ticket(b.next, call)], next := b.next + 1)
  }

  function ReleaseGate(b: Broker): Broker {
    b.(queue := if b.queue == [] then [] else b.queue[1..], running := false)
  }

  function MarkDirty(b: Broker, id: nat): Broker
    requires id in b.transactions
  {
    b.(transactions := b.transactions[id := b.transactions[id].(dirty := true)])
  }

  function Forget(b: Broker, id: nat): Broker {
    b.(transactions := b.transactions - {id})
  }

  function AfterGrantAuto(b: Broker, ok: bool): Broker {
    if b.queue == [] || b.running || !b.queue[0].call.Auto? then b
    else
      var call := b.queue[0].call;
      var done := if ok then b.(worker := Execute(b.worker, [call.statement]),
                                notices := b.notices + if call.statement.mutates then [call.owner] else [])
                  else b;
      ReleaseGate(done)
  }

  function AfterGrantBegin(b: Broker, ok: bool): Broker {
    if b.queue == [] || b.running || !b.queue[0].call.Root? then b
    else
      var call, begun := b.queue[0].call, Begin(b.worker);
      if !ok || begun.None? then ReleaseGate(b)
      else b.(running := true, worker := begun.value,
              transactions := b.transactions[call.id := Transaction(call.owner, None, false)])
  }

  function AfterExecuteIn(b: Broker, owner: nat, id: nat, statement: Statement, ok: bool): Broker {
    if !Valid(b, owner, id) || !ok then b
    else
      var done := b.(worker := Execute(b.worker, [statement]));
      if statement.mutates then MarkDirty(done, id) else done
  }

  /** Rows of a batch are `run` statements, which the classifier always counts as mutating. */
  function BatchStatements(rows: seq<nat>): seq<Statement> {
    seq(|rows|, i requires 0 <= i < |rows| => Statement(rows[i], true))
  }

  /** The worker runs the rows one by one; `applied` of them succeed before the first failure. A
      failed batch leaves those rows in the transaction without marking it dirty. */
  function AfterBatchIn(b: Broker, owner: nat, id: nat, rows: seq<nat>, applied: nat): Broker {
    if !Valid(b, owner, id) then b
    else
      var n := if applied < |rows| then applied else |rows|;
      var done := b.(worker := Execute(b.worker, BatchStatements(rows[..n])));
      if n == |rows| && rows != [] then MarkDirty(done, id) else done
  }

  function AfterBeginIn(b: Broker, owner: nat, parent: nat, id: nat, ok: bool): Broker {
    if !Valid(b, owner, parent) then b
    else
      var pushed := OpenSavepoint(b.worker, id);
      if !ok || pushed.None? then b
      else b.(worker := pushed.value,
              transactions := b.transactions[id := Transaction(owner, Some(parent), false)])
  }

  function FinishNested(b: Broker, owner: nat, id: nat, parent: nat): Broker
    requires id in b.transactions
  {
    var released := Release(b.worker, id);
    if released.None? then b
    else
      var done := b.(worker := released.value);
      if !b.transactions[id].dirty then Forget(done, id)
      else if !Valid(b, owner, parent) then done
      else Forget(MarkDirty(done, parent), id)
  }

  /** With `ok` false, COMMIT fails: the record and the gate go, the connection stays inside the transaction. */
  function FinishRoot(b: Broker, owner: nat, id: nat, ok: bool): Broker
    requires id in b.transactions
  {
    var committed := Commit(b.worker);
    var done := if !ok || committed.None? then b
                else b.(worker := committed.value,
                        notices := b.notices + if b.transactions[id].dirty then [owner] else []);
    ReleaseGate(Forget(done, id))
  }

  function AfterFinish(b: Broker, owner: nat, id: nat, ok: bool): Broker {
    if !Valid(b, owner, id) then b
    else if b.transactions[id].parent.Some? then FinishNested(b, owner, id, b.transactions[id].parent.value)
    else FinishRoot(b, owner, id, ok)
  }

  function AfterUndo(b: Broker, owner: nat, id: nat): Broker {
    if !Valid(b, owner, id) then b
    else if b.transactions[id].parent.Some? then
      var undone := RollbackSavepoint(b.worker, id);
      Forget(if undone.Some? then b.(worker := undone.value) else b, id)
    else
      var undone := Rollback(b.worker);
      ReleaseGate(Forget(if undone.Some? then b.(worker := undone.value) else b, id))
  }

  predicate IsOuter(b: Broker, owner: nat, id: nat) {
    id in b.transactions && b.transactions[id].owner == owner && b.transactions[id].parent.None?
  }

  function ForgetOwner(b: Broker, owner: nat): Broker {
    b.(transactions := map id | id in b.transactions && b.transactions[id].owner != owner :: b.transactions[id])
  }

  function HeadId(b: Broker): nat {
    if b.queue != [] && b.queue[0].call.Root? then b.queue[0].call.id else 0
  }

  /** At most one root transaction is open, the one at the head of the gate, so the search for the
      owner's outer transaction looks only there. */
  function AfterCleanup(b: Broker, owner: nat): Broker {
    ForgetOwner(if b.running && IsOuter(b, owner, HeadId(b)) then AfterUndo(b, owner, HeadId(b)) else b, owner)
  }

  function BrokerStep(b: Broker, e: Event): Broker {
    match e
    case CallExecute(owner, statement) => Enqueue(b, Auto(owner, statement))
    case CallBegin(owner, id) => Enqueue(b, Root(owner, id))
    case GrantAuto(ok) => AfterGrantAuto(b, ok)
    case GrantBegin(ok) => AfterGrantBegin(b, ok)
    case ExecuteIn(owner, id, statement, ok) => AfterExecuteIn(b, owner, id, statement, ok)
    case BatchIn(owner, id, rows, applied) => AfterBatchIn(b, owner, id, rows, applied)
    case BeginIn(owner, parent, id, ok) => AfterBeginIn(b, owner, parent, id, ok)
    case Finish(owner, id, ok) => AfterFinish(b, owner, id, ok)
    case Undo(owner, id) => AfterUndo(b, owner, id)
    case CleanupOwner(owner) => AfterCleanup(b, owner)
  }

  // ----- the reference: one call after another, in gate order

  /** What happened inside a transaction. `noted` is false for the rows of a batch that failed. */
  datatype Item = Ran(statement: Statement, noted: bool) | Committed(items: seq<Item>) | RolledBack(items: seq<Item>)

  /** A finished call. Of a root, `items` is what ran while it was open, nested by the savepoints open
      at the time; `account` is what ran in it and in its descendants, nested by who ran it. */
  datatype Unit =
    | AutoUnit(number: nat, owner: nat, statement: Statement)
    | RootUnit(number: nat, owner: nat, items: seq<Item>, account: seq<Item>, committed: bool)

  /** An open savepoint, the root at the bottom, with what ran while it was the innermost one. */
  datatype Frame = Frame(id: nat, items: seq<Item>)

  /** An open transaction, with what ran in it and what its finished children left. */
  datatype Account = Account(parent: Option<nat>, items: seq<Item>)

  /** What a transaction leaves behind: rolled-back parts leave nothing. */
  function Effects(items: seq<Item>): seq<Statement>
    decreases items, 0
  {
    if items == [] then [] else Effects(items[..|items| - 1]) + EffectOf(items[|items| - 1])
  }

  function EffectOf(item: Item): seq<Statement>
    decreases item, 1
  {
    match item
    case Ran(statement, _) => [statement]
    case Committed(items) => Effects(items)
    case RolledBack(_) => []
  }

  /** Whether a completed mutating statement ran in it, or in a committed descendant of it. */
  predicate Noted(items: seq<Item>)
    decreases items, 0
  {
    items != [] && (Noted(items[..|items| - 1]) || NotedItem(items[|items| - 1]))
  }

  predicate NotedItem(item: Item)
    decreases item, 1
  {
    match item
    case Ran(statement, noted) => statement.mutates && noted
    case Committed(items) => Noted(items)
    case RolledBack(_) => false
  }

  function UnitEffects(u: Unit): seq<Statement> {
    match u
    case AutoUnit(_, _, statement) => [statement]
    case RootUnit(_, _, items, _, committed) => if committed then Effects(items) else []
  }

  function UnitNotice(u: Unit): seq<nat> {
    match u
    case AutoUnit(_, owner, statement) => if statement.mutates then [owner] else []
    case RootUnit(_, owner, _, account, committed) => if committed && Noted(account) then [owner] else []
  }

  /** The database a sequential execution of the units produces. */
  function Replay(history: seq<Unit>): seq<Statement> {
    if history == [] then [] else Replay(history[..|history| - 1]) + UnitEffects(history[|history| - 1])
  }

  /** The notifications due: one for each unit that changed something, in order. */
  function Due(history: seq<Unit>): seq<nat> {
    if history == [] then [] else Due(history[..|history| - 1]) + UnitNotice(history[|history| - 1])
  }

  /** The reference state: the finished units, the open savepoints from the root inwards, and the
      accounts of the open transactions. */
  datatype Trace = Trace(history: seq<Unit>, frames: seq<Frame>, ledger: map<nat, Account>)

  function AddItems(frames: seq<Frame>, items: seq<Item>): seq<Frame>
    requires frames != []
  {
    var last := frames[|frames| - 1];
    frames[..|frames| - 1] + [Frame(last.id, last.items + items)]
  }

  function Note(ledger: map<nat, Account>, id: nat, items: seq<Item>): map<nat, Account> {
    if id in ledger then ledger[id := ledger[id].(items := ledger[id].items + items)] else ledger
  }

  /** Statements run in transaction id while the last frame is the innermost savepoint. */
  function RunItems(t: Trace, id: nat, items: seq<Item>): Trace
    requires t.frames != []
  {
    t.(frames := AddItems(t.frames, items), ledger := Note(t.ledger, id, items))
  }

  function Wrapped(items: seq<Item>, commit: bool): Item {
    if commit then Committed(items) else RolledBack(items)
  }

  /** The innermost savepoint closes, and with it transaction id. */
  function Close(t: Trace, number: nat, owner: nat, id: nat, commit: bool): Trace
    requires t.frames != [] && id in t.ledger
  {
    var last, rest, account := t.frames[|t.frames| - 1], t.frames[..|t.frames| - 1], t.ledger[id];
    if rest == [] then Trace(t.history + [RootUnit(number, owner, last.items, account.items, commit)], [], map[])
    else
      var left := if account.parent.None? then t.ledger
                  else Note(t.ledger, account.parent.value, [Wrapped(account.items, commit)]);
      t.(frames := AddItems(rest, [Wrapped(last.items, commit)]), ledger := left - {id})
  }

  function BatchItems(rows: seq<nat>, applied: nat): seq<Item> {
    var n := if applied < |rows| then applied else |rows|;
    seq(n, i requires 0 <= i < n => Ran(Statement(rows[i], true), n == |rows|))
  }

  function TraceStep(b: Broker, t: Trace, e: Event): Trace {
    if b.queue == [] then t
    else
      var head := b.queue[0];
      match e
      case GrantAuto(ok) =>
        if ok && !b.running && head.call.Auto?
        then t.(history := t.history + [AutoUnit(head.number, head.call.owner, head.call.statement)]) else t
      case GrantBegin(ok) =>
        if ok && !b.running && head.call.Root?
        then t.(frames := [Frame(head.call.id, [])], ledger := map[head.call.id := Account(None, [])]) else t
      case ExecuteIn(owner, id, statement, ok) =>
        if ok && Valid(b, owner, id) && t.frames != [] then RunItems(t, id, [Ran(statement, true)]) else t
      case BatchIn(owner, id, rows, applied) =>
        if Valid(b, owner, id) && t.frames != [] then RunItems(t, id, BatchItems(rows, applied)) else t
      case BeginIn(owner, parent, id, ok) =>
        if ok && Valid(b, owner, parent)
        then t.(frames := t.frames + [Frame(id, [])], ledger := t.ledger[id := Account(Some(parent), [])]) else t
      case Finish(owner, id, ok) =>
        if Valid(b, owner, id) && t.frames != [] && id in t.ledger then Close(t, head.number, owner, id, true) else t
      case Undo(owner, id) =>
        if Valid(b, owner, id) && t.frames != [] && id in t.ledger then Close(t, head.number, owner, id, false) else t
      case CleanupOwner(owner) =>
        if b.running && IsOuter(b, owner, HeadId(b)) && t.frames != []
        then Trace(t.history + [RootUnit(head.number, owner, t.frames[0].items, [], false)], [], map[]) else t
      case _ => t
  }

  datatype System = System(broker: Broker, trace: Trace)

  function Step(s: System, e: Event): System {
    System(BrokerStep(s.broker, e), TraceStep(s.broker, s.trace, e))
  }

  function Run(s: System, events: seq<Event>): System
    decreases |events|
  {
    if events == [] then s else Run(Step(s, events[0]), events[1..])
  }

  const START := System(Broker(map[], [], 0, false, Worker([], None, []), []), Trace([], [], map[]))

  // ----- what the callers keep to

  predicate FreshId(b: Broker, id: nat) {
    id !in b.transactions && forall i :: 0 <= i < |b.queue| && b.queue[i].call.Root? ==> b.queue[i].call.id != id
  }

  predicate Innermost(t: Trace, id: nat) {
    t.frames != [] && t.frames[|t.frames| - 1].id == id
  }

  /** The ids that callers draw are new. */
  predicate Fresh(b: Broker, e: Event) {
    match e
    case CallBegin(_, id) => FreshId(b, id)
    case BeginIn(_, _, id, _) => FreshId(b, id)
    case _ => true
  }

  predicate AllFresh(s: System, events: seq<Event>)
    decreases |events|
  {
    events == [] || (Fresh(s.broker, events[0]) && AllFresh(Step(s, events[0]), events[1..]))
  }

  /** Ids are new; a transaction closes when its savepoint is the innermost; COMMIT succeeds. Any open
      transaction may run statements and begin children at any time. */
  predicate Disciplined(s: System, e: Event) {
    var b, t := s.broker, s.trace;
    Fresh(b, e) &&
    match e
    case Finish(owner, id, ok) => Valid(b, owner, id) ==> Innermost(t, id) && (ok || b.transactions[id].parent.Some?)
    case Undo(owner, id) => Valid(b, owner, id) ==> Innermost(t, id)
    case _ => true
  }

  predicate AllDisciplined(s: System, events: seq<Event>)
    decreases |events|
  {
    events == [] || (Disciplined(s, events[0]) && AllDisciplined(Step(s, events[0]), events[1..]))
  }

  /** One thing at a time: a transaction also runs statements and begins children only while it is the
      innermost one. */
  predicate Sequential(s: System, e: Event) {
    Disciplined(s, e) &&
    match e
    case ExecuteIn(owner, id, _, _) => Valid(s.broker, owner, id) ==> Innermost(s.trace, id)
    case BatchIn(owner, id, _, _) => Valid(s.broker, owner, id) ==> Innermost(s.trace, id)
    case BeginIn(owner, parent, _, _) => Valid(s.broker, owner, parent) ==> Innermost(s.trace, parent)
    case _ => true
  }

  predicate AllSequential(s: System, events: seq<Event>)
    decreases |events|
  {
    events == [] || (Sequential(s, events[0]) && AllSequential(Step(s, events[0]), events[1..]))
  }
}
