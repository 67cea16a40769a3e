/** The gate is first come, first served, whatever becomes of the calls. */
module BrokerGate {
  import opened DatabaseWorker
  import opened DatabaseBroker
  import opened BrokerProofs
  import opened BrokerTheorems
  import opened Wrappers

  predicate IsRoot(b: Broker, owner: nat, id: nat) {
    Valid(b, owner, id) && b.transactions[id].parent.None?
  }

  /** The event ends the turn of the call that holds the gate: the autocommit statement has run or
      failed; BEGIN has failed, or found the connection inside a transaction; or the root has been
      committed, with or without success, rolled back, or cleaned up. */
  predicate Settles(b: Broker, e: Event) {
    b.queue != [] &&
    match e
    case GrantAuto(_) => !b.running && b.queue[0].call.Auto?
    case GrantBegin(ok) => !b.running && b.queue[0].call.Root? && (!ok || b.worker.view.Some?)
    case Finish(owner, id, _) => IsRoot(b, owner, id)
    case Undo(owner, id) => IsRoot(b, owner, id)
    case CleanupOwner(owner) => b.running && IsOuter(b, owner, HeadId(b))
    case _ => false
  }

  /** The gate passes on exactly then; otherwise calls only join its end. */
  lemma GatePassesOnExactlyWhenSettled(b: Broker, e: Event)
    ensures var b' := BrokerStep(b, e);
            if Settles(b, e) then b'.queue == b.queue[1..] && !b'.running && b'.next == b.next
            else b.queue <= b'.queue && |b'.queue| <= |b.queue| + 1 && b'.next - |b'.queue| == b.next - |b.queue|
  {}

  /** A failing statement, too, gives up the gate: the next caller is let through. */
  lemma AutocommitAlwaysReleases(s: System, ok: bool)
    requires s.broker.queue != [] && !s.broker.running && s.broker.queue[0].call.Auto?
    ensures Step(s, GrantAuto(ok)).broker.queue == s.broker.queue[1..]
    ensures var next := Step(s, GrantAuto(ok));
            Reachable(s) && |s.broker.queue| > 1 && s.broker.queue[1].call.Root? ==>
              HeldBy(Step(next, GrantBegin(true)).broker, s.broker.queue[1].call.owner)
  {
    GatePassesOnExactlyWhenSettled(s.broker, GrantAuto(ok));
    if Reachable(s) && |s.broker.queue| > 1 && s.broker.queue[1].call.Root? { NextRootHolds(s, ok); }
  }

  lemma NextRootHolds(s: System, ok: bool)
    requires Reachable(s) && |s.broker.queue| > 1 && s.broker.queue[1].call.Root?
    requires !s.broker.running && s.broker.queue[0].call.Auto?
    ensures HeldBy(Step(Step(s, GrantAuto(ok)), GrantBegin(true)).broker, s.broker.queue[1].call.owner)
  {
    ReachableInv(s);
    GrantAutoKeepsInv(s, ok);
    GatePassesOnExactlyWhenSettled(s.broker, GrantAuto(ok));
    RootOpens(Step(s, GrantAuto(ok)));
  }

  /** How many turns the run ends. */
  function Turns(s: System, events: seq<Event>): nat
    decreases |events|
  {
    if events == [] then 0 else (if Settles(s.broker, events[0]) then 1 else 0) + Turns(Step(s, events[0]), events[1..])
  }

  ghost predicate Numbered(b: Broker) {
    |b.queue| <= b.next && forall i :: 0 <= i < |b.queue| ==> b.queue[i].number == b.next - |b.queue| + i
  }

  lemma StepKeepsNumbers(b: Broker, e: Event)
    requires Numbered(b)
    ensures Numbered(BrokerStep(b, e))
  {
    var b' := BrokerStep(b, e);
    GatePassesOnExactlyWhenSettled(b, e);
    if Settles(b, e) { assert forall i :: 0 <= i < |b'.queue| ==> b'.queue[i] == b.queue[i + 1]; }
  }

  /** Each turn that ends moves every waiting ticket up by one place, and nothing else moves it. */
  lemma {:induction false} TicketMovesUp(s: System, events: seq<Event>, i: nat)
    requires i < |s.broker.queue| && Turns(s, events) <= i
    ensures var q := Run(s, events).broker.queue;
            i - Turns(s, events) < |q| && q[i - Turns(s, events)] == s.broker.queue[i]
    decreases |events|
  {
    if events != [] {
      GatePassesOnExactlyWhenSettled(s.broker, events[0]);
      var s' := Step(s, events[0]);
      TicketMovesUp(s', events[1..], if Settles(s.broker, events[0]) then i - 1 else i);
    }
  }

  lemma {:induction false} HeadNumber(s: System, events: seq<Event>)
    requires Numbered(s.broker)
    ensures var b := Run(s, events).broker;
            Numbered(b) && b.next - |b.queue| == s.broker.next - |s.broker.queue| + Turns(s, events)
    decreases |events|
  {
    if events != [] {
      GatePassesOnExactlyWhenSettled(s.broker, events[0]);
      StepKeepsNumbers(s.broker, events[0]);
      HeadNumber(Step(s, events[0]), events[1..]);
    }
  }

  /** First come, first served: in every run a waiting call is at the head of the gate exactly while the
      number of turns ended equals the number of calls that were before it, whichever of them failed. */
  lemma FirstComeFirstServed(s: System, events: seq<Event>, i: nat)
    requires Reachable(s) && i < |s.broker.queue|
    ensures var q := Run(s, events).broker.queue;
            q != [] && q[0].number == s.broker.queue[i].number <==> Turns(s, events) == i
  {
    ReachableInv(s);
    HeadNumber(s, events);
    if Turns(s, events) == i { TicketMovesUp(s, events, i); }
  }
}
