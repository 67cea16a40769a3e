/** The scheduler's fields, updated in place; each method is a step of the machine in DeadlineScheduler. */
module BackgroundDeadlineSchedulerClass {
  import opened DeadlineScheduler
  import opened Wrappers

  class BackgroundDeadlineScheduler {
    var pending: seq<Deadline>
    var nextId: nat
    var ran: seq<nat>
    var cancelled: set<nat>
    var listening: bool
    var foreground: bool
    var nativeDeadline: Option<int>
    var faulted: bool
    var nativeUpdate: seq<Option<int>>
    var writing: Option<Option<int>>
    var native: Option<int>

    function State(): Scheduler
      reads this
    {
      Scheduler(pending, nextId, ran, cancelled, listening, foreground, nativeDeadline, faulted, nativeUpdate, writing, native)
    }

    constructor ()
      ensures State() == IDLE
    {
      pending, nextId, ran, cancelled := [], 0, [], {};
      listening, foreground := false, true;
      nativeDeadline, faulted, nativeUpdate, writing, native := None, false, [], None, None;
    }

    method UpdateNativeDeadline()
      modifies this
      ensures State() == Update(old(State()))
    {
      if !listening { return; }
      var next: Option<int> := None;
      if !foreground {
        var i := 0;
        while i < |pending|
          invariant 0 <= i <= |pending|
          invariant next == Earliest(pending[..i])
        {
          assert pending[..i + 1][..i] == pending[..i];
          if next == None || pending[i].at < next.value { next := Some(pending[i].at); }
          i := i + 1;
        }
        assert pending[..i] == pending;
      }
      faulted := false;
      if next == nativeDeadline { return; }
      nativeDeadline := next;
      nativeUpdate := nativeUpdate + [next];
    }

    method Schedule(at: int, available: bool) returns (id: nat)
      modifies this
      ensures State() == Perform(old(State()), Add(at, available)) && id == old(nextId)
      ensures old(Inv(State())) ==> Inv(State())
    {
      if Inv(State()) { StepKeepsInv(State(), Do(Add(at, available)), _ => []); }
      listening := listening || available;
      id := nextId;
      pending, nextId := pending + [Deadline(nextId, at)], nextId + 1;
      UpdateNativeDeadline();
    }

    method CancelEntry(id: nat)
      modifies this
      ensures State() == Perform(old(State()), Cancel(id))
      ensures old(Inv(State())) ==> Inv(State())
    {
      if Inv(State()) { StepKeepsInv(State(), Do(Cancel(id)), _ => []); }
      if !Has(pending, id) { return; }
      pending, cancelled := Remove(pending, id), cancelled + {id};
      UpdateNativeDeadline();
    }

    method Callback(acts: seq<Act>)
      modifies this
      ensures State() == PerformAll(old(State()), acts)
    {
      var i := 0;
      while i < |acts|
        invariant 0 <= i <= |acts|
        invariant PerformAll(State(), acts[i..]) == PerformAll(old(State()), acts)
      {
        assert acts[i..][1..] == acts[i + 1..];
        match acts[i] {
          case Add(at, available) => var _ := Schedule(at, available);
          case Cancel(id) => CancelEntry(id);
        }
        i := i + 1;
      }
    }

    method RunOne(id: nat, behave: nat -> seq<Act>)
      modifies this
      ensures State() == RunEntry(old(State()), id, behave)
    {
      if !Has(pending, id) { return; }
      pending := Remove(pending, id);
      UpdateNativeDeadline();
      ran := ran + [id];
      Callback(behave(id));
    }

    method HandlePulse(now: int, behave: nat -> seq<Act>)
      requires listening
      modifies this
      ensures State() == OnPulse(old(State()), now, behave)
      ensures old(Inv(State())) ==> Inv(State())
    {
      if Inv(State()) { StepKeepsInv(State(), Pulse(now), behave); }
      var snapshot := pending;
      nativeDeadline, native := None, None;
      ghost var begun := State();
      var i := 0;
      while i < |snapshot|
        invariant 0 <= i <= |snapshot|
        invariant RunDue(State(), snapshot[i..], now, behave) == RunDue(begun, snapshot, now, behave)
      {
        assert snapshot[i..][1..] == snapshot[i + 1..];
        if snapshot[i].at <= now { RunOne(snapshot[i].id, behave); }
        i := i + 1;
      }
      UpdateNativeDeadline();
    }

    method ChangeAppState(foreground: bool, behave: nat -> seq<Act>)
      modifies this
      ensures State() == Step(old(State()), AppState(foreground), behave)
      ensures old(Inv(State())) ==> Inv(State())
    {
      if Inv(State()) { StepKeepsInv(State(), AppState(foreground), behave); }
      this.foreground := foreground;
      UpdateNativeDeadline();
    }

    method BeginNativeWrite(behave: nat -> seq<Act>)
      requires Enabled(State(), BeginWrite)
      modifies this
      ensures State() == Step(old(State()), BeginWrite, behave)
      ensures old(Inv(State())) ==> Inv(State())
    {
      if Inv(State()) { StepKeepsInv(State(), BeginWrite, behave); }
      var next := nativeUpdate[0];
      nativeUpdate := nativeUpdate[1..];
      if nativeDeadline != next { return; }
      writing := Some(next);
    }

    method EndNativeWrite(ok: bool, behave: nat -> seq<Act>)
      requires Enabled(State(), EndWrite(ok))
      modifies this
      ensures State() == Step(old(State()), EndWrite(ok), behave)
      ensures old(Inv(State())) ==> Inv(State())
    {
      if Inv(State()) { StepKeepsInv(State(), EndWrite(ok), behave); }
      var next := writing.value;
      writing := None;
      if ok {
        native := next;
      } else if nativeDeadline == next {
        nativeDeadline, faulted := None, true;
      }
    }
  }
}
