/** The background deadline scheduler, src/lib/background-deadline.ts:13-72. */
module DeadlineScheduler {
  import opened Wrappers

  datatype Deadline = Deadline(id: nat, at: int)

  /** What a callback may do with the scheduler. */
  datatype Act = Add(at: int, available: bool) | Cancel(id: nat)

  /** recorded is the field nativeDeadline; chain holds the queued updates that have not begun,
      writing the one the native side is working on, native what it last stored. */
  datatype Scheduler = Scheduler(
    pending: seq<Deadline>, nextId: nat, ran: seq<nat>, cancelled: set<nat>,
    listening: bool, foreground: bool,
    recorded: Option<int>, faulted: bool,
    chain: seq<Option<int>>, writing: Option<Option<int>>, native: Option<int>)

  datatype Event =
    | Do(act: Act)
    | Timer(id: nat)
    | Pulse(now: int)
    | AppState(foreground: bool)
    | BeginWrite
    | EndWrite(ok: bool)

  const IDLE := Scheduler([], 0, [], {}, false, true, None, false, [], None, None)

  // ----- the pending set

  function Remove(pending: seq<Deadline>, id: nat): seq<Deadline> {
    if pending == [] then []
    else (if pending[0].id == id then [] else [pending[0]]) + Remove(pending[1..], id)
  }

  predicate Has(pending: seq<Deadline>, id: nat) {
    exists i :: 0 <= i < |pending| && pending[i].id == id
  }

  function Earliest(pending: seq<Deadline>): Option<int> {
    if pending == [] then None
    else
      var next, at := Earliest(pending[..|pending| - 1]), pending[|pending| - 1].at;
      if next == None || at < next.value then Some(at) else next
  }

  lemma {:induction false} EarliestIsMinimum(pending: seq<Deadline>)
    ensures pending == [] <==> Earliest(pending) == None
    ensures forall i :: 0 <= i < |pending| ==> Earliest(pending).value <= pending[i].at
    ensures pending != [] ==> exists i :: 0 <= i < |pending| && pending[i].at == Earliest(pending).value
  {
    if pending != [] {
      var front := pending[..|pending| - 1];
      EarliestIsMinimum(front);
      forall i | 0 <= i < |pending| ensures Earliest(pending).value <= pending[i].at {
        if i < |front| { assert front[i] == pending[i]; }
      }
      if Earliest(pending) == Earliest(front) && front != [] {
        var i :| 0 <= i < |front| && front[i].at == Earliest(front).value;
        assert pending[i].at == Earliest(pending).value;
      } else {
        assert pending[|pending| - 1].at == Earliest(pending).value;
      }
    }
  }

  // ----- the operations

  function Next(s: Scheduler): Option<int> {
    if s.foreground then None else Earliest(s.pending)
  }

  function Update(s: Scheduler): Scheduler {
    if !s.listening then s
    else if Next(s) == s.recorded then s.(faulted := false)
    else s.(recorded := Next(s), chain := s.chain + [Next(s)], faulted := false)
  }

  function Perform(s: Scheduler, act: Act): Scheduler {
    match act
    case Add(at, available) =>
      Update(s.(listening := s.listening || available,
                pending := s.pending + [Deadline(s.nextId, at)], nextId := s.nextId + 1))
    case Cancel(id) =>
      if Has(s.pending, id)
      then Update(s.(pending := Remove(s.pending, id), cancelled := s.cancelled + {id})) else s
  }

  function PerformAll(s: Scheduler, acts: seq<Act>): Scheduler
    decreases |acts|
  {
    if acts == [] then s else PerformAll(Perform(s, acts[0]), acts[1..])
  }

  /** entry.run: the callback of entry id is behave(id). */
  function RunEntry(s: Scheduler, id: nat, behave: nat -> seq<Act>): Scheduler {
    if !Has(s.pending, id) then s
    else PerformAll(Update(s.(pending := Remove(s.pending, id))).(ran := s.ran + [id]), behave(id))
  }

  function RunDue(s: Scheduler, snapshot: seq<Deadline>, now: int, behave: nat -> seq<Act>): Scheduler
    decreases |snapshot|
  {
    if snapshot == [] then s
    else RunDue(if snapshot[0].at <= now then RunEntry(s, snapshot[0].id, behave) else s, snapshot[1..], now, behave)
  }

  /** The native side has fired, so it holds no deadline any more. */
  function OnPulse(s: Scheduler, now: int, behave: nat -> seq<Act>): Scheduler {
    Update(RunDue(s.(recorded := None, native := None), s.pending, now, behave))
  }

  predicate Enabled(s: Scheduler, event: Event) {
    match event
    case Pulse(_) => s.listening
    case BeginWrite => s.writing == None && s.chain != []
    case EndWrite(_) => s.writing != None
    case _ => true
  }

  function Step(s: Scheduler, event: Event, behave: nat -> seq<Act>): Scheduler
    requires Enabled(s, event)
  {
    match event
    case Do(act) => Perform(s, act)
    case Timer(id) => RunEntry(s, id, behave)
    case Pulse(now) => OnPulse(s, now, behave)
    case AppState(foreground) => Update(s.(foreground := foreground))
    case BeginWrite =>
      s.(chain := s.chain[1..], writing := if s.recorded == s.chain[0] then Some(s.chain[0]) else None)
    case EndWrite(ok) =>
      var next := s.writing.value;
      if ok then s.(writing := None, native := next)
      else if s.recorded == next then s.(writing := None, recorded := None, faulted := true)
      else s.(writing := None)
  }

  predicate Runs(s: Scheduler, events: seq<Event>, behave: nat -> seq<Act>)
    decreases |events|
  {
    events == [] || (Enabled(s, events[0]) && Runs(Step(s, events[0], behave), events[1..], behave))
  }

  function Run(s: Scheduler, events: seq<Event>, behave: nat -> seq<Act>): Scheduler
    requires Runs(s, events, behave)
    decreases |events|
  {
    if events == [] then s else Run(Step(s, events[0], behave), events[1..], behave)
  }

  // ----- every callback at most once, none after its cancellation

  predicate Ascending(pending: seq<Deadline>) {
    forall i, j :: 0 <= i < j < |pending| ==> pending[i].id < pending[j].id
  }

  /** Pending, run and cancelled work is three disjoint groups of the identifiers handed out. */
  predicate Ids(s: Scheduler) {
    && Ascending(s.pending) && Distinct(s.ran)
    && (forall i :: 0 <= i < |s.pending| ==>
          s.pending[i].id < s.nextId && s.pending[i].id !in s.ran && s.pending[i].id !in s.cancelled)
    && (forall id :: id in s.ran ==> id < s.nextId && id !in s.cancelled)
    && (forall id :: id in s.cancelled ==> id < s.nextId)
  }

  lemma {:induction false} RemoveMembers(pending: seq<Deadline>, id: nat)
    requires Ascending(pending)
    ensures Ascending(Remove(pending, id))
    ensures forall d :: d in Remove(pending, id) <==> d in pending && d.id != id
  {
    if pending != [] {
      var rest := Remove(pending[1..], id);
      RemoveMembers(pending[1..], id);
      assert pending == [pending[0]] + pending[1..];
      forall i | 0 <= i < |rest| ensures pending[0].id < rest[i].id {
        assert rest[i] in pending[1..];
      }
    }
  }

  lemma RemoveKeepsIds(s: Scheduler, id: nat)
    requires Ids(s) && Has(s.pending, id)
    ensures Ids(s.(pending := Remove(s.pending, id), cancelled := s.cancelled + {id}))
    ensures Ids(s.(pending := Remove(s.pending, id), ran := s.ran + [id]))
    ensures !Has(Remove(s.pending, id), id)
  {
    var left := Remove(s.pending, id);
    RemoveMembers(s.pending, id);
    forall i | 0 <= i < |left|
      ensures left[i].id < s.nextId && left[i].id !in s.ran && left[i].id !in s.cancelled && left[i].id != id
    {
      assert left[i] in s.pending;
    }
  }

  /** What callbacks and cancellations can do to the rest of the state: nothing else runs, ids only
      grow, and an id that is not pending never is again. */
  predicate Grows(s: Scheduler, t: Scheduler) {
    && s.nextId <= t.nextId && s.cancelled <= t.cancelled && s.writing == t.writing && s.native == t.native
    && s.foreground == t.foreground && (s.listening ==> t.listening)
    && forall i :: 0 <= i < |t.pending| ==> t.pending[i] in s.pending || t.pending[i].id >= s.nextId
  }

  lemma GrowsTwice(s: Scheduler, t: Scheduler, u: Scheduler)
    requires Grows(s, t) && Grows(t, u)
    ensures Grows(s, u)
  {
    forall i | 0 <= i < |u.pending| ensures u.pending[i] in s.pending || u.pending[i].id >= s.nextId {
      if u.pending[i] in t.pending {
        var j :| 0 <= j < |t.pending| && t.pending[j] == u.pending[i];
      }
    }
  }

  lemma AddKeepsIds(s: Scheduler, t: Scheduler, at: int)
    requires Ids(s) && t.pending == s.pending + [Deadline(s.nextId, at)] && t.nextId == s.nextId + 1
    requires t.ran == s.ran && t.cancelled == s.cancelled
    ensures Ids(t)
  {}

  lemma CancelKeepsIds(s: Scheduler, id: nat)
    requires Ids(s)
    ensures var t := Perform(s, Cancel(id)); Ids(t) && t.ran == s.ran && Grows(s, t)
  {
    if Has(s.pending, id) {
      RemoveKeepsIds(s, id);
      RemoveMembers(s.pending, id);
    }
  }

  lemma PerformKeepsIds(s: Scheduler, act: Act)
    requires Ids(s)
    ensures var t := Perform(s, act); Ids(t) && t.ran == s.ran && Grows(s, t)
  {
    match act
    case Add(at, _) => AddKeepsIds(s, Perform(s, act), at);
    case Cancel(id) => CancelKeepsIds(s, id);
  }

  lemma {:induction false} PerformAllKeepsIds(s: Scheduler, acts: seq<Act>)
    requires Ids(s)
    ensures var t := PerformAll(s, acts); Ids(t) && t.ran == s.ran && Grows(s, t)
    decreases |acts|
  {
    if acts != [] {
      PerformKeepsIds(s, acts[0]);
      PerformAllKeepsIds(Perform(s, acts[0]), acts[1..]);
      GrowsTwice(s, Perform(s, acts[0]), PerformAll(s, acts));
    }
  }

  lemma RunEntryKeepsIds(s: Scheduler, id: nat, behave: nat -> seq<Act>)
    requires Ids(s)
    ensures var t := RunEntry(s, id, behave);
            Ids(t) && Grows(s, t) && t.ran == s.ran + (if Has(s.pending, id) then [id] else [])
    ensures id < s.nextId ==> !Has(RunEntry(s, id, behave).pending, id)
  {
    if Has(s.pending, id) {
      RemoveKeepsIds(s, id);
      RemoveMembers(s.pending, id);
      var removed := Update(s.(pending := Remove(s.pending, id))).(ran := s.ran + [id]);
      assert Ids(removed) && Grows(s, removed);
      PerformAllKeepsIds(removed, behave(id));
      GrowsTwice(s, removed, RunEntry(s, id, behave));
    }
  }

  predicate WasDue(snapshot: seq<Deadline>, id: nat, now: int) {
    exists i :: 0 <= i < |snapshot| && snapshot[i].id == id && snapshot[i].at <= now
  }

  lemma DueInTail(snapshot: seq<Deadline>, now: int, id: nat)
    requires snapshot != [] && WasDue(snapshot[1..], id, now)
    ensures WasDue(snapshot, id, now)
  {
    var i :| 0 <= i < |snapshot[1..]| && snapshot[1..][i].id == id && snapshot[1..][i].at <= now;
    assert snapshot[i + 1].id == id;
  }

  /** One pulse: what it runs comes from its snapshot and was due, so nothing scheduled by a callback
      runs in it; and nothing in the snapshot that was due is left pending. */
  lemma {:induction false} RunDueRunsTheSnapshot(s: Scheduler, snapshot: seq<Deadline>, now: int,
                                                behave: nat -> seq<Act>, first: nat)
    requires Ids(s) && first <= s.nextId
    requires forall i :: 0 <= i < |snapshot| ==> snapshot[i].id < first
    ensures var t := RunDue(s, snapshot, now, behave);
            && Ids(t) && Grows(s, t) && s.ran <= t.ran
            && (forall k :: |s.ran| <= k < |t.ran| ==> WasDue(snapshot, t.ran[k], now))
            && (forall i :: 0 <= i < |snapshot| && snapshot[i].at <= now ==> !Has(t.pending, snapshot[i].id))
    decreases |snapshot|
  {
    if snapshot != [] {
      var head := snapshot[0];
      var middle := if head.at <= now then RunEntry(s, head.id, behave) else s;
      var t := RunDue(s, snapshot, now, behave);
      if head.at <= now { RunEntryKeepsIds(s, head.id, behave); }
      RunDueRunsTheSnapshot(middle, snapshot[1..], now, behave, first);
      GrowsTwice(s, middle, t);
      forall k | |s.ran| <= k < |t.ran| ensures WasDue(snapshot, t.ran[k], now) {
        if k < |middle.ran| {
          assert t.ran[k] == middle.ran[k] && snapshot[0].id == t.ran[k];
        } else {
          DueInTail(snapshot, now, t.ran[k]);
        }
      }
      forall i | 0 <= i < |snapshot| && snapshot[i].at <= now ensures !Has(t.pending, snapshot[i].id) {
        if i > 0 {
          assert snapshot[1..][i - 1] == snapshot[i];
        } else if Has(t.pending, head.id) {
          WasPending(middle, t, head.id);
        }
      }
    }
  }

  lemma WasPending(s: Scheduler, t: Scheduler, id: nat)
    requires Grows(s, t) && Has(t.pending, id) && id < s.nextId
    ensures Has(s.pending, id)
  {
    var i :| 0 <= i < |t.pending| && t.pending[i].id == id;
    var j :| 0 <= j < |s.pending| && s.pending[j] == t.pending[i];
  }

  /** Ids only grow, and what is pending afterwards was pending before or is new. */
  predicate Advances(s: Scheduler, t: Scheduler) {
    && s.ran <= t.ran && s.cancelled <= t.cancelled && s.nextId <= t.nextId
    && forall i :: 0 <= i < |t.pending| ==> t.pending[i] in s.pending || t.pending[i].id >= s.nextId
  }

  lemma AdvancedPending(s: Scheduler, t: Scheduler, id: nat)
    requires Advances(s, t) && Has(t.pending, id) && id < s.nextId
    ensures Has(s.pending, id)
  {
    var i :| 0 <= i < |t.pending| && t.pending[i].id == id;
    var j :| 0 <= j < |s.pending| && s.pending[j] == t.pending[i];
  }

  lemma PulseKeepsIds(s: Scheduler, now: int, behave: nat -> seq<Act>)
    requires Ids(s)
    ensures Ids(OnPulse(s, now, behave)) && Advances(s, OnPulse(s, now, behave))
  {
    var begun := s.(recorded := None, native := None);
    RunDueRunsTheSnapshot(begun, s.pending, now, behave, s.nextId);
    SameIds(RunDue(begun, s.pending, now, behave), OnPulse(s, now, behave));
  }

  lemma SameIds(s: Scheduler, t: Scheduler)
    requires Ids(s) && t.pending == s.pending && t.nextId == s.nextId && t.ran == s.ran && t.cancelled == s.cancelled
    ensures Ids(t) && Advances(s, t)
  {}

  lemma StepKeepsIds(s: Scheduler, event: Event, behave: nat -> seq<Act>)
    requires Ids(s) && Enabled(s, event)
    ensures Ids(Step(s, event, behave)) && Advances(s, Step(s, event, behave))
  {
    match event
    case Do(act) => PerformKeepsIds(s, act);
    case Timer(id) => RunEntryKeepsIds(s, id, behave);
    case Pulse(now) => PulseKeepsIds(s, now, behave);
    case _ => SameIds(s, Step(s, event, behave));
  }

  lemma {:induction false} RunKeepsIds(s: Scheduler, events: seq<Event>, behave: nat -> seq<Act>)
    requires Ids(s) && Runs(s, events, behave)
    ensures var t := Run(s, events, behave);
            Ids(t) && s.ran <= t.ran && s.cancelled <= t.cancelled && s.nextId <= t.nextId
    decreases |events|
  {
    if events != [] {
      StepKeepsIds(s, events[0], behave);
      RunKeepsIds(Step(s, events[0], behave), events[1..], behave);
    }
  }

  /** In every run each callback runs at most once, and one cancelled while pending never. */
  lemma AtMostOnce(events: seq<Event>, behave: nat -> seq<Act>)
    requires Runs(IDLE, events, behave)
    ensures var t := Run(IDLE, events, behave);
            Distinct(t.ran) && forall id :: id in t.ran ==> id !in t.cancelled && !Has(t.pending, id)
  {
    RunKeepsIds(IDLE, events, behave);
  }

  lemma {:induction false} GoneForGood(s: Scheduler, events: seq<Event>, behave: nat -> seq<Act>, id: nat)
    requires Ids(s) && id < s.nextId && !Has(s.pending, id) && Runs(s, events, behave)
    ensures id in Run(s, events, behave).ran ==> id in s.ran
    decreases |events|
  {
    if events != [] {
      var t := Step(s, events[0], behave);
      StepKeepsIds(s, events[0], behave);
      if Has(t.pending, id) { AdvancedPending(s, t, id); }
      GoneForGood(t, events[1..], behave, id);
      if id in t.ran && id !in s.ran { RanWasPending(s, events[0], behave, id); }
    }
  }

  /** A pulse runs due work of its own snapshot only, and leaves none of it waiting. */
  lemma PulseRunsWhatWasDue(s: Scheduler, now: int, behave: nat -> seq<Act>)
    requires Ids(s)
    ensures s.ran <= OnPulse(s, now, behave).ran
    ensures forall k :: |s.ran| <= k < |OnPulse(s, now, behave).ran| ==> WasDue(s.pending, OnPulse(s, now, behave).ran[k], now)
    ensures forall i :: 0 <= i < |s.pending| && s.pending[i].at <= now ==>
              !Has(OnPulse(s, now, behave).pending, s.pending[i].id)
  {
    var begun := s.(recorded := None, native := None);
    var done, t := RunDue(begun, s.pending, now, behave), OnPulse(s, now, behave);
    RunDueRunsTheSnapshot(begun, s.pending, now, behave, s.nextId);
    assert t.ran == done.ran && t.pending == done.pending;
  }

  lemma MemberAfter(front: seq<nat>, whole: seq<nat>, id: nat) returns (k: nat)
    requires front <= whole && id in whole && id !in front
    ensures |front| <= k < |whole| && whole[k] == id
  {
    assert whole == front + whole[|front|..];
    var i :| 0 <= i < |whole[|front|..]| && whole[|front|..][i] == id;
    k := |front| + i;
  }

  lemma RanWasPending(s: Scheduler, event: Event, behave: nat -> seq<Act>, id: nat)
    requires Ids(s) && Enabled(s, event) && id in Step(s, event, behave).ran && id !in s.ran
    ensures Has(s.pending, id)
  {
    match event
    case Do(act) => PerformKeepsIds(s, act);
    case Timer(other) => RunEntryKeepsIds(s, other, behave);
    case Pulse(now) =>
      var ran := OnPulse(s, now, behave).ran;
      PulseRunsWhatWasDue(s, now, behave);
      var k := MemberAfter(s.ran, ran, id);
      assert WasDue(s.pending, id, now);
    case _ =>
  }

  /** Calling the cancel function ends it: however the run goes on, the callback does not run after. */
  lemma NeverAfterCancel(s: Scheduler, id: nat, events: seq<Event>, behave: nat -> seq<Act>)
    requires Ids(s) && id < s.nextId && Runs(Perform(s, Cancel(id)), events, behave)
    ensures id in Run(Perform(s, Cancel(id)), events, behave).ran ==> id in s.ran
  {
    var t := Perform(s, Cancel(id));
    PerformKeepsIds(s, Cancel(id));
    if Has(s.pending, id) { RemoveKeepsIds(s, id); }
    GoneForGood(t, events, behave, id);
  }

  // ----- no callback is forgotten

  /** Every identifier handed out is pending, has run, or was cancelled. */
  ghost predicate Accounted(s: Scheduler) {
    forall id: nat :: id < s.nextId ==> AccountedFor(s, id)
  }

  predicate AccountedFor(s: Scheduler, id: nat) {
    Has(s.pending, id) || id in s.ran || id in s.cancelled
  }

  lemma StillPending(pending: seq<Deadline>, id: nat, other: nat)
    requires Ascending(pending) && Has(pending, other) && other != id
    ensures Has(Remove(pending, id), other)
  {
    RemoveMembers(pending, id);
    var i :| 0 <= i < |pending| && pending[i].id == other;
    assert pending[i] in Remove(pending, id);
  }

  lemma RemoveKeepsAccounted(s: Scheduler, t: Scheduler, id: nat)
    requires Ids(s) && Accounted(s) && t.pending == Remove(s.pending, id) && t.nextId == s.nextId
    requires s.ran <= t.ran && s.cancelled <= t.cancelled && (id in t.ran || id in t.cancelled)
    ensures Accounted(t)
  {
    forall other: nat | other < t.nextId ensures AccountedFor(t, other) {
      assert AccountedFor(s, other);
      if other != id && Has(s.pending, other) { StillPending(s.pending, id, other); }
    }
  }

  lemma PerformKeepsAccounted(s: Scheduler, act: Act)
    requires Ids(s) && Accounted(s)
    ensures Accounted(Perform(s, act))
  {
    var t := Perform(s, act);
    match act
    case Add(at, _) =>
      forall id: nat | id < t.nextId ensures AccountedFor(t, id) {
        if id == s.nextId {
          assert t.pending[|s.pending|].id == id;
        } else if Has(s.pending, id) {
          var i :| 0 <= i < |s.pending| && s.pending[i].id == id;
          assert t.pending[i].id == id;
        } else {
          assert AccountedFor(s, id);
        }
      }
    case Cancel(id) => if Has(s.pending, id) { RemoveKeepsAccounted(s, t, id); }
  }

  lemma {:induction false} PerformAllKeepsAccounted(s: Scheduler, acts: seq<Act>)
    requires Ids(s) && Accounted(s)
    ensures Accounted(PerformAll(s, acts))
    decreases |acts|
  {
    if acts != [] {
      PerformKeepsIds(s, acts[0]);
      PerformKeepsAccounted(s, acts[0]);
      PerformAllKeepsAccounted(Perform(s, acts[0]), acts[1..]);
    }
  }

  lemma RunEntryKeepsAccounted(s: Scheduler, id: nat, behave: nat -> seq<Act>)
    requires Ids(s) && Accounted(s)
    ensures Accounted(RunEntry(s, id, behave))
  {
    if Has(s.pending, id) {
      var removed := Update(s.(pending := Remove(s.pending, id))).(ran := s.ran + [id]);
      RemoveKeepsIds(s, id);
      SameIds(s.(pending := Remove(s.pending, id), ran := s.ran + [id]), removed);
      RemoveKeepsAccounted(s, removed, id);
      PerformAllKeepsAccounted(removed, behave(id));
    }
  }

  lemma {:induction false} RunDueKeepsAccounted(s: Scheduler, snapshot: seq<Deadline>, now: int, behave: nat -> seq<Act>)
    requires Ids(s) && Accounted(s)
    ensures Accounted(RunDue(s, snapshot, now, behave))
    decreases |snapshot|
  {
    if snapshot != [] {
      var head := snapshot[0];
      if head.at <= now {
        RunEntryKeepsIds(s, head.id, behave);
        RunEntryKeepsAccounted(s, head.id, behave);
      }
      RunDueKeepsAccounted(if head.at <= now then RunEntry(s, head.id, behave) else s, snapshot[1..], now, behave);
    }
  }

  lemma SameAccounted(s: Scheduler, t: Scheduler)
    requires Accounted(s) && t.pending == s.pending && t.nextId == s.nextId && t.ran == s.ran && t.cancelled == s.cancelled
    ensures Accounted(t)
  {
    forall id: nat | id < t.nextId ensures AccountedFor(t, id) { assert AccountedFor(s, id); }
  }

  lemma StepKeepsAccounted(s: Scheduler, event: Event, behave: nat -> seq<Act>)
    requires Ids(s) && Accounted(s) && Enabled(s, event)
    ensures Accounted(Step(s, event, behave))
  {
    match event
    case Do(act) => PerformKeepsAccounted(s, act);
    case Timer(id) => RunEntryKeepsAccounted(s, id, behave);
    case Pulse(now) =>
      var begun := s.(recorded := None, native := None);
      SameIds(s, begun);
      SameAccounted(s, begun);
      RunDueKeepsAccounted(begun, s.pending, now, behave);
      SameAccounted(RunDue(begun, s.pending, now, behave), Step(s, event, behave));
    case _ => SameAccounted(s, Step(s, event, behave));
  }

  lemma {:induction false} RunKeepsAccounted(s: Scheduler, events: seq<Event>, behave: nat -> seq<Act>)
    requires Ids(s) && Accounted(s) && Runs(s, events, behave)
    ensures Accounted(Run(s, events, behave))
    decreases |events|
  {
    if events != [] {
      StepKeepsIds(s, events[0], behave);
      StepKeepsAccounted(s, events[0], behave);
      RunKeepsAccounted(Step(s, events[0], behave), events[1..], behave);
    }
  }

  /** No callback is forgotten: in every run, each one handed in is still pending, has run, or was
      cancelled; and when a pulse ends, each one that was due at its start has run or was cancelled. */
  lemma NothingIsForgotten(events: seq<Event>, behave: nat -> seq<Act>, now: int, i: nat)
    requires Runs(IDLE, events, behave)
    ensures Accounted(Run(IDLE, events, behave))
    ensures var s := Run(IDLE, events, behave); var t := OnPulse(s, now, behave);
            i < |s.pending| && s.pending[i].at <= now ==> s.pending[i].id in t.ran || s.pending[i].id in t.cancelled
  {
    var s := Run(IDLE, events, behave);
    RunKeepsIds(IDLE, events, behave);
    RunKeepsAccounted(IDLE, events, behave);
    if i < |s.pending| && s.pending[i].at <= now {
      var begun := s.(recorded := None, native := None);
      var t := OnPulse(s, now, behave);
      SameIds(s, begun);
      SameAccounted(s, begun);
      RunDueKeepsAccounted(begun, s.pending, now, behave);
      SameAccounted(RunDue(begun, s.pending, now, behave), t);
      PulseKeepsIds(s, now, behave);
      PulseRunsWhatWasDue(s, now, behave);
      assert AccountedFor(t, s.pending[i].id);
    }
  }

  // ----- the native deadline

  /** What the native side will hold once the write in flight is done. */
  function Coming(s: Scheduler): Option<int> {
    if s.writing == None then s.native else s.writing.value
  }

  /** The recorded deadline is on its way to the native side or there already. */
  predicate Covered(s: Scheduler) {
    Coming(s) == s.recorded || s.recorded in s.chain
  }

  /** After every operation the record is the earliest pending deadline, unless a failed write has
      been noted since. */
  predicate Recorded(s: Scheduler) {
    && (s.listening && !s.faulted ==> s.recorded == Next(s))
    && (!s.listening ==> s.recorded == None && s.chain == [] && s.writing == None && s.native == None && !s.faulted)
  }

  predicate Armed(s: Scheduler) {
    s.recorded != None ==> Covered(s)
  }

  /** The record moves only by queueing what it moves to. */
  predicate Queues(s: Scheduler, t: Scheduler) {
    && s.chain <= t.chain && s.writing == t.writing && s.native == t.native
    && (t.recorded == s.recorded || t.recorded in t.chain)
  }

  lemma QueuesTwice(s: Scheduler, t: Scheduler, u: Scheduler)
    requires Queues(s, t) && Queues(t, u)
    ensures Queues(s, u)
  {
    if t.recorded in t.chain {
      var i :| 0 <= i < |t.chain| && t.chain[i] == t.recorded;
      assert u.chain[i] == t.recorded;
    }
  }

  lemma QueuesKeeps(s: Scheduler, t: Scheduler)
    requires Queues(s, t)
    ensures Covered(s) ==> Covered(t)
    ensures Armed(s) ==> Armed(t)
  {
    if s.recorded in s.chain {
      var i :| 0 <= i < |s.chain| && s.chain[i] == s.recorded;
      assert t.chain[i] == s.recorded;
    }
  }

  lemma UpdateQueues(s: Scheduler)
    ensures Queues(s, Update(s)) && (s.listening ==> Update(s).recorded == Next(s) && !Update(s).faulted)
  {}

  lemma PerformQueues(s: Scheduler, act: Act)
    ensures Queues(s, Perform(s, act)) && (Recorded(s) ==> Recorded(Perform(s, act)))
  {}

  lemma {:induction false} PerformAllQueues(s: Scheduler, acts: seq<Act>)
    ensures Queues(s, PerformAll(s, acts)) && (Recorded(s) ==> Recorded(PerformAll(s, acts)))
    decreases |acts|
  {
    if acts != [] {
      PerformQueues(s, acts[0]);
      PerformAllQueues(Perform(s, acts[0]), acts[1..]);
      QueuesTwice(s, Perform(s, acts[0]), PerformAll(s, acts));
    }
  }

  lemma RunEntryQueues(s: Scheduler, id: nat, behave: nat -> seq<Act>)
    ensures Queues(s, RunEntry(s, id, behave)) && (Recorded(s) ==> Recorded(RunEntry(s, id, behave)))
  {
    if Has(s.pending, id) {
      var removed := Update(s.(pending := Remove(s.pending, id))).(ran := s.ran + [id]);
      assert Queues(s, removed);
      PerformAllQueues(removed, behave(id));
      QueuesTwice(s, removed, RunEntry(s, id, behave));
    }
  }

  lemma {:induction false} RunDueQueues(s: Scheduler, snapshot: seq<Deadline>, now: int, behave: nat -> seq<Act>)
    ensures Queues(s, RunDue(s, snapshot, now, behave))
    decreases |snapshot|
  {
    if snapshot != [] {
      var middle := if snapshot[0].at <= now then RunEntry(s, snapshot[0].id, behave) else s;
      if snapshot[0].at <= now { RunEntryQueues(s, snapshot[0].id, behave); }
      RunDueQueues(middle, snapshot[1..], now, behave);
      QueuesTwice(s, middle, RunDue(s, snapshot, now, behave));
    }
  }

  lemma PulseQueues(s: Scheduler, now: int, behave: nat -> seq<Act>)
    requires s.listening && Ids(s)
    ensures var t := OnPulse(s, now, behave);
            Queues(s.(recorded := None, native := None), t) && Recorded(t)
  {
    var begun := s.(recorded := None, native := None);
    var done := RunDue(begun, s.pending, now, behave);
    RunDueQueues(begun, s.pending, now, behave);
    RunDueRunsTheSnapshot(begun, s.pending, now, behave, s.nextId);
    UpdateQueues(done);
    QueuesTwice(begun, done, Update(done));
  }

  predicate Inv(s: Scheduler) {
    Ids(s) && Recorded(s) && Armed(s)
  }

  lemma StepKeepsInv(s: Scheduler, event: Event, behave: nat -> seq<Act>)
    requires Inv(s) && Enabled(s, event)
    ensures Inv(Step(s, event, behave))
  {
    var t := Step(s, event, behave);
    StepKeepsIds(s, event, behave);
    match event
    case Do(act) => PerformQueues(s, act); QueuesKeeps(s, t);
    case Timer(id) => RunEntryQueues(s, id, behave); QueuesKeeps(s, t);
    case Pulse(now) => PulseQueues(s, now, behave); QueuesKeeps(s.(recorded := None, native := None), t);
    case AppState(foreground) => UpdateQueues(s.(foreground := foreground)); QueuesKeeps(s, t);
    case _ =>
  }

  lemma {:induction false} RunKeepsInv(s: Scheduler, events: seq<Event>, behave: nat -> seq<Act>)
    requires Inv(s) && Runs(s, events, behave)
    ensures Inv(Run(s, events, behave))
    decreases |events|
  {
    if events != [] {
      StepKeepsInv(s, events[0], behave);
      RunKeepsInv(Step(s, events[0], behave), events[1..], behave);
    }
  }

  /** In the background, with the listener installed and no failed write outstanding, the record is
      the least pending deadline; and when the write chain has drained, the native side holds it. No
      order of writes, pulses and operations loses a deadline. */
  lemma DeadlineIsArmed(events: seq<Event>, behave: nat -> seq<Act>)
    requires Runs(IDLE, events, behave)
    ensures var t := Run(IDLE, events, behave);
            t.listening && !t.faulted && !t.foreground && t.pending != [] ==>
              && t.recorded.Some?
              && (forall i :: 0 <= i < |t.pending| ==> t.recorded.value <= t.pending[i].at)
              && (exists i :: 0 <= i < |t.pending| && t.pending[i].at == t.recorded.value)
              && (t.chain == [] && t.writing == None ==> t.native == t.recorded)
    ensures var t := Run(IDLE, events, behave);
            t.listening && !t.faulted && (t.foreground || t.pending == []) ==> t.recorded == None
  {
    RunKeepsInv(IDLE, events, behave);
    EarliestIsMinimum(Run(IDLE, events, behave).pending);
  }

  /** A failed write is made good by the next operation: it records and queues the deadline again. */
  lemma NextUpdateRetries(s: Scheduler)
    requires Inv(s) && s.listening && s.faulted
    ensures var t := Update(s);
            !t.faulted && t.recorded == Next(s) && (Next(s) != None && s.recorded == None ==> Next(s) in t.chain)
  {}

  /** The native side holds what the last successful write stored, until it fires. A write that fails
      stores nothing; it withdraws the record, for the next operation to write again, exactly when the
      record is still what it tried to store. */
  lemma OnlySuccessfulWritesStore(s: Scheduler, event: Event, behave: nat -> seq<Act>)
    requires Inv(s) && Enabled(s, event)
    ensures var t := Step(s, event, behave);
            && (event == EndWrite(true) ==> Some(t.native) == s.writing && t.recorded == s.recorded && t.faulted == s.faulted)
            && (event == EndWrite(false) ==>
                  && t.native == s.native
                  && (if Some(s.recorded) == s.writing then t.recorded == None && t.faulted
                      else t.recorded == s.recorded && t.faulted == s.faulted))
            && (event.Pulse? ==> t.native == None)
            && (!event.EndWrite? && !event.Pulse? ==> t.native == s.native)
  {
    match event
    case Do(act) => PerformQueues(s, act);
    case Timer(id) => RunEntryQueues(s, id, behave);
    case Pulse(now) => PulseQueues(s, now, behave);
    case _ =>
  }

  function Backlog(s: Scheduler): nat {
    2 * |s.chain| + if s.writing == None then 0 else 1
  }

  /** While something is queued or being written, the native side can go on, and each time it does less
      is left. */
  lemma ChainDrains(s: Scheduler, event: Event, behave: nat -> seq<Act>)
    requires event.BeginWrite? || event.EndWrite?
    ensures Backlog(s) > 0 <==> Enabled(s, BeginWrite) || Enabled(s, EndWrite(true))
    ensures Enabled(s, event) ==> Backlog(Step(s, event, behave)) < Backlog(s)
  {}

  /** The native side left alone, with every write succeeding. */
  function Drain(s: Scheduler): Scheduler
    decreases Backlog(s)
  {
    if s.writing != None then Drain(Step(s, EndWrite(true), Quiet))
    else if s.chain != [] then Drain(Step(s, BeginWrite, Quiet))
    else s
  }

  lemma {:induction false} DrainKeepsRecord(s: Scheduler)
    requires Inv(s)
    ensures var t := Drain(s);
            && Inv(t) && t.chain == [] && t.writing == None && t.recorded == s.recorded && t.pending == s.pending
            && t.listening == s.listening && t.foreground == s.foreground && t.faulted == s.faulted
    decreases Backlog(s)
  {
    if s.writing != None {
      StepKeepsInv(s, EndWrite(true), Quiet);
      DrainKeepsRecord(Step(s, EndWrite(true), Quiet));
    } else if s.chain != [] {
      StepKeepsInv(s, BeginWrite, Quiet);
      DrainKeepsRecord(Step(s, BeginWrite, Quiet));
    }
  }

  /** So whatever happened before, as soon as the native side has caught up it holds the least pending
      deadline, in the background and with no failed write outstanding. */
  lemma CaughtUpIsArmed(events: seq<Event>, behave: nat -> seq<Act>)
    requires Runs(IDLE, events, behave)
    ensures var s := Run(IDLE, events, behave);
            s.listening && !s.faulted && !s.foreground && s.pending != [] ==>
              var native := Drain(s).native;
              && native.Some?
              && (forall i :: 0 <= i < |s.pending| ==> native.value <= s.pending[i].at)
              && (exists i :: 0 <= i < |s.pending| && s.pending[i].at == native.value)
  {
    var s := Run(IDLE, events, behave);
    RunKeepsInv(IDLE, events, behave);
    DrainKeepsRecord(s);
    EarliestIsMinimum(s.pending);
  }

  // ----- no deadline left behind either

  /** A pulse overtakes a write when it arrives while one is storing a deadline. */
  predicate Overtakes(s: Scheduler, event: Event) {
    event.Pulse? && s.writing.Some? && s.writing.value.Some?
  }

  predicate Smooth(s: Scheduler, events: seq<Event>, behave: nat -> seq<Act>)
    requires Runs(s, events, behave)
    decreases |events|
  {
    events == [] || (!Overtakes(s, events[0]) && events[0] != EndWrite(false) &&
                     Smooth(Step(s, events[0], behave), events[1..], behave))
  }

  lemma {:induction false} SmoothRunsStayCovered(s: Scheduler, events: seq<Event>, behave: nat -> seq<Act>)
    requires Inv(s) && Covered(s) && Runs(s, events, behave) && Smooth(s, events, behave)
    ensures Covered(Run(s, events, behave))
    decreases |events|
  {
    if events != [] {
      var event, t := events[0], Step(s, events[0], behave);
      StepKeepsInv(s, event, behave);
      match event {
        case Do(act) => PerformQueues(s, act); QueuesKeeps(s, t);
        case Timer(id) => RunEntryQueues(s, id, behave); QueuesKeeps(s, t);
        case Pulse(now) => PulseQueues(s, now, behave); QueuesKeeps(s.(recorded := None, native := None), t);
        case AppState(foreground) => UpdateQueues(s.(foreground := foreground)); QueuesKeeps(s, t);
        case _ =>
      }
      SmoothRunsStayCovered(t, events[1..], behave);
    }
  }

  /** Without failed writes and without a pulse overtaking one, a drained chain leaves the native
      side with exactly the record: no deadline when none is wanted. */
  lemma DrainedNativeIsExact(events: seq<Event>, behave: nat -> seq<Act>)
    requires Runs(IDLE, events, behave) && Smooth(IDLE, events, behave)
    ensures var t := Run(IDLE, events, behave);
            t.chain == [] && t.writing == None ==>
              && t.native == t.recorded
              && (t.native == None <==> !t.listening || t.foreground || t.pending == [])
              && (t.native.Some? ==>
                    && (forall i :: 0 <= i < |t.pending| ==> t.native.value <= t.pending[i].at)
                    && (exists i :: 0 <= i < |t.pending| && t.pending[i].at == t.native.value))
  {
    EarliestIsMinimum(Run(IDLE, events, behave).pending);
    SmoothRunsStayCovered(IDLE, events, behave);
    RunKeepsInv(IDLE, events, behave);
    NoFaults(IDLE, events, behave);
  }

  lemma FaultsNeedFailures(s: Scheduler, event: Event, behave: nat -> seq<Act>)
    requires Inv(s) && !s.faulted && Enabled(s, event) && event != EndWrite(false)
    ensures !Step(s, event, behave).faulted
  {
    match event
    case Do(act) =>
    case Timer(id) => if Has(s.pending, id) { NoFaultInActs(Update(s.(pending := Remove(s.pending, id))).(ran := s.ran + [id]), behave(id)); }
    case Pulse(now) => PulseQueues(s, now, behave); RunDueRunsTheSnapshot(s.(recorded := None, native := None), s.pending, now, behave, s.nextId);
    case _ =>
  }

  lemma {:induction false} NoFaultInActs(s: Scheduler, acts: seq<Act>)
    requires !s.faulted
    ensures !PerformAll(s, acts).faulted
    decreases |acts|
  {
    if acts != [] { NoFaultInActs(Perform(s, acts[0]), acts[1..]); }
  }

  lemma {:induction false} NoFaults(s: Scheduler, events: seq<Event>, behave: nat -> seq<Act>)
    requires Inv(s) && !s.faulted && Runs(s, events, behave) && Smooth(s, events, behave)
    ensures !Run(s, events, behave).faulted
    decreases |events|
  {
    if events != [] {
      StepKeepsInv(s, events[0], behave);
      FaultsNeedFailures(s, events[0], behave);
      NoFaults(Step(s, events[0], behave), events[1..], behave);
    }
  }

  /** The exact damage of a pulse that arrives in a covered state: the native side keeps a deadline
      nobody wants just when one is being stored, the pulse leaves nothing to wake up for, and no
      queued update clears it. */
  lemma PulseLeavesStaleDeadline(s: Scheduler, now: int, behave: nat -> seq<Act>)
    requires Inv(s) && Covered(s) && s.listening
    ensures var t := OnPulse(s, now, behave);
            !Covered(t) <==> Overtakes(s, Pulse(now)) && Next(t) == None && None !in t.chain
  {
    PulseQueues(s, now, behave);
    QueuesKeeps(s.(recorded := None, native := None), OnPulse(s, now, behave));
    UpdateQueues(RunDue(s.(recorded := None, native := None), s.pending, now, behave));
  }

  function Quiet(id: nat): seq<Act> {
    []
  }

  /** It happens: the write for the only deadline is still under way when a pulse runs its work. */
  lemma OvertakingPulse()
    ensures var events := [AppState(false), Do(Add(10, true)), BeginWrite, Pulse(10), EndWrite(true)];
            Runs(IDLE, events, Quiet) &&
            var t := Run(IDLE, events, Quiet);
            t.pending == [] && t.recorded == None && t.chain == [] && t.writing == None && t.native == Some(10)
  {
    var s1 := Step(IDLE, AppState(false), Quiet);
    var s2 := Step(s1, Do(Add(10, true)), Quiet);
    assert s2.pending == [Deadline(0, 10)];
    EarliestIsMinimum(s2.pending);
    var s3 := Step(s2, BeginWrite, Quiet);
    assert s3 == Scheduler([Deadline(0, 10)], 1, [], {}, true, false, Some(10), false, [], Some(Some(10)), None);
    PulseRunsTheOne(s3);
    var s4 := Step(s3, Pulse(10), Quiet);
    var s5 := Step(s4, EndWrite(true), Quiet);
    assert Run(s4, [EndWrite(true)], Quiet) == s5;
    assert Run(s3, [Pulse(10), EndWrite(true)], Quiet) == s5;
  }

  lemma PulseRunsTheOne(s: Scheduler)
    requires s.pending == [Deadline(0, 10)] && s.listening && !s.foreground && s.chain == []
    ensures var t := OnPulse(s, 10, Quiet);
            t.pending == [] && t.recorded == None && t.chain == [] && t.writing == s.writing && t.native == None
  {
    var begun := s.(recorded := None, native := None);
    assert begun.pending[0].id == 0 && Has(begun.pending, 0);
    assert Remove(begun.pending, 0) == [];
    var done := RunDue(begun, s.pending, 10, Quiet);
    assert done == RunDue(RunEntry(begun, 0, Quiet), [], 10, Quiet) == RunEntry(begun, 0, Quiet);
    assert done.pending == [] && done.recorded == None && done.chain == [];
  }
}
