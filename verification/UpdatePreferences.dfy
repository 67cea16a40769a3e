/** Optimistic update preferences over one serialized file write at a time, desktop/update-preferences.ts. */
module UpdatePreferencesModel {
  import opened Wrappers

  datatype Stage = Available | Downloaded

  /** The two states of an update that can be skipped or deferred, and all the others. */
  datatype Status = Other | Offered(stage: Stage, version: string)

  datatype Reminder = Reminder(version: string, stage: Stage, due: int)

  datatype Preferences = Preferences(skippedVersion: Option<string>, reminder: Option<Reminder>)

  const UPDATE_CHECK_INTERVAL_MS := 24 * 60 * 60 * 1000

  /** A preferences object; the code compares them by identity, which id stands for. */
  datatype Version = Version(id: nat, prefs: Preferences)

  datatype Settings = Settings(
    value: Version, committed: Version,
    writes: seq<Version>,                // saves not settled yet, the first one being written
    file: Preferences, nextId: nat)

  datatype Event = Skip(version: string) | Defer(status: Status, now: int) | Settle(ok: bool)

  function Loaded(prefs: Preferences): Settings {
    Settings(Version(0, prefs), Version(0, prefs), [], prefs, 1)
  }

  function Save(s: Settings, next: Preferences): Settings {
    s.(value := Version(s.nextId, next), writes := s.writes + [Version(s.nextId, next)], nextId := s.nextId + 1)
  }

  /** The first write settles; a failed one takes its own value back, if it is still shown. */
  function SettleWrite(s: Settings, ok: bool): Settings
    requires s.writes != []
  {
    var next := s.writes[0];
    var left := s.(writes := s.writes[1..]);
    if ok then left.(file := next.prefs, committed := next)
    else if s.value.id == next.id then left.(value := s.committed) else left
  }

  function AfterSkip(prefs: Preferences, version: string): Preferences {
    prefs.(skippedVersion := Some(version))
  }

  function AfterDefer(prefs: Preferences, status: Status, now: int): Preferences
    requires status.Offered?
  {
    prefs.(reminder := Some(Reminder(status.version, status.stage, now + UPDATE_CHECK_INTERVAL_MS)))
  }

  predicate Enabled(s: Settings, event: Event) {
    event.Settle? ==> s.writes != []
  }

  function Step(s: Settings, event: Event): Settings
    requires Enabled(s, event)
  {
    match event
    case Skip(version) => Save(s, AfterSkip(s.value.prefs, version))
    case Defer(status, now) => if status.Other? then s else Save(s, AfterDefer(s.value.prefs, status, now))
    case Settle(ok) => SettleWrite(s, ok)
  }

  predicate Runs(s: Settings, events: seq<Event>)
    decreases |events|
  {
    events == [] || (Enabled(s, events[0]) && Runs(Step(s, events[0]), events[1..]))
  }

  function Run(s: Settings, events: seq<Event>): Settings
    requires Runs(s, events)
    decreases |events|
  {
    if events == [] then s else Run(Step(s, events[0]), events[1..])
  }

  /** The last save shown, or the committed one when none is under way; saves are told apart. */
  predicate Inv(s: Settings) {
    && s.value == (if s.writes == [] then s.committed else s.writes[|s.writes| - 1])
    && s.file == s.committed.prefs
    && s.committed.id < s.nextId
    && (forall i :: 0 <= i < |s.writes| ==> s.committed.id < s.writes[i].id < s.nextId)
    && (forall i, j :: 0 <= i < j < |s.writes| ==> s.writes[i].id < s.writes[j].id)
  }

  lemma StepKeepsInv(s: Settings, event: Event)
    requires Inv(s) && Enabled(s, event)
    ensures Inv(Step(s, event))
  {}

  // ----- the reference: which saves reached the file

  /** The preferences of the last save that succeeded, over the saves a run settles in order. */
  function LastSaved(s: Settings, events: seq<Event>, saved: Preferences): Preferences
    requires Runs(s, events)
    decreases |events|
  {
    if events == [] then saved
    else LastSaved(Step(s, events[0]), events[1..],
                   if events[0] == Settle(true) then s.writes[0].prefs else saved)
  }

  lemma {:induction false} RunKeepsInv(s: Settings, events: seq<Event>)
    requires Inv(s) && Runs(s, events)
    ensures Inv(Run(s, events)) && Run(s, events).file == LastSaved(s, events, s.file)
    decreases |events|
  {
    if events != [] {
      StepKeepsInv(s, events[0]);
      RunKeepsInv(Step(s, events[0]), events[1..]);
    }
  }

  /** Whatever saves overlapped and whichever of them failed: once all have settled, the value in
      memory is the last one that was written, and it is what the file holds. */
  lemma SettledValueIsTheFile(prefs: Preferences, events: seq<Event>)
    requires Runs(Loaded(prefs), events)
    ensures var s := Run(Loaded(prefs), events);
            s.file == LastSaved(Loaded(prefs), events, prefs) &&
            (s.writes == [] ==> s.value == s.committed && s.value.prefs == s.file)
  {
    RunKeepsInv(Loaded(prefs), events);
  }

  /** While saves are under way the newest of them shows, even if an earlier one fails. */
  lemma EarlierFailureDoesNotShow(s: Settings, ok: bool)
    requires Inv(s) && |s.writes| > 1
    ensures SettleWrite(s, ok).value == s.value
  {}

  /** A save is built on the value shown, not on the one written. So a skip whose own write failed,
      and whose caller was told so, is written all the same by a reminder saved before it settled. */
  lemma FailedSkipIsWrittenByTheNextSave(prefs: Preferences, version: string, status: Status, now: int)
    requires status.Offered? && prefs.skippedVersion != Some(version)
    ensures var events := [Skip(version), Defer(status, now), Settle(false), Settle(true)];
            Runs(Loaded(prefs), events) && Run(Loaded(prefs), events).file.skippedVersion == Some(version)
  {
    var s1 := Step(Loaded(prefs), Skip(version));
    var s2 := Step(s1, Defer(status, now));
    assert |s2.writes| == 2 && s2.writes[1].prefs.skippedVersion == Some(version);
    var s3 := Step(s2, Settle(false));
    assert s3.writes == [s2.writes[1]];
    var s4 := Step(s3, Settle(true));
    assert Run(s3, [Settle(true)]) == s4;
    assert Run(s2, [Settle(false), Settle(true)]) == s4;
    assert Run(s1, [Defer(status, now), Settle(false), Settle(true)]) == s4;
  }

  // ----- which changes a save carries

  /** A save of a run: its id and the call that asked for it. */
  datatype Saved = Saved(id: nat, change: Event)

  /** The saves each version was built on, itself the last. */
  type Lineage = map<nat, seq<Saved>>

  function After(prefs: Preferences, change: Event): Preferences {
    match change
    case Skip(version) => AfterSkip(prefs, version)
    case Defer(status, now) => if status.Other? then prefs else AfterDefer(prefs, status, now)
    case Settle(_) => prefs
  }

  function ApplyAll(prefs: Preferences, saves: seq<Saved>): Preferences {
    if saves == [] then prefs else After(ApplyAll(prefs, saves[..|saves| - 1]), saves[|saves| - 1].change)
  }

  predicate Saves(event: Event) {
    event.Skip? || (event.Defer? && event.status.Offered?)
  }

  function BuiltOn(l: Lineage, id: nat): seq<Saved> {
    if id in l then l[id] else []
  }

  function Track(s: Settings, l: Lineage, event: Event): Lineage {
    if Saves(event) then l[s.nextId := BuiltOn(l, s.value.id) + [Saved(s.nextId, event)]] else l
  }

  function TrackAll(s: Settings, l: Lineage, events: seq<Event>): Lineage
    requires Runs(s, events)
    decreases |events|
  {
    if events == [] then l else TrackAll(Step(s, events[0]), Track(s, l, events[0]), events[1..])
  }

  predicate Carries(saves: seq<Saved>, n: nat) {
    exists i :: 0 <= i < |saves| && saves[i].id == n
  }

  ghost predicate Meant(l: Lineage, start: Preferences, v: Version) {
    && v.prefs == ApplyAll(start, BuiltOn(l, v.id))
    && forall n: nat :: Carries(BuiltOn(l, v.id), n) ==> n <= v.id
  }

  /** Every live version is its saves applied in order, and a queued save is built on those before it. */
  ghost predicate LineageInv(s: Settings, l: Lineage, start: Preferences) {
    && Inv(s)
    && Meant(l, start, s.committed)
    && (forall i :: 0 <= i < |s.writes| ==> Meant(l, start, s.writes[i]))
    && (forall i, j :: 0 <= j <= i < |s.writes| ==> Carries(BuiltOn(l, s.writes[i].id), s.writes[j].id))
  }

  lemma CarriesSnoc(saves: seq<Saved>, last: Saved, n: nat)
    ensures Carries(saves + [last], n) <==> Carries(saves, n) || n == last.id
  {
    assert (saves + [last])[|saves|] == last;
    if Carries(saves, n) {
      var i :| 0 <= i < |saves| && saves[i].id == n;
      assert (saves + [last])[i].id == n;
    }
  }

  lemma ApplySnoc(start: Preferences, saves: seq<Saved>, last: Saved)
    ensures ApplyAll(start, saves + [last]) == After(ApplyAll(start, saves), last.change)
  {
    assert (saves + [last])[..|saves|] == saves;
  }

  lemma OtherVersionsStay(s: Settings, l: Lineage, event: Event, start: Preferences, v: Version)
    requires Meant(l, start, v) && v.id < s.nextId
    ensures BuiltOn(Track(s, l, event), v.id) == BuiltOn(l, v.id) && Meant(Track(s, l, event), start, v)
  {}

  /** The version a new save makes. */
  lemma NewVersion(s: Settings, l: Lineage, event: Event, start: Preferences)
    requires Inv(s) && Meant(l, start, s.value) && Saves(event)
    ensures var v := Version(s.nextId, After(s.value.prefs, event));
            && Meant(Track(s, l, event), start, v)
            && forall n: nat :: Carries(BuiltOn(Track(s, l, event), v.id), n) <==> Carries(BuiltOn(l, s.value.id), n) || n == v.id
  {
    var before, last := BuiltOn(l, s.value.id), Saved(s.nextId, event);
    ApplySnoc(start, before, last);
    forall n: nat ensures Carries(before + [last], n) <==> Carries(before, n) || n == s.nextId { CarriesSnoc(before, last, n); }
  }

  lemma SaveAppends(s: Settings, event: Event)
    requires Inv(s) && Saves(event)
    ensures var s' := Step(s, event);
            && Inv(s') && s'.committed == s.committed
            && s'.writes == s.writes + [Version(s.nextId, After(s.value.prefs, event))]
  {
    StepKeepsInv(s, event);
  }

  lemma SavesAreMeant(s: Settings, l: Lineage, event: Event, start: Preferences)
    requires LineageInv(s, l, start) && Saves(event)
    ensures Meant(Track(s, l, event), start, s.committed)
    ensures forall i :: 0 <= i < |s.writes| ==> Meant(Track(s, l, event), start, s.writes[i])
    ensures Meant(Track(s, l, event), start, Version(s.nextId, After(s.value.prefs, event)))
  {
    NewVersion(s, l, event, start);
    OtherVersionsStay(s, l, event, start, s.committed);
    forall i | 0 <= i < |s.writes| ensures Meant(Track(s, l, event), start, s.writes[i]) {
      OtherVersionsStay(s, l, event, start, s.writes[i]);
    }
  }

  lemma SavesAreChained(s: Settings, l: Lineage, event: Event, start: Preferences, i: nat, j: nat)
    requires LineageInv(s, l, start) && Saves(event) && j <= i <= |s.writes|
    ensures var l', n := Track(s, l, event), |s.writes|;
            var id, before := if i < n then s.writes[i].id else s.nextId, if j < n then s.writes[j].id else s.nextId;
            Carries(BuiltOn(l', id), before)
  {
    if i < |s.writes| {
      OtherVersionsStay(s, l, event, start, s.writes[i]);
    } else {
      NewVersion(s, l, event, start);
      if j < i { assert Carries(BuiltOn(l, s.writes[i - 1].id), s.writes[j].id); }
    }
  }

  lemma SaveKeepsLineage(s: Settings, l: Lineage, event: Event, start: Preferences)
    requires LineageInv(s, l, start) && Saves(event)
    ensures LineageInv(Step(s, event), Track(s, l, event), start)
  {
    SaveAppends(s, event);
    SavesAreMeant(s, l, event, start);
    var s' := Step(s, event);
    forall i, j | 0 <= j <= i < |s'.writes| ensures Carries(BuiltOn(Track(s, l, event), s'.writes[i].id), s'.writes[j].id) {
      SavesAreChained(s, l, event, start, i, j);
    }
  }

  lemma StepKeepsLineage(s: Settings, l: Lineage, event: Event, start: Preferences)
    requires LineageInv(s, l, start) && Enabled(s, event)
    ensures LineageInv(Step(s, event), Track(s, l, event), start)
  {
    if Saves(event) { SaveKeepsLineage(s, l, event, start); } else { StepKeepsInv(s, event); }
  }

  lemma {:induction false} RunKeepsLineage(s: Settings, l: Lineage, events: seq<Event>, start: Preferences)
    requires LineageInv(s, l, start) && Runs(s, events)
    ensures LineageInv(Run(s, events), TrackAll(s, l, events), start)
    decreases |events|
  {
    if events != [] {
      StepKeepsLineage(s, l, events[0], start);
      RunKeepsLineage(Step(s, events[0]), Track(s, l, events[0]), events[1..], start);
    }
  }

  /** In every run the file is the loaded preferences with the changes applied that the last successful
      save was built on, in the order they were asked for. */
  lemma FileIsItsChanges(prefs: Preferences, events: seq<Event>)
    requires Runs(Loaded(prefs), events)
    ensures var s, l := Run(Loaded(prefs), events), TrackAll(Loaded(prefs), map[], events);
            s.file == ApplyAll(prefs, BuiltOn(l, s.committed.id))
  {
    RunKeepsLineage(Loaded(prefs), map[], events, prefs);
  }

  /** Nothing alive carries the save n. */
  ghost predicate Dropped(s: Settings, l: Lineage, n: nat) {
    && Inv(s) && n < s.nextId && !Carries(BuiltOn(l, s.committed.id), n)
    && forall i :: 0 <= i < |s.writes| ==> !Carries(BuiltOn(l, s.writes[i].id), n)
  }

  lemma StepStaysDropped(s: Settings, l: Lineage, n: nat, event: Event)
    requires Dropped(s, l, n) && Enabled(s, event)
    ensures Dropped(Step(s, event), Track(s, l, event), n)
  {
    StepKeepsInv(s, event);
    if Saves(event) {
      var s' := Step(s, event);
      CarriesSnoc(BuiltOn(l, s.value.id), Saved(s.nextId, event), n);
      assert forall i :: 0 <= i < |s.writes| ==> s'.writes[i] == s.writes[i];
    }
  }

  lemma {:induction false} StaysDropped(s: Settings, l: Lineage, n: nat, events: seq<Event>)
    requires Dropped(s, l, n) && Runs(s, events)
    ensures !Carries(BuiltOn(TrackAll(s, l, events), Run(s, events).committed.id), n)
    decreases |events|
  {
    if events != [] {
      StepStaysDropped(s, l, n, events[0]);
      StaysDropped(Step(s, events[0]), Track(s, l, events[0]), n, events[1..]);
    }
  }

  /** Some continuation writes a version that carries the save n. */
  ghost predicate CanBeWritten(s: Settings, l: Lineage, n: nat) {
    exists events :: Runs(s, events) && Carries(BuiltOn(TrackAll(s, l, events), Run(s, events).committed.id), n)
  }

  lemma NextSettles(s: Settings, l: Lineage, n: nat)
    requires s.writes != [] && Carries(BuiltOn(l, s.writes[0].id), n)
    ensures CanBeWritten(s, l, n)
  {
    var events := [Settle(true)];
    assert events[1..] == [] && Runs(s, events);
    assert Run(s, events) == SettleWrite(s, true) && TrackAll(s, l, events) == l;
  }

  /** A save that fails, and whose caller is told so, can still reach the file exactly when another
      save was queued behind it before it settled: a save is built on the value shown, not on the one
      written. */
  lemma FailedSaveIsWrittenExactlyWhenAnotherWaits(prefs: Preferences, events: seq<Event>)
    requires Runs(Loaded(prefs), events) && Run(Loaded(prefs), events).writes != []
    ensures var s, l := Run(Loaded(prefs), events), TrackAll(Loaded(prefs), map[], events);
            CanBeWritten(SettleWrite(s, false), l, s.writes[0].id) <==> |s.writes| > 1
  {
    RunKeepsLineage(Loaded(prefs), map[], events, prefs);
    var s, l := Run(Loaded(prefs), events), TrackAll(Loaded(prefs), map[], events);
    var failed, n := SettleWrite(s, false), s.writes[0].id;
    if |s.writes| > 1 {
      assert Carries(BuiltOn(l, s.writes[1].id), n) && failed.writes[0] == s.writes[1];
      NextSettles(failed, l, n);
    } else {
      StepKeepsInv(s, Settle(false));
      forall later | Runs(failed, later)
        ensures !Carries(BuiltOn(TrackAll(failed, l, later), Run(failed, later).committed.id), n)
      {
        StaysDropped(failed, l, n, later);
      }
    }
  }

  // ----- prompting

  predicate ShouldPrompt(prefs: Preferences, status: Status, now: int) {
    if status.Other? then false
    else if status.stage == Available && prefs.skippedVersion == Some(status.version) then false
    else match prefs.reminder
      case None => true
      case Some(r) => r.version != status.version || r.stage != status.stage || now >= r.due
  }

  /** Without preferences every offer prompts. A deferred offer is silent for one interval and no longer, and replaces any earlier reminder; a
      skipped version is silent until it has been downloaded, and replaces any earlier skip. */
  lemma SilencedOffers(prefs: Preferences, status: Status, now: int, other: Status, later: int)
    requires status.Offered?
    ensures ShouldPrompt(Preferences(None, None), other, later) <==> other.Offered?
    ensures ShouldPrompt(AfterDefer(prefs, status, now), other, later) <==>
              ShouldPrompt(prefs.(reminder := None), other, later) &&
              (other != status || later >= now + UPDATE_CHECK_INTERVAL_MS)
    ensures ShouldPrompt(AfterSkip(prefs, status.version), other, later) <==>
              ShouldPrompt(prefs.(skippedVersion := None), other, later) &&
              other != Offered(Available, status.version)
  {}

  /** The object main keeps; writes is its promise chain. */
  class UpdatePreferences {
    var value: Version
    var committed: Version
    var writes: seq<Version>
    var file: Preferences
    var nextId: nat

    function State(): Settings
      reads this
    {
      Settings(value, committed, writes, file, nextId)
    }

    constructor (prefs: Preferences)
      ensures State() == Loaded(prefs)
    {
      value, committed, writes, file, nextId := Version(0, prefs), Version(0, prefs), [], prefs, 1;
    }

    method SaveNext(prefs: Preferences)
      modifies this
      ensures State() == Save(old(State()), prefs)
    {
      var next := Version(nextId, prefs);
      nextId := nextId + 1;
      value := next;
      writes := writes + [next];
    }

    method SkipVersion(version: string)
      modifies this
      ensures State() == Step(old(State()), Skip(version))
      ensures old(Inv(State())) ==> Inv(State())
    {
      if Inv(State()) { StepKeepsInv(State(), Skip(version)); }
      SaveNext(AfterSkip(value.prefs, version));
    }

    method DeferOffer(status: Status, now: int)
      modifies this
      ensures State() == Step(old(State()), Defer(status, now))
      ensures old(Inv(State())) ==> Inv(State())
    {
      if Inv(State()) { StepKeepsInv(State(), Defer(status, now)); }
      if status.Other? { return; }
      SaveNext(AfterDefer(value.prefs, status, now));
    }

    method SettleFirst(ok: bool)
      requires writes != []
      modifies this
      ensures State() == SettleWrite(old(State()), ok)
      ensures old(Inv(State())) ==> Inv(State())
    {
      if Inv(State()) { StepKeepsInv(State(), Settle(ok)); }
      var next := writes[0];
      writes := writes[1..];
      if ok {
        file := next.prefs;
        committed := next;
      } else if value.id == next.id {
        value := committed;
      }
    }
  }
}
