/** Messaging keys of one account across its devices: bootstrapAccount in
    src/stores/active-account.store.ts:123-190, with the vault's key list, Key Transfer and rotation. */
module KeyReconciliation {
  import opened Wrappers

  const MAX_KEYS := 10

  /** keys lists each device's keys, newest first; announcements is every key announced so far, the
      last one being the announcement the relays serve. Keys are numbered as they are generated. */
  datatype World = World(keys: map<nat, seq<nat>>, recorded: map<nat, nat>, announcements: seq<nat>, nextKey: nat)

  datatype Outcome = Ready | NeedSync

  datatype Event =
    | Bootstrap(device: nat)
    | Interrupted(device: nat)          // generated a key and stopped before announcing it
    | Import(device: nat, source: nat)  // Key Transfer of the announced key
    | Rotate(device: nat)
    | Forget(device: nat)               // the account is removed from the device

  function Keys(w: World, d: nat): seq<nat> {
    if d in w.keys then w.keys[d] else []
  }

  function Announced(w: World): Option<nat> {
    if w.announcements == [] then None else Some(w.announcements[|w.announcements| - 1])
  }

  function Dropped(keys: seq<nat>, key: nat): seq<nat> {
    if keys == [] then [] else (if keys[0] == key then [] else [keys[0]]) + Dropped(keys[1..], key)
  }

  /** The vault puts a key in front and keeps ten. */
  function Prepend(keys: seq<nat>, key: nat): seq<nat> {
    var all := [key] + Dropped(keys, key);
    if |all| <= MAX_KEYS then all else all[..MAX_KEYS]
  }

  function Hold(w: World, d: nat, key: nat): World {
    w.(keys := w.keys[d := Prepend(Keys(w, d), key)])
  }

  function Generate(w: World, d: nat): World {
    Hold(w, d, w.nextKey).(nextKey := w.nextKey + 1)
  }

  /** The current key is recorded for the account and published. */
  function Announce(w: World, d: nat): World
    requires Keys(w, d) != []
  {
    w.(recorded := w.recorded[d := Keys(w, d)[0]], announcements := w.announcements + [Keys(w, d)[0]])
  }

  /** bootstrapAccount on device d, where seen is the announcement its query returned. */
  function Reconcile(w: World, d: nat, seen: Option<nat>): (World, Outcome) {
    var keys := Keys(w, d);
    if keys == [] then
      if seen.Some? then (w.(recorded := w.recorded[d := seen.value]), NeedSync)
      else (Announce(Generate(w, d), d), Ready)
    else if seen.Some? && seen.value != keys[0] && seen.value !in keys then
      (w.(recorded := w.recorded[d := seen.value]), NeedSync)
    else if seen != Some(keys[0]) then (Announce(w, d), Ready)
    else (w, Ready)
  }

  predicate Enabled(w: World, event: Event) {
    match event
    case Interrupted(d) => Keys(w, d) != [] || Announced(w) == None
    case Import(d, source) => Announced(w).Some? && Announced(w).value in Keys(w, source)
    case Rotate(d) => Keys(w, d) != []
    case _ => true
  }

  /** What can be interrupted is exactly what generates: a rotation, and the first bootstrap. */
  lemma InterruptsWhatGenerates(w: World, d: nat)
    ensures Enabled(w, Interrupted(d)) <==>
              Enabled(w, Rotate(d)) || Reconcile(w, d, Announced(w)).0.nextKey > w.nextKey
  {}

  function Step(w: World, event: Event): World
    requires Enabled(w, event)
  {
    match event
    case Bootstrap(d) => Reconcile(w, d, Announced(w)).0
    case Interrupted(d) => Generate(w, d)
    case Import(d, _) => Hold(w, d, Announced(w).value)
    case Rotate(d) => Announce(Generate(w, d), d)
    case Forget(d) => w.(keys := w.keys - {d})
  }

  predicate Runs(w: World, events: seq<Event>)
    decreases |events|
  {
    events == [] || (Enabled(w, events[0]) && Runs(Step(w, events[0]), events[1..]))
  }

  function Run(w: World, events: seq<Event>): World
    requires Runs(w, events)
    decreases |events|
  {
    if events == [] then w else Run(Step(w, events[0]), events[1..])
  }

  const NEW_ACCOUNT := World(map[], map[], [], 0)

  // ----- one bootstrap against the announcement as it is

  /** Ready or not is decided by whether the device holds the announced key; ready means the device's
      current key is the announced one, and not ready means nothing was generated or published. */
  lemma BootstrapDecides(w: World, d: nat)
    ensures var (after, outcome) := Reconcile(w, d, Announced(w));
            && (outcome == Ready <==> Announced(w) == None || Announced(w).value in Keys(w, d))
            && (outcome == Ready ==> Keys(after, d) != [] && Announced(after) == Some(Keys(after, d)[0]))
            && (Announced(after) != Announced(w) ==> d in after.recorded && Some(after.recorded[d]) == Announced(after))
            && (outcome == NeedSync ==> after == w.(recorded := w.recorded[d := Announced(w).value]))
            && (after.nextKey != w.nextKey ==> Announced(w) == None && Keys(w, d) == [])
            && (Announced(w).Some? && Announced(after) != Announced(w) ==> Announced(w).value in Keys(w, d))
  {
    var keys := Keys(w, d);
    if keys != [] {
      assert keys[0] in keys;
    } else if Announced(w) == None {
      var after := Reconcile(w, d, None).0;
      assert Keys(after, d) == Prepend([], w.nextKey) == [w.nextKey];
    }
  }

  /** An announcement read before another device changed it is what makes bootstrap unsafe: exactly
      these readings replace a key the device does not hold. */
  lemma UnsafeExactlyWhenReadTooEarly(w: World, d: nat, seen: Option<nat>)
    requires Inv(w) && Announced(w).Some? && Announced(w).value !in Keys(w, d)
    ensures Announced(Reconcile(w, d, seen).0) != Announced(w) <==>
            seen == None || (Keys(w, d) != [] && seen.value != Keys(w, d)[0] && seen.value in Keys(w, d))
  {
    var keys := Keys(w, d);
    if keys != [] { assert keys[0] in keys; }
  }

  /** Two new devices that both find nothing both generate; the second announcement replaces a key
      only the first device has, and that device then has to synchronize. */
  lemma TwoNewDevicesCollide()
    ensures var (w1, o1) := Reconcile(NEW_ACCOUNT, 1, None);
            var (w2, o2) := Reconcile(w1, 2, None);
            o1 == Ready && o2 == Ready && Announced(w1).value !in Keys(w2, 2) &&
            Reconcile(w2, 1, Announced(w2)).1 == NeedSync
  {
    var w1 := Reconcile(NEW_ACCOUNT, 1, None).0;
    assert Keys(w1, 1) == [0] && w1.announcements == [0];
    var w2 := Reconcile(w1, 2, None).0;
    assert Keys(w2, 2) == [1] && Keys(w2, 1) == [0] && w2.announcements == [0, 1];
  }

  // ----- announcements never revert

  /** Of two announced keys in a list, the one nearer the front was announced later. */
  predicate LatestFirst(keys: seq<nat>, announcements: seq<nat>) {
    forall i, j, p, q :: 0 <= i < j < |keys| && 0 <= p < |announcements| && 0 <= q < |announcements| ==>
      keys[i] == announcements[p] && keys[j] == announcements[q] ==> p > q
  }

  predicate ListOk(keys: seq<nat>, announcements: seq<nat>, nextKey: nat) {
    && |keys| <= MAX_KEYS && Distinct(keys) && LatestFirst(keys, announcements)
    && forall i :: 0 <= i < |keys| ==> keys[i] < nextKey
  }

  /** A key two devices hold has been announced. */
  ghost predicate Private(w: World) {
    forall d: nat, e: nat, k: nat :: d != e && k in Keys(w, d) && k in Keys(w, e) ==> k in w.announcements
  }

  ghost predicate Inv(w: World) {
    && Distinct(w.announcements)
    && (forall i :: 0 <= i < |w.announcements| ==> w.announcements[i] < w.nextKey)
    && (forall d: nat :: ListOk(Keys(w, d), w.announcements, w.nextKey))
    && Private(w)
  }

  /** The positions of the kept keys, in order. */
  lemma {:induction false} DroppedKeepsOrder(keys: seq<nat>, key: nat, i: nat, j: nat) returns (a: nat, b: nat)
    requires i < j < |Dropped(keys, key)|
    ensures a < b < |keys| && keys[a] == Dropped(keys, key)[i] && keys[b] == Dropped(keys, key)[j]
  {
    var rest := Dropped(keys[1..], key);
    if keys[0] == key {
      a, b := DroppedKeepsOrder(keys[1..], key, i, j);
      a, b := a + 1, b + 1;
    } else if i == 0 {
      assert rest[j - 1] in rest;
      DroppedMembers(keys[1..], key);
      var c :| 0 <= c < |keys[1..]| && keys[1..][c] == rest[j - 1];
      a, b := 0, c + 1;
    } else {
      a, b := DroppedKeepsOrder(keys[1..], key, i - 1, j - 1);
      a, b := a + 1, b + 1;
    }
  }

  lemma {:induction false} DroppedMembers(keys: seq<nat>, key: nat)
    ensures forall k :: k in Dropped(keys, key) <==> k in keys && k != key
    ensures key !in keys ==> Dropped(keys, key) == keys
    ensures |Dropped(keys, key)| <= |keys|
  {
    if keys != [] {
      DroppedMembers(keys[1..], key);
      assert keys == [keys[0]] + keys[1..];
    }
  }

  lemma DroppedIsOk(keys: seq<nat>, announcements: seq<nat>, nextKey: nat, key: nat)
    requires ListOk(keys, announcements, nextKey)
    ensures ListOk(Dropped(keys, key), announcements, nextKey)
  {
    var rest := Dropped(keys, key);
    DroppedMembers(keys, key);
    forall i, j | 0 <= i < j < |rest|
      ensures rest[i] != rest[j]
      ensures forall p, q :: 0 <= p < |announcements| && 0 <= q < |announcements| ==>
                rest[i] == announcements[p] && rest[j] == announcements[q] ==> p > q
    {
      var a, b := DroppedKeepsOrder(keys, key, i, j);
    }
    forall i | 0 <= i < |rest| ensures rest[i] < nextKey { assert rest[i] in keys; }
  }

  /** A key goes in front of a list if it was announced last or not at all. */
  lemma PrependIsOk(keys: seq<nat>, announcements: seq<nat>, nextKey: nat, key: nat)
    requires ListOk(keys, announcements, nextKey) && Distinct(announcements) && key < nextKey
    requires key !in announcements || announcements[|announcements| - 1] == key
    ensures ListOk(Prepend(keys, key), announcements, nextKey)
    ensures forall k :: k in Prepend(keys, key) ==> k == key || k in keys
    ensures Prepend(keys, key)[0] == key
  {
    var rest := Dropped(keys, key);
    DroppedIsOk(keys, announcements, nextKey, key);
    DroppedMembers(keys, key);
    ConsIsOk(rest, announcements, nextKey, key);
    FrontIsOk([key] + rest, announcements, nextKey);
  }

  lemma ConsIsOk(rest: seq<nat>, announcements: seq<nat>, nextKey: nat, key: nat)
    requires Distinct(rest) && LatestFirst(rest, announcements) && Distinct(announcements)
    requires key !in rest && (key !in announcements || announcements[|announcements| - 1] == key)
    ensures Distinct([key] + rest) && LatestFirst([key] + rest, announcements)
  {
    var front := [key] + rest;
    forall i, j, p, q | 0 <= i < j < |front| && 0 <= p < |announcements| && 0 <= q < |announcements| &&
      front[i] == announcements[p] && front[j] == announcements[q]
      ensures p > q
    {
      assert front[j] == rest[j - 1];
      if i > 0 { assert front[i] == rest[i - 1]; }
    }
  }

  lemma FrontIsOk(front: seq<nat>, announcements: seq<nat>, nextKey: nat)
    requires Distinct(front) && LatestFirst(front, announcements)
    requires forall i :: 0 <= i < |front| ==> front[i] < nextKey
    ensures ListOk(if |front| <= MAX_KEYS then front else front[..MAX_KEYS], announcements, nextKey)
  {}

  lemma HoldKeepsInv(w: World, d: nat, key: nat)
    requires Inv(w) && key < w.nextKey
    requires key !in w.announcements || Announced(w) == Some(key)
    requires key in w.announcements || forall e: nat :: key !in Keys(w, e)
    ensures Inv(Hold(w, d, key)) && Keys(Hold(w, d, key), d)[0] == key
  {
    var t := Hold(w, d, key);
    assert ListOk(Keys(w, d), w.announcements, w.nextKey);
    PrependIsOk(Keys(w, d), w.announcements, w.nextKey, key);
    forall e: nat ensures ListOk(Keys(t, e), t.announcements, t.nextKey) {
      assert ListOk(Keys(w, e), w.announcements, w.nextKey);
    }
    forall a: nat, b: nat, k: nat | a != b && k in Keys(t, a) && k in Keys(t, b) ensures k in t.announcements {
      if k == key {
        var other := if a == d then b else a;
        assert Keys(t, other) == Keys(w, other);
      } else {
        assert k in Keys(w, a) && k in Keys(w, b);
      }
    }
  }

  lemma KeysAreNumbered(w: World, d: nat, k: nat)
    requires Inv(w) && k in Keys(w, d)
    ensures k < w.nextKey
  {
    assert ListOk(Keys(w, d), w.announcements, w.nextKey);
  }

  lemma GenerateKeepsInv(w: World, d: nat)
    requires Inv(w)
    ensures var t := Generate(w, d); Inv(t) && Keys(t, d)[0] == w.nextKey && w.nextKey !in t.announcements
  {
    var counted := w.(nextKey := w.nextKey + 1);
    forall e: nat ensures ListOk(Keys(counted, e), counted.announcements, counted.nextKey) {
      assert ListOk(Keys(w, e), w.announcements, w.nextKey);
      assert Keys(counted, e) == Keys(w, e);
    }
    forall a: nat, b: nat, k: nat | a != b && k in Keys(counted, a) && k in Keys(counted, b)
      ensures k in counted.announcements
    {
      assert k in Keys(w, a) && k in Keys(w, b);
    }
    forall e: nat ensures w.nextKey !in Keys(counted, e) {
      if w.nextKey in Keys(w, e) { KeysAreNumbered(w, e, w.nextKey); }
    }
    HoldKeepsInv(counted, d, w.nextKey);
    assert Generate(w, d) == Hold(counted, d, w.nextKey);
  }

  lemma AnnounceIsOk(keys: seq<nat>, announcements: seq<nat>, nextKey: nat, key: nat)
    requires ListOk(keys, announcements, nextKey) && key !in announcements
    requires forall j :: 0 < j < |keys| ==> keys[j] != key
    ensures ListOk(keys, announcements + [key], nextKey)
  {
    var all := announcements + [key];
    forall i, j, p, q | 0 <= i < j < |keys| && 0 <= p < |all| && 0 <= q < |all| && keys[i] == all[p] && keys[j] == all[q]
      ensures p > q
    {
      assert q < |announcements| && keys[j] == announcements[q];
      if p < |announcements| { assert keys[i] == announcements[p]; }
    }
  }

  lemma AnnounceKeepsInv(w: World, d: nat)
    requires Inv(w) && Keys(w, d) != [] && Keys(w, d)[0] !in w.announcements
    ensures Inv(Announce(w, d))
  {
    var key, t := Keys(w, d)[0], Announce(w, d);
    assert key in Keys(w, d);
    KeysAreNumbered(w, d, key);
    forall e: nat ensures ListOk(Keys(t, e), t.announcements, t.nextKey) {
      assert ListOk(Keys(w, e), w.announcements, w.nextKey);
      forall j | 0 < j < |Keys(w, e)| ensures Keys(w, e)[j] != key { assert Keys(w, e)[j] in Keys(w, e); }
      AnnounceIsOk(Keys(w, e), w.announcements, w.nextKey, key);
      assert Keys(t, e) == Keys(w, e);
    }
    forall a: nat, b: nat, k: nat | a != b && k in Keys(t, a) && k in Keys(t, b) ensures k in t.announcements {
      assert k in Keys(w, a) && k in Keys(w, b);
    }
  }

  /** A device that holds the announced key below its current one has never announced the current one. */
  lemma CurrentIsUnannounced(w: World, d: nat)
    requires Inv(w) && Keys(w, d) != []
    requires Announced(w).Some? ==> Announced(w).value in Keys(w, d)
    ensures Keys(w, d)[0] in w.announcements ==> Announced(w) == Some(Keys(w, d)[0])
  {
    var keys := Keys(w, d);
    assert ListOk(keys, w.announcements, w.nextKey);
    if keys[0] in w.announcements {
      var p :| 0 <= p < |w.announcements| && w.announcements[p] == keys[0];
      var j :| 0 <= j < |keys| && keys[j] == Announced(w).value;
      LaterIsFurther(keys, w.announcements, j, p);
    }
  }

  lemma LaterIsFurther(keys: seq<nat>, announcements: seq<nat>, j: nat, p: nat)
    requires LatestFirst(keys, announcements) && j < |keys| && p < |announcements|
    requires keys[0] == announcements[p] && keys[j] == announcements[|announcements| - 1]
    ensures j == 0
  {}

  lemma SameKeysKeepInv(w: World, t: World)
    requires Inv(w) && t.announcements == w.announcements && t.nextKey == w.nextKey
    requires forall e: nat :: Keys(t, e) == Keys(w, e) || Keys(t, e) == []
    ensures Inv(t)
  {
    forall e: nat ensures ListOk(Keys(t, e), t.announcements, t.nextKey) {
      assert ListOk(Keys(w, e), w.announcements, w.nextKey);
    }
    forall a: nat, b: nat, k: nat | a != b && k in Keys(t, a) && k in Keys(t, b) ensures k in t.announcements {
      assert k in Keys(w, a) && k in Keys(w, b);
    }
  }

  lemma BootstrapKeepsInv(w: World, d: nat)
    requires Inv(w)
    ensures Inv(Reconcile(w, d, Announced(w)).0)
  {
    var (t, outcome) := Reconcile(w, d, Announced(w));
    var keys := Keys(w, d);
    if keys == [] && Announced(w) == None {
      GenerateKeepsInv(w, d);
      AnnounceKeepsInv(Generate(w, d), d);
    } else if outcome == NeedSync || Announced(w) == Some(keys[0]) {
      forall e: nat ensures Keys(t, e) == Keys(w, e) {}
      SameKeysKeepInv(w, t);
    } else {
      CurrentIsUnannounced(w, d);
      AnnounceKeepsInv(w, d);
    }
  }

  lemma StepKeepsInv(w: World, event: Event)
    requires Inv(w) && Enabled(w, event)
    ensures Inv(Step(w, event)) && w.announcements <= Step(w, event).announcements
  {
    match event
    case Bootstrap(d) => BootstrapKeepsInv(w, d);
    case Interrupted(d) => GenerateKeepsInv(w, d);
    case Import(d, source) => HoldKeepsInv(w, d, Announced(w).value);
    case Rotate(d) =>
      GenerateKeepsInv(w, d);
      AnnounceKeepsInv(Generate(w, d), d);
    case Forget(d) =>
      forall e: nat ensures Keys(Step(w, event), e) == Keys(w, e) || Keys(Step(w, event), e) == [] {}
      SameKeysKeepInv(w, Step(w, event));
  }

  lemma {:induction false} RunKeepsInv(w: World, events: seq<Event>)
    requires Inv(w) && Runs(w, events)
    ensures Inv(Run(w, events)) && w.announcements <= Run(w, events).announcements
    decreases |events|
  {
    if events != [] {
      StepKeepsInv(w, events[0]);
      RunKeepsInv(Step(w, events[0]), events[1..]);
    }
  }

  /** In every run of atomic bootstraps, rotations, interrupted rotations, transfers and removals, a
      key once replaced is never announced again, and every key two devices share was announced. */
  lemma AnnouncementsNeverRevert(events: seq<Event>)
    requires Runs(NEW_ACCOUNT, events)
    ensures var w := Run(NEW_ACCOUNT, events);
            Distinct(w.announcements) && Private(w)
  {
    RunKeepsInv(NEW_ACCOUNT, events);
  }

  // ----- somebody always holds the announced key

  ghost predicate Held(w: World) {
    Announced(w).Some? ==> exists d: nat :: Announced(w).value in Keys(w, d)
  }

  /** The device is the only one that holds the announced key. */
  ghost predicate SoleHolder(w: World, d: nat) {
    && Announced(w).Some? && Announced(w).value in Keys(w, d)
    && forall e: nat :: e != d ==> Announced(w).value !in Keys(w, e)
  }

  /** The two ways to lose the announced key: its only holder forgets the account, or is stopped after
      generating a key that pushes it out of a full list. */
  ghost predicate Strands(w: World, event: Event) {
    match event
    case Forget(d) => SoleHolder(w, d)
    case Interrupted(d) => SoleHolder(w, d) && |Keys(w, d)| == MAX_KEYS && Keys(w, d)[MAX_KEYS - 1] == Announced(w).value
    case _ => false
  }

  ghost predicate NeverStrands(w: World, events: seq<Event>)
    requires Runs(w, events)
    decreases |events|
  {
    events == [] || (!Strands(w, events[0]) && NeverStrands(Step(w, events[0]), events[1..]))
  }

  ghost predicate HeldThroughout(w: World, events: seq<Event>)
    requires Runs(w, events)
    decreases |events|
  {
    Held(w) && (events == [] || HeldThroughout(Step(w, events[0]), events[1..]))
  }

  lemma FrontIsHeld(w: World, d: nat, key: nat)
    ensures key in Keys(Hold(w, d, key), d)
  {
    assert Prepend(Keys(w, d), key)[0] == key;
  }

  lemma BootstrapKeepsHeld(w: World, d: nat)
    requires Held(w)
    ensures Held(Reconcile(w, d, Announced(w)).0)
  {
    var t := Reconcile(w, d, Announced(w)).0;
    if t.announcements != w.announcements {
      assert Keys(t, d)[0] in Keys(t, d);
      assert Announced(t) == Some(Keys(t, d)[0]);
    } else if Announced(w).Some? {
      var e: nat :| Announced(w).value in Keys(w, e);
      assert Keys(t, e) == Keys(w, e);
    }
  }

  lemma FrontHolds(all: seq<nat>, n: nat, i: nat)
    requires Distinct(all) && i < |all| && n <= |all|
    ensures all[i] in all[..n] <==> i < n
  {
    if i < n { assert all[..n][i] == all[i]; }
  }

  lemma DistinctCons(head: nat, rest: seq<nat>)
    requires Distinct(rest) && head !in rest
    ensures Distinct([head] + rest)
  {}

  /** A fresh key pushes out the last of ten and nothing else. */
  lemma PushedOut(keys: seq<nat>, added: nat, i: nat)
    requires |keys| <= MAX_KEYS && Distinct(keys) && added !in keys && i < |keys|
    ensures keys[i] in Prepend(keys, added) <==> i + 1 < MAX_KEYS
  {
    DroppedMembers(keys, added);
    var all := [added] + keys;
    DistinctCons(added, keys);
    FrontHolds(all, if |all| <= MAX_KEYS then |all| else MAX_KEYS, i + 1);
    assert all[i + 1] == keys[i] && all[..|all|] == all;
  }

  lemma GeneratedKeys(w: World, d: nat)
    requires Inv(w)
    ensures Announced(Generate(w, d)) == Announced(w) && Keys(Generate(w, d), d) == Prepend(Keys(w, d), w.nextKey)
    ensures forall e: nat :: e != d ==> Keys(Generate(w, d), e) == Keys(w, e)
    ensures |Keys(w, d)| <= MAX_KEYS && Distinct(Keys(w, d)) && w.nextKey !in Keys(w, d)
  {
    assert ListOk(Keys(w, d), w.announcements, w.nextKey);
  }

  lemma StaysInFullList(w: World, d: nat, key: nat)
    requires Inv(w) && key in Keys(w, d)
    ensures key in Keys(Generate(w, d), d) <==> !(|Keys(w, d)| == MAX_KEYS && Keys(w, d)[MAX_KEYS - 1] == key)
  {
    GeneratedKeys(w, d);
    var i :| 0 <= i < |Keys(w, d)| && Keys(w, d)[i] == key;
    PushedOut(Keys(w, d), w.nextKey, i);
  }

  lemma InterruptedKeepsHeld(w: World, d: nat)
    requires Inv(w) && Held(w) && Announced(w).Some?
    ensures Held(Generate(w, d)) <==> !Strands(w, Interrupted(d))
  {
    var t, key := Generate(w, d), Announced(w).value;
    GeneratedKeys(w, d);
    if SoleHolder(w, d) {
      StaysInFullList(w, d, key);
    } else {
      var e: nat :| key in Keys(w, e) && e != d;
      assert key in Keys(t, e);
    }
  }

  lemma ForgetKeepsHeld(w: World, d: nat)
    requires Held(w) && Announced(w).Some?
    ensures Held(Step(w, Forget(d))) <==> !SoleHolder(w, d)
  {
    var t, key := Step(w, Forget(d)), Announced(w).value;
    assert Keys(t, d) == [] && forall e: nat :: e != d ==> Keys(t, e) == Keys(w, e);
    var e: nat :| key in Keys(w, e);
    if !SoleHolder(w, d) {
      var f: nat :| f != d && key in Keys(w, f);
      assert key in Keys(t, f);
    }
  }

  lemma RotateIsHeld(w: World, d: nat)
    ensures Enabled(w, Rotate(d)) ==> Held(Step(w, Rotate(d)))
  {
    if Keys(w, d) != [] {
      var t := Step(w, Rotate(d));
      FrontIsHeld(w, d, w.nextKey);
      assert Keys(t, d) == Prepend(Keys(w, d), w.nextKey) && Announced(t) == Some(w.nextKey);
      assert Announced(t).value in Keys(t, d);
    }
  }

  /** While some device holds the announced key, a step leaves nobody holding it exactly when the only
      holder forgets the account or generates the key that pushes it out of a full list. */
  lemma HeldExactlyUnlessStranded(w: World, event: Event)
    requires Inv(w) && Held(w) && Enabled(w, event)
    ensures Held(Step(w, event)) <==> !Strands(w, event)
  {
    match event
    case Bootstrap(d) => BootstrapKeepsHeld(w, d);
    case Interrupted(d) => if Announced(w).Some? { InterruptedKeepsHeld(w, d); }
    case Import(d, source) => FrontIsHeld(w, d, Announced(w).value);
    case Rotate(d) => RotateIsHeld(w, d);
    case Forget(d) => if Announced(w).Some? { ForgetKeepsHeld(w, d); }
  }

  /** Somebody holds the announced key at every moment of a run exactly when no step strands it. */
  lemma {:induction false} HeldThroughoutExactlyWhenNeverStranded(w: World, events: seq<Event>)
    requires Inv(w) && Held(w) && Runs(w, events)
    ensures HeldThroughout(w, events) <==> NeverStrands(w, events)
    ensures NeverStrands(w, events) ==> Held(Run(w, events))
    decreases |events|
  {
    if events != [] {
      HeldExactlyUnlessStranded(w, events[0]);
      StepKeepsInv(w, events[0]);
      if Held(Step(w, events[0])) { HeldThroughoutExactlyWhenNeverStranded(Step(w, events[0]), events[1..]); }
    }
  }

  /** A device told to synchronize can: some other device has the announced key to transfer, and after
      importing it the next bootstrap is ready without announcing anything. */
  ghost predicate CanSync(w: World, d: nat) {
    exists source: nat :: Enabled(w, Import(d, source)) && source != d &&
      Reconcile(Step(w, Import(d, source)), d, Announced(w)) == (Step(w, Import(d, source)), Ready)
  }

  lemma SyncNeedsAHolder(w: World, d: nat)
    requires Reconcile(w, d, Announced(w)).1 == NeedSync
    ensures CanSync(w, d) <==> Held(w)
  {
    BootstrapDecides(w, d);
    if Held(w) {
      var source: nat :| Announced(w).value in Keys(w, source);
      assert Enabled(w, Import(d, source));
      var t := Step(w, Import(d, source));
      assert Keys(t, d)[0] == Announced(w).value;
    }
  }

  /** In every run that never strands the announced key, whoever is told to synchronize can. */
  lemma SyncIsAlwaysPossible(events: seq<Event>, d: nat)
    requires Runs(NEW_ACCOUNT, events) && NeverStrands(NEW_ACCOUNT, events)
    requires var w := Run(NEW_ACCOUNT, events); Reconcile(w, d, Announced(w)).1 == NeedSync
    ensures CanSync(Run(NEW_ACCOUNT, events), d)
  {
    HeldThroughoutExactlyWhenNeverStranded(NEW_ACCOUNT, events);
    SyncNeedsAHolder(Run(NEW_ACCOUNT, events), d);
  }

  /** Once nobody holds the announced key, no bootstrap and no transfer ever changes that, and no
      device can be synchronized. */
  lemma {:induction false} StrandedStaysStranded(w: World, events: seq<Event>)
    requires Announced(w).Some? && !Held(w) && Runs(w, events)
    requires forall i :: 0 <= i < |events| ==> events[i].Bootstrap? || events[i].Import?
    ensures var t := Run(w, events);
            && Announced(t) == Announced(w) && !Held(t)
            && forall d: nat :: Reconcile(t, d, Announced(t)).1 == NeedSync && !CanSync(t, d)
    decreases |events|
  {
    if events == [] {
      forall d: nat ensures Reconcile(w, d, Announced(w)).1 == NeedSync && !CanSync(w, d) {
        BootstrapDecides(w, d);
        SyncNeedsAHolder(w, d);
      }
    } else {
      match events[0] {
        case Bootstrap(d) =>
          BootstrapDecides(w, d);
          forall e: nat ensures Keys(Step(w, events[0]), e) == Keys(w, e) {}
        case Import(d, source) => assert false;
      }
      StrandedStaysStranded(Step(w, events[0]), events[1..]);
    }
  }

  function PrependAll(keys: seq<nat>, added: seq<nat>): seq<nat> {
    if added == [] then keys else Prepend(PrependAll(keys, added[..|added| - 1]), added[|added| - 1])
  }

  /** The ten-key limit: a device's current key is still in its list after nine more were generated
      and never announced, and gone after the tenth. */
  lemma {:induction false} CurrentSurvivesNine(keys: seq<nat>, added: seq<nat>)
    requires 0 < |keys| <= MAX_KEYS && Distinct(keys) && Distinct(added)
    requires forall i, j :: 0 <= i < |keys| && 0 <= j < |added| ==> keys[i] != added[j]
    ensures var all := PrependAll(keys, added);
            && |all| <= MAX_KEYS && Distinct(all)
            && (forall k :: k in all ==> k in keys || k in added)
            && (keys[0] in all <==> |added| < MAX_KEYS)
            && (|added| < MAX_KEYS ==> |added| < |all| && all[|added|] == keys[0])
  {
    if added == [] {
      assert keys[0] in keys;
    } else {
      var n := |added| - 1;
      CurrentSurvivesNine(keys, added[..n]);
      NotYetAdded(PrependAll(keys, added[..n]), keys, added);
      OneMore(PrependAll(keys, added[..n]), added[n], n, keys[0]);
    }
  }

  lemma NotYetAdded(before: seq<nat>, keys: seq<nat>, added: seq<nat>)
    requires added != [] && Distinct(added) && added[|added| - 1] !in keys
    requires forall k :: k in before ==> k in keys || k in added[..|added| - 1]
    ensures added[|added| - 1] !in before && forall k :: k in before ==> k in keys || k in added
  {}

  lemma OneMore(before: seq<nat>, last: nat, n: nat, current: nat)
    requires |before| <= MAX_KEYS && Distinct(before) && last !in before && last != current
    requires current in before <==> n < MAX_KEYS
    requires n < MAX_KEYS ==> n < |before| && before[n] == current
    ensures var all := Prepend(before, last);
            && |all| <= MAX_KEYS && Distinct(all) && (forall k :: k in all ==> k == last || k in before)
            && (current in all <==> n + 1 < MAX_KEYS)
            && (n + 1 < MAX_KEYS ==> n + 1 < |all| && all[n + 1] == current)
  {
    var full := [last] + before;
    var all := Prepend(before, last);
    DroppedMembers(before, last);
    if n + 1 < MAX_KEYS {
      assert all[n + 1] == full[n + 1] == current;
    } else {
      forall i | 0 <= i < |all| ensures all[i] != current {
        if i > 0 {
          assert all[i] == before[i - 1];
          if n < MAX_KEYS { assert before[n] == current; } else { assert before[i - 1] in before; }
        }
      }
    }
  }
}
