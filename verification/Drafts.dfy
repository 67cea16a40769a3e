/** Write-behind composer drafts, src/stores/drafts.store.ts. */
module Drafts {
  import opened Wrappers

  datatype Id = Id(account: string, key: string)

  /** What the database has been asked for and has not done yet, in order. */
  datatype Job = Write(id: Id, text: string) | Load(account: string)

  datatype Store = Store(
    account: Option<string>, drafts: map<string, string>,
    pending: map<Id, string>, timers: set<Id>,
    jobs: seq<Job>, disk: map<Id, string>)

  datatype Event =
    | SetDraft(key: string, text: string)
    | ClearDraft(key: string)
    | Flush(key: string)
    | Timer(id: Id)
    | Background(order: seq<Id>)       // leaves the foreground; the order Map iteration visits the keys
    | BeginLoad(account: string)
    | Database                         // the database finishes its first job

  predicate Blank(text: string) {
    forall i :: 0 <= i < |text| ==> White(text[i])
  }

  /** A draft that is blank is no draft. */
  function Draft(text: string): Option<string> {
    if Blank(text) then None else Some(text)
  }

  function Find<K, V>(m: map<K, V>, k: K): Option<V> {
    if k in m then Some(m[k]) else None
  }

  function Put<K, V>(m: map<K, V>, k: K, v: Option<V>): map<K, V> {
    if v.None? then m - {k} else m[k := v.value]
  }

  // ----- the store's functions

  function FlushPending(s: Store, id: Id): Store {
    if id !in s.pending then s.(timers := s.timers - {id})
    else s.(timers := s.timers - {id}, pending := s.pending - {id}, jobs := s.jobs + [Write(id, s.pending[id])])
  }

  function FlushAll(s: Store, order: seq<Id>): Store
    decreases |order|
  {
    if order == [] then s else FlushAll(FlushPending(s, order[0]), order[1..])
  }

  function OnSetDraft(s: Store, key: string, text: string): Store {
    if s.account.None? then s
    else
      var id := Id(s.account.value, key);
      s.(drafts := Put(s.drafts, key, Draft(text)), pending := s.pending[id := text], timers := s.timers + {id})
  }

  function OnClearDraft(s: Store, key: string): Store {
    var cleared := s.(drafts := s.drafts - {key});
    if s.account.None? then cleared
    else
      var id := Id(s.account.value, key);
      FlushPending(cleared.(pending := s.pending[id := ""]), id)
  }

  function Rows(disk: map<Id, string>, account: string): map<string, string> {
    map id | id in disk && id.account == account :: id.key := disk[id]
  }

  function RunJob(s: Store): Store
    requires s.jobs != []
  {
    var left := s.(jobs := s.jobs[1..]);
    match s.jobs[0]
    case Write(id, text) => left.(disk := Put(s.disk, id, Draft(text)))
    case Load(account) => left.(drafts := Rows(s.disk, account), account := Some(account))
  }

  predicate Enabled(s: Store, event: Event) {
    match event
    case Timer(id) => id in s.timers
    case Background(order) => forall id :: id in s.pending ==> id in order
    case Database => s.jobs != []
    case _ => true
  }

  function Step(s: Store, event: Event): Store
    requires Enabled(s, event)
  {
    match event
    case SetDraft(key, text) => OnSetDraft(s, key, text)
    case ClearDraft(key) => OnClearDraft(s, key)
    case Flush(key) => if s.account.None? then s else FlushPending(s, Id(s.account.value, key))
    case Timer(id) => FlushPending(s, id)
    case Background(order) => FlushAll(s, order)
    case BeginLoad(account) => if s.account == Some(account) then s else s.(jobs := s.jobs + [Load(account)])
    case Database => RunJob(s)
  }

  // ----- what the table will hold

  function Written(disk: map<Id, string>, jobs: seq<Job>): map<Id, string>
    decreases |jobs|
  {
    if jobs == [] then disk
    else match jobs[0]
      case Write(id, text) => Written(Put(disk, id, Draft(text)), jobs[1..])
      case Load(_) => Written(disk, jobs[1..])
  }

  /** The draft that is owed: the debounced text, or else what the table will hold once the jobs
      are done. */
  function Owed(s: Store, id: Id): Option<string> {
    if id in s.pending then Draft(s.pending[id]) else Find(Written(s.disk, s.jobs), id)
  }

  predicate OwedIsShown(s: Store, account: string, key: string) {
    Find(s.drafts, key) == Owed(s, Id(account, key))
  }

  /** The in-memory map is the table with the owed writes applied. */
  ghost predicate Agrees(s: Store) {
    s.account.Some? ==> forall key :: OwedIsShown(s, s.account.value, key)
  }

  /** The table holds what is owed to every draft of the account. */
  ghost predicate Current(s: Store, account: string) {
    forall key :: Find(s.disk, Id(account, key)) == Owed(s, Id(account, key))
  }

  ghost predicate Inv(s: Store) {
    s.timers == s.pending.Keys && Agrees(s)
  }

  predicate CompletesLoad(s: Store, event: Event) {
    event.Database? && s.jobs != [] && s.jobs[0].Load?
  }

  /** The database answers a load only when the table is current for its account. */
  ghost predicate LoadIsCurrent(s: Store, event: Event) {
    CompletesLoad(s, event) ==> Current(s, s.jobs[0].account)
  }

  lemma {:induction false} WrittenLast(disk: map<Id, string>, jobs: seq<Job>, job: Job)
    ensures Written(disk, jobs + [job]) ==
            if job.Write? then Put(Written(disk, jobs), job.id, Draft(job.text)) else Written(disk, jobs)
    decreases |jobs|
  {
    if jobs == [] {
      assert (jobs + [job])[1..] == [];
    } else {
      assert (jobs + [job])[1..] == jobs[1..] + [job];
      WrittenLast(match jobs[0] case Write(id, text) => Put(disk, id, Draft(text)) case Load(_) => disk, jobs[1..], job);
    }
  }

  lemma {:induction false} WrittenElsewhere(disk: map<Id, string>, jobs: seq<Job>, id: Id)
    requires forall j :: 0 <= j < |jobs| ==> jobs[j].Write? && jobs[j].id.account != id.account
    ensures Find(Written(disk, jobs), id) == Find(disk, id)
    decreases |jobs|
  {
    if jobs != [] { WrittenElsewhere(Put(disk, jobs[0].id, Draft(jobs[0].text)), jobs[1..], id); }
  }

  /** Handing a debounced text to the database changes nothing that is owed. */
  lemma FlushKeepsOwed(s: Store, id: Id, other: Id)
    ensures Owed(FlushPending(s, id), other) == Owed(s, other)
  {
    if id in s.pending { WrittenLast(s.disk, s.jobs, Write(id, s.pending[id])); }
  }

  lemma FlushKeepsInv(s: Store, id: Id)
    requires Inv(s)
    ensures Inv(FlushPending(s, id))
  {
    if s.account.Some? {
      forall key ensures OwedIsShown(FlushPending(s, id), s.account.value, key) {
        assert OwedIsShown(s, s.account.value, key);
        FlushKeepsOwed(s, id, Id(s.account.value, key));
      }
    }
  }

  lemma {:induction false} FlushAllKeepsInv(s: Store, order: seq<Id>)
    requires Inv(s)
    ensures Inv(FlushAll(s, order))
    ensures forall id :: id in FlushAll(s, order).pending <==> id in s.pending && id !in order
    decreases |order|
  {
    if order != [] {
      FlushKeepsInv(s, order[0]);
      FlushAllKeepsInv(FlushPending(s, order[0]), order[1..]);
      assert order == [order[0]] + order[1..];
    }
  }

  lemma SetDraftKeepsInv(s: Store, key: string, text: string)
    requires Inv(s)
    ensures Inv(OnSetDraft(s, key, text))
  {
    if s.account.Some? {
      forall other ensures OwedIsShown(OnSetDraft(s, key, text), s.account.value, other) {
        assert OwedIsShown(s, s.account.value, other);
      }
    }
  }

  lemma ClearDraftKeepsInv(s: Store, key: string)
    requires Inv(s)
    ensures Inv(OnClearDraft(s, key))
  {
    if s.account.Some? {
      WrittenLast(s.disk, s.jobs, Write(Id(s.account.value, key), ""));
      forall other ensures OwedIsShown(OnClearDraft(s, key), s.account.value, other) {
        assert OwedIsShown(s, s.account.value, other);
      }
    }
  }

  lemma BeginLoadKeepsInv(s: Store, account: string)
    requires Inv(s)
    ensures Inv(Step(s, BeginLoad(account)))
  {
    if s.account != Some(account) {
      WrittenLast(s.disk, s.jobs, Load(account));
      if s.account.Some? {
        forall key ensures OwedIsShown(Step(s, BeginLoad(account)), s.account.value, key) {
          assert OwedIsShown(s, s.account.value, key);
        }
      }
    }
  }

  lemma RowsAreDrafts(disk: map<Id, string>, account: string, key: string)
    ensures Find(Rows(disk, account), key) == Find(disk, Id(account, key))
  {
    if Id(account, key) in disk { assert Id(account, key).key == key; }
  }

  lemma WriteKeepsAgrees(s: Store)
    requires s.jobs != [] && s.jobs[0].Write? && Agrees(s)
    ensures Agrees(RunJob(s))
  {
    if s.account.Some? {
      forall key ensures OwedIsShown(RunJob(s), s.account.value, key) { assert OwedIsShown(s, s.account.value, key); }
    }
  }

  /** A load completes: memory agrees exactly when the table is current. */
  lemma LoadAgrees(s: Store)
    requires s.jobs != [] && s.jobs[0].Load?
    ensures Agrees(RunJob(s)) <==> Current(s, s.jobs[0].account)
  {
    var t, account := RunJob(s), s.jobs[0].account;
    forall key ensures OwedIsShown(t, account, key) <==> Find(s.disk, Id(account, key)) == Owed(s, Id(account, key)) {
      RowsAreDrafts(s.disk, account, key);
    }
    if Agrees(t) {
      forall key ensures Find(s.disk, Id(account, key)) == Owed(s, Id(account, key)) {
        assert OwedIsShown(t, account, key);
      }
    }
  }

  /** Whatever the callers do, in whatever order: the only step that breaks the agreement is a load
      that completes while something owed to its account differs from the table. */
  lemma StepAgreesExactlyWhenCurrent(s: Store, event: Event)
    requires Inv(s) && Enabled(s, event)
    ensures Step(s, event).timers == Step(s, event).pending.Keys
    ensures Inv(Step(s, event)) <==> LoadIsCurrent(s, event)
  {
    match event
    case SetDraft(key, text) => SetDraftKeepsInv(s, key, text);
    case ClearDraft(key) => ClearDraftKeepsInv(s, key);
    case Flush(key) => if s.account.Some? { FlushKeepsInv(s, Id(s.account.value, key)); }
    case Timer(id) => FlushKeepsInv(s, id);
    case Background(order) => FlushAllKeepsInv(s, order);
    case BeginLoad(account) => BeginLoadKeepsInv(s, account);
    case Database => if s.jobs[0].Load? { LoadAgrees(s); } else { WriteKeepsAgrees(s); }
  }

  predicate Runs(s: Store, events: seq<Event>)
    decreases |events|
  {
    events == [] || (Enabled(s, events[0]) && Runs(Step(s, events[0]), events[1..]))
  }

  function Run(s: Store, events: seq<Event>): Store
    requires Runs(s, events)
    decreases |events|
  {
    if events == [] then s else Run(Step(s, events[0]), events[1..])
  }

  ghost predicate LoadsAreCurrent(s: Store, events: seq<Event>)
    requires Runs(s, events)
    decreases |events|
  {
    events == [] || (LoadIsCurrent(s, events[0]) && LoadsAreCurrent(Step(s, events[0]), events[1..]))
  }

  ghost predicate AgreesThroughout(s: Store, events: seq<Event>)
    requires Runs(s, events)
    decreases |events|
  {
    Inv(s) && (events == [] || AgreesThroughout(Step(s, events[0]), events[1..]))
  }

  function Fresh(disk: map<Id, string>): Store {
    Store(None, map[], map[], {}, [], disk)
  }

  /** Memory agrees with the table and what is owed, at every moment of a run, exactly when every load
      completed while the table was current for its account. */
  lemma {:induction false} AgreesThroughoutExactlyWhenLoadsAreCurrent(s: Store, events: seq<Event>)
    requires Inv(s) && Runs(s, events)
    ensures AgreesThroughout(s, events) <==> LoadsAreCurrent(s, events)
    ensures LoadsAreCurrent(s, events) ==> Inv(Run(s, events))
    decreases |events|
  {
    if events != [] {
      StepAgreesExactlyWhenCurrent(s, events[0]);
      if LoadIsCurrent(s, events[0]) { AgreesThroughoutExactlyWhenLoadsAreCurrent(Step(s, events[0]), events[1..]); }
    }
  }

  /** In every run whose loads were current, for every draft of the loaded account: memory shows the
      table with the owed writes applied, there is a timer for each debounced text and for no other,
      and once nothing is owed and the database is idle the table itself agrees. */
  lemma MemoryIsTablePlusOwed(disk: map<Id, string>, events: seq<Event>, key: string)
    requires Runs(Fresh(disk), events) && LoadsAreCurrent(Fresh(disk), events)
    ensures var s := Run(Fresh(disk), events);
            && s.timers == s.pending.Keys
            && (s.account.Some? ==> Find(s.drafts, key) == Owed(s, Id(s.account.value, key)))
            && (s.account.Some? && s.pending == map[] && s.jobs == [] ==>
                  Find(s.drafts, key) == Find(s.disk, Id(s.account.value, key)))
  {
    AgreesThroughoutExactlyWhenLoadsAreCurrent(Fresh(disk), events);
    var s := Run(Fresh(disk), events);
    if s.account.Some? { assert OwedIsShown(s, s.account.value, key); }
  }

  // ----- what a caller can check

  /** Nothing owed to the account, so the table is all there is to read. */
  predicate Settled(s: Store, account: string) {
    forall id :: id in s.pending ==> id.account != account
  }

  /** A load in progress: its account is not shown, owes nothing, and nothing is written to it. */
  ghost predicate LoadIsSafe(s: Store, i: nat)
    requires i < |s.jobs|
  {
    s.jobs[i].Load? ==>
      && s.account != Some(s.jobs[i].account)
      && Settled(s, s.jobs[i].account)
      && forall j :: i < j < |s.jobs| ==> s.jobs[j].Write? && s.jobs[j].id.account != s.jobs[i].account
  }

  ghost predicate LoadsAreSafe(s: Store) {
    forall i :: 0 <= i < |s.jobs| ==> LoadIsSafe(s, i)
  }

  /** The caller loads an account only when no load is under way and none of its drafts is still
      debounced. */
  predicate Careful(s: Store, event: Event) {
    event.BeginLoad? && s.account != Some(event.account) ==>
      Settled(s, event.account) && forall i :: 0 <= i < |s.jobs| ==> s.jobs[i].Write?
  }

  predicate AllCareful(s: Store, events: seq<Event>)
    requires Runs(s, events)
    decreases |events|
  {
    events == [] || (Careful(s, events[0]) && AllCareful(Step(s, events[0]), events[1..]))
  }

  /** A step that adds at most one write, to an account no load is for, and owes nothing new to such. */
  lemma WriteIsSafe(s: Store, t: Store, added: seq<Job>)
    requires LoadsAreSafe(s) && t.jobs == s.jobs + added && |added| <= 1 && t.account == s.account
    requires forall j :: 0 <= j < |added| ==> added[j].Write?
    requires forall i, j :: 0 <= i < |s.jobs| && s.jobs[i].Load? && 0 <= j < |added| ==>
               added[j].id.account != s.jobs[i].account
    requires forall i, id :: 0 <= i < |s.jobs| && s.jobs[i].Load? && id in t.pending ==>
               id in s.pending || id.account != s.jobs[i].account
    ensures LoadsAreSafe(t)
  {
    forall i | 0 <= i < |t.jobs| ensures LoadIsSafe(t, i) {
      if i < |s.jobs| { assert LoadIsSafe(s, i); }
    }
  }

  lemma NobodyLoads(s: Store, account: string)
    requires LoadsAreSafe(s) && (s.account == Some(account) || !Settled(s, account))
    ensures forall i :: 0 <= i < |s.jobs| && s.jobs[i].Load? ==> s.jobs[i].account != account
  {
    forall i | 0 <= i < |s.jobs| && s.jobs[i].Load? ensures s.jobs[i].account != account { assert LoadIsSafe(s, i); }
  }

  lemma FlushIsSafe(s: Store, id: Id)
    requires LoadsAreSafe(s)
    ensures LoadsAreSafe(FlushPending(s, id))
  {
    if id in s.pending {
      NobodyLoads(s, id.account);
      WriteIsSafe(s, FlushPending(s, id), [Write(id, s.pending[id])]);
    } else {
      WriteIsSafe(s, FlushPending(s, id), []);
    }
  }

  lemma {:induction false} FlushAllIsSafe(s: Store, order: seq<Id>)
    requires LoadsAreSafe(s)
    ensures LoadsAreSafe(FlushAll(s, order))
    decreases |order|
  {
    if order != [] {
      FlushIsSafe(s, order[0]);
      FlushAllIsSafe(FlushPending(s, order[0]), order[1..]);
    }
  }

  lemma TypingIsSafe(s: Store, event: Event)
    requires LoadsAreSafe(s) && (event.SetDraft? || event.ClearDraft?)
    ensures LoadsAreSafe(Step(s, event))
  {
    if s.account.Some? {
      NobodyLoads(s, s.account.value);
      WriteIsSafe(s, Step(s, event), if event.SetDraft? then [] else [Write(Id(s.account.value, event.key), "")]);
    } else {
      WriteIsSafe(s, Step(s, event), []);
    }
  }

  lemma DatabaseIsSafe(s: Store)
    requires LoadsAreSafe(s) && s.jobs != []
    ensures LoadsAreSafe(RunJob(s))
  {
    var t := RunJob(s);
    assert LoadIsSafe(s, 0);
    forall i | 0 <= i < |t.jobs| ensures LoadIsSafe(t, i) { assert LoadIsSafe(s, i + 1) && t.jobs[i] == s.jobs[i + 1]; }
  }

  lemma BeginLoadIsSafe(s: Store, account: string)
    requires LoadsAreSafe(s) && Careful(s, BeginLoad(account))
    ensures LoadsAreSafe(Step(s, BeginLoad(account)))
  {}

  lemma StepIsSafe(s: Store, event: Event)
    requires LoadsAreSafe(s) && Enabled(s, event) && Careful(s, event)
    ensures LoadsAreSafe(Step(s, event))
  {
    match event
    case SetDraft(_, _) => TypingIsSafe(s, event);
    case ClearDraft(_) => TypingIsSafe(s, event);
    case Flush(key) => if s.account.Some? { FlushIsSafe(s, Id(s.account.value, key)); }
    case Timer(id) => FlushIsSafe(s, id);
    case Background(order) => FlushAllIsSafe(s, order);
    case BeginLoad(account) => BeginLoadIsSafe(s, account);
    case Database => DatabaseIsSafe(s);
  }

  lemma SafeIsCurrent(s: Store)
    requires LoadsAreSafe(s) && s.jobs != [] && s.jobs[0].Load?
    ensures Current(s, s.jobs[0].account)
  {
    assert LoadIsSafe(s, 0);
    forall key ensures Find(s.disk, Id(s.jobs[0].account, key)) == Owed(s, Id(s.jobs[0].account, key)) {
      WrittenElsewhere(s.disk, s.jobs[1..], Id(s.jobs[0].account, key));
    }
  }

  /** Careful callers never load an account that is not current. */
  lemma {:induction false} CarefulLoadsAreCurrent(s: Store, events: seq<Event>)
    requires LoadsAreSafe(s) && Runs(s, events) && AllCareful(s, events)
    ensures LoadsAreCurrent(s, events)
    decreases |events|
  {
    if events != [] {
      if CompletesLoad(s, events[0]) { SafeIsCurrent(s); }
      StepIsSafe(s, events[0]);
      CarefulLoadsAreCurrent(Step(s, events[0]), events[1..]);
    }
  }

  /** Leaving the foreground hands every debounced text over: no text and no timer is left, and
      everything owed is on its way to the table. */
  lemma BackgroundEmpties(s: Store, order: seq<Id>, id: Id)
    requires Inv(s) && Enabled(s, Background(order))
    ensures var t := Step(s, Background(order));
            t.pending == map[] && t.timers == {} && Find(Written(t.disk, t.jobs), id) == Owed(s, id)
  {
    FlushAllKeepsInv(s, order);
    FlushAllKeepsOwed(s, order, id);
    var t := FlushAll(s, order);
    assert t.pending.Keys == {};
  }

  lemma FlushedDraft(s: Store, id: Id, other: Id)
    ensures var t := FlushPending(s, id);
            && id !in t.pending && id !in t.timers && Find(Written(t.disk, t.jobs), id) == Owed(s, id)
            && (other != id ==> Find(t.pending, other) == Find(s.pending, other) && Owed(t, other) == Owed(s, other))
  {
    FlushKeepsOwed(s, id, id);
    FlushKeepsOwed(s, id, other);
  }

  /** Flushing one draft, by its timer or by the composer, does the same for that draft alone. */
  lemma FlushHandsOver(s: Store, event: Event, id: Id, other: Id)
    requires Enabled(s, event) && (event == Timer(id) || (event == Flush(id.key) && s.account == Some(id.account)))
    ensures var t := Step(s, event);
            && id !in t.pending && id !in t.timers && Find(Written(t.disk, t.jobs), id) == Owed(s, id)
            && (other != id ==> Find(t.pending, other) == Find(s.pending, other) && Owed(t, other) == Owed(s, other))
            && t.drafts == s.drafts && t.account == s.account
  {
    FlushedDraft(s, id, other);
  }

  /** Clearing a draft removes it for good: it is shown no longer, and once the database has caught up the
      table has no row for it, whatever was debounced or queued before. No other draft notices. */
  lemma ClearRemovesTheDraft(s: Store, key: string, other: Id)
    ensures var t := OnClearDraft(s, key);
            && key !in t.drafts && (forall k :: k != key ==> Find(t.drafts, k) == Find(s.drafts, k))
            && (s.account.Some? ==>
                  var id := Id(s.account.value, key);
                  && id !in t.pending && id !in t.timers && id !in Written(t.disk, t.jobs)
                  && Drained(t).disk == Written(t.disk, t.jobs)
                  && (other != id ==> Owed(t, other) == Owed(s, other)))
            && (s.account.None? ==> t == s.(drafts := t.drafts))
  {
    var t := OnClearDraft(s, key);
    DrainedDisk(t);
    if s.account.Some? {
      WrittenLast(s.disk, s.jobs, Write(Id(s.account.value, key), ""));
      assert Draft("") == None;
    }
  }

  /** Typing shows the text, unless it is blank, and owes it to the table. No other draft notices. */
  lemma TypingOwesTheText(s: Store, key: string, text: string, other: Id)
    requires s.account.Some?
    ensures var t, id := OnSetDraft(s, key, text), Id(s.account.value, key);
            && Find(t.drafts, key) == Owed(t, id) == (if forall c :: c in text ==> White(c) then None else Some(text))
            && id in t.timers && t.jobs == s.jobs
            && (forall k :: k != key ==> Find(t.drafts, k) == Find(s.drafts, k))
            && (other != id ==> Owed(t, other) == Owed(s, other))
  {
    BlankIsAllWhite(text);
  }

  lemma BlankIsAllWhite(text: string)
    ensures Blank(text) <==> forall c :: c in text ==> White(c)
  {
    if forall c :: c in text ==> White(c) {
      forall i | 0 <= i < |text| ensures White(text[i]) { assert text[i] in text; }
    }
  }

  lemma {:induction false} DrainedDisk(s: Store)
    ensures Drained(s).disk == Written(s.disk, s.jobs) && Drained(s).pending == s.pending && Drained(s).jobs == []
    decreases |s.jobs|
  {
    if s.jobs != [] { DrainedDisk(RunJob(s)); }
  }

  lemma {:induction false} FlushAllKeepsOwed(s: Store, order: seq<Id>, id: Id)
    ensures Owed(FlushAll(s, order), id) == Owed(s, id)
    decreases |order|
  {
    if order != [] {
      FlushKeepsOwed(s, order[0], id);
      FlushAllKeepsOwed(FlushPending(s, order[0]), order[1..], id);
    }
  }

  function Drained(s: Store): Store
    decreases |s.jobs|
  {
    if s.jobs == [] then s else Drained(RunJob(s))
  }

  lemma {:induction false} DrainedLoad(s: Store, account: string)
    requires s.jobs != [] && s.jobs[|s.jobs| - 1] == Load(account)
    ensures var t := Drained(s);
            && t.account == Some(account) && t.jobs == [] && t.pending == s.pending
            && t.disk == Written(s.disk, s.jobs) && t.drafts == Rows(t.disk, account)
    decreases |s.jobs|
  {
    var t := RunJob(s);
    if |s.jobs| == 1 {
      assert t.jobs == [] && s.jobs[1..] == [];
      assert Drained(t) == t;
    } else {
      assert t.jobs[|t.jobs| - 1] == s.jobs[|s.jobs| - 1];
      DrainedLoad(t, account);
    }
  }

  /** Loading behind any queue of writes and loads: when the database has caught up, memory agrees with
      what is owed exactly when every text still debounced for that account is what the table then
      holds. */
  lemma LoadAgreesExactlyWhenNothingNewIsOwed(s: Store, account: string)
    requires s.account != Some(account)
    ensures Agrees(Drained(Step(s, BeginLoad(account)))) <==>
            forall id :: id in s.pending && id.account == account ==> Draft(s.pending[id]) == Find(Written(s.disk, s.jobs), id)
  {
    var t := Drained(Step(s, BeginLoad(account)));
    DrainedLoad(Step(s, BeginLoad(account)), account);
    WrittenLast(s.disk, s.jobs, Load(account));
    forall key ensures OwedIsShown(t, account, key) <==> Find(t.disk, Id(account, key)) == Owed(t, Id(account, key)) {
      RowsAreDrafts(t.disk, account, key);
    }
    if Agrees(t) {
      forall id | id in s.pending && id.account == account ensures Draft(s.pending[id]) == Find(t.disk, id) {
        assert OwedIsShown(t, account, id.key);
        assert id == Id(account, id.key);
      }
    }
  }

  /** Two loads of one account: the first shows it, and a text typed before the second one answers is
      on screen no longer, unless the table happens to hold it. */
  lemma SecondLoadDropsTheText(disk: map<Id, string>, account: string, key: string, text: string)
    ensures var events := [BeginLoad(account), BeginLoad(account), Database, SetDraft(key, text), Database];
            && Runs(Fresh(disk), events)
            && var s := Run(Fresh(disk), events);
               && s.account == Some(account) && Find(s.drafts, key) == Find(disk, Id(account, key))
               && Id(account, key) in s.pending && s.pending[Id(account, key)] == text
               && (Agrees(s) <==> Draft(text) == Find(disk, Id(account, key)))
  {
    var s1 := Step(Fresh(disk), BeginLoad(account));
    var s2 := Step(s1, BeginLoad(account));
    assert s2.jobs == [Load(account), Load(account)];
    var s3 := RunJob(s2);
    assert s3.jobs == [Load(account)] && s3.account == Some(account);
    var s4 := OnSetDraft(s3, key, text);
    assert s4.pending == map[Id(account, key) := text] && s4.jobs == [Load(account)];
    var s5 := RunJob(s4);
    assert s5.jobs == [];
    FiveSteps(Fresh(disk), s1, s2, s3, s4, account, key, text);
    forall other ensures OwedIsShown(s5, account, other) <==> (other == key ==> Draft(text) == Find(disk, Id(account, key))) {
      RowsAreDrafts(disk, account, other);
    }
    assert Agrees(s5) ==> OwedIsShown(s5, account, key);
    RowsAreDrafts(disk, account, key);
  }

  lemma FiveSteps(s: Store, s1: Store, s2: Store, s3: Store, s4: Store, account: string, key: string, text: string)
    requires s1 == Step(s, BeginLoad(account)) && s2 == Step(s1, BeginLoad(account))
    requires s2.jobs != [] && s3 == RunJob(s2) && s4 == OnSetDraft(s3, key, text) && s4.jobs != []
    ensures var events := [BeginLoad(account), BeginLoad(account), Database, SetDraft(key, text), Database];
            Runs(s, events) && Run(s, events) == RunJob(s4)
  {
    var events := [BeginLoad(account), BeginLoad(account), Database, SetDraft(key, text), Database];
    assert events[4..][1..] == [] && Runs(s4, events[4..]) && Run(s4, events[4..]) == RunJob(s4);
    assert events[3..][1..] == events[4..] && Runs(s3, events[3..]) && Run(s3, events[3..]) == RunJob(s4);
    assert events[2..][1..] == events[3..] && Runs(s2, events[2..]) && Run(s2, events[2..]) == RunJob(s4);
    assert events[1..][1..] == events[2..] && Runs(s1, events[1..]) && Run(s1, events[1..]) == RunJob(s4);
  }

  /** Switching away and back within the debounce time shows the old text, and the newer one is
      written to the table behind it. */
  lemma QuickSwitchShowsOldDraft(a: string, b: string, chat: string, text: string)
    requires a != b && !Blank(text)
    ensures var typed := OnSetDraft(Store(Some(a), map[], map[], {}, [], map[]), chat, text);
            var away := RunJob(Step(typed, BeginLoad(b)));
            var back := RunJob(Step(away, BeginLoad(a)));
            var written := RunJob(FlushPending(back, Id(a, chat)));
            written.account == Some(a) && chat !in written.drafts && Find(written.disk, Id(a, chat)) == Some(text)
  {
    var id := Id(a, chat);
    var typed := OnSetDraft(Store(Some(a), map[], map[], {}, [], map[]), chat, text);
    assert typed.pending[id] == text && typed.jobs == [] && typed.disk == map[];
    var away := RunJob(Step(typed, BeginLoad(b)));
    assert away.account == Some(b) && away.pending == typed.pending && away.jobs == [] && away.disk == map[];
    var back := RunJob(Step(away, BeginLoad(a)));
    assert back.account == Some(a) && back.drafts == map[] && back.pending == typed.pending && back.jobs == [];
  }

  /** The store and its two module-level maps, updated in place. */
  class DraftsStore {
    var account: Option<string>
    var drafts: map<string, string>
    var pending: map<Id, string>
    var writeTimers: set<Id>
    var jobs: seq<Job>
    var disk: map<Id, string>

    function State(): Store
      reads this
    {
      Store(account, drafts, pending, writeTimers, jobs, disk)
    }

    constructor (disk: map<Id, string>)
      ensures State() == Fresh(disk)
    {
      account, drafts, pending, writeTimers, jobs := None, map[], map[], {}, [];
      this.disk := disk;
    }

    method FlushOne(id: Id)
      modifies this
      ensures State() == FlushPending(old(State()), id)
    {
      writeTimers := writeTimers - {id};
      if id !in pending { return; }
      var text := pending[id];
      pending := pending - {id};
      jobs := jobs + [Write(id, text)];
    }

    method LeaveForeground(order: seq<Id>)
      modifies this
      ensures State() == FlushAll(old(State()), order)
      ensures old(Inv(State())) ==> Inv(State())
    {
      if Inv(State()) { FlushAllKeepsInv(State(), order); }
      var i := 0;
      while i < |order|
        invariant 0 <= i <= |order|
        invariant FlushAll(State(), order[i..]) == FlushAll(old(State()), order)
      {
        assert order[i..][1..] == order[i + 1..];
        FlushOne(order[i]);
        i := i + 1;
      }
    }

    method ScheduleWrite(id: Id, text: string)
      modifies this
      ensures State() == old(State()).(pending := old(pending)[id := text], timers := old(writeTimers) + {id})
    {
      pending := pending[id := text];
      writeTimers := writeTimers - {id};
      writeTimers := writeTimers + {id};
    }

    method FlushWrite(id: Id, text: string)
      modifies this
      ensures State() == FlushPending(old(State()).(pending := old(pending)[id := text]), id)
    {
      pending := pending[id := text];
      FlushOne(id);
    }

    method Set(key: string, text: string)
      modifies this
      ensures State() == OnSetDraft(old(State()), key, text)
      ensures old(Inv(State())) ==> Inv(State())
    {
      if Inv(State()) { SetDraftKeepsInv(State(), key, text); }
      if account.None? { return; }
      if Blank(text) {
        if key in drafts { drafts := drafts - {key}; }
      } else if Find(drafts, key) != Some(text) {
        drafts := drafts[key := text];
      }
      ScheduleWrite(Id(account.value, key), text);
    }

    method Clear(key: string)
      modifies this
      ensures State() == OnClearDraft(old(State()), key)
      ensures old(Inv(State())) ==> Inv(State())
    {
      if Inv(State()) { ClearDraftKeepsInv(State(), key); }
      if key in drafts { drafts := drafts - {key}; }
      if account.Some? { FlushWrite(Id(account.value, key), ""); }
    }

    method FlushKey(key: string)
      modifies this
      ensures State() == Step(old(State()), Flush(key))
      ensures old(Inv(State())) ==> Inv(State())
    {
      if Inv(State()) && account.Some? { FlushKeepsInv(State(), Id(account.value, key)); }
      if account.Some? { FlushOne(Id(account.value, key)); }
    }

    method BeginLoading(account: string)
      modifies this
      ensures State() == Step(old(State()), BeginLoad(account))
      ensures old(Inv(State())) ==> Inv(State())
    {
      if Inv(State()) { BeginLoadKeepsInv(State(), account); }
      if this.account == Some(account) { return; }
      jobs := jobs + [Load(account)];
    }

    method DatabaseStep()
      requires jobs != []
      modifies this
      ensures State() == RunJob(old(State()))
      ensures old(Inv(State())) ==> (Inv(State()) <==> old(LoadIsCurrent(State(), Database)))
    {
      if Inv(State()) { StepAgreesExactlyWhenCurrent(State(), Database); }
      var job := jobs[0];
      jobs := jobs[1..];
      match job
      case Write(id, text) => disk := Put(disk, id, Draft(text));
      case Load(loaded) => drafts, account := Rows(disk, loaded), Some(loaded);
    }
  }
}
