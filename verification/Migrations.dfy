/** Schema migration, src/db/use-live-query.ts:28-72. */
module Migrations {
  import opened Wrappers

  /** What a run does to the database, in order. Statements and data migrations are left
      uninterpreted: any deterministic effect of theirs is a function of this log. */
  datatype Action =
    | Statement(sql: string)
    | DataMigration(index: nat)
    | Record(createdAt: int)

  type Log = seq<Action>

  datatype Entry = Entry(idx: nat, when: int, tag: string)
  datatype Migration = Migration(index: nat, statements: seq<string>, createdAt: int)

  const DATA_MIGRATIONS: set<nat> := {61, 62, 71, 77}

  // ----- one migration, and the run that applies those not yet recorded

  function Statements(statements: seq<string>): Log {
    if statements == [] then [] else [Statement(statements[0])] + Statements(statements[1..])
  }

  function Actions(m: Migration): Log {
    Statements(m.statements) +
    (if m.index in DATA_MIGRATIONS then [DataMigration(m.index)] else []) +
    [Record(m.createdAt)]
  }

  function AllActions(ms: seq<Migration>): Log {
    if ms == [] then [] else Actions(ms[0]) + AllActions(ms[1..])
  }

  /** The largest created_at in __drizzle_migrations. */
  function Latest(log: Log): Option<int> {
    if log == [] then None
    else
      var rest := Latest(log[1..]);
      if log[0].Record? && (rest.None? || rest.value < log[0].createdAt) then Some(log[0].createdAt) else rest
  }

  predicate Skipped(latest: Option<int>, m: Migration) {
    latest.Some? && latest.value >= m.createdAt
  }

  function Due(ms: seq<Migration>, latest: Option<int>): seq<Migration> {
    if ms == [] then [] else (if Skipped(latest, ms[0]) then [] else [ms[0]]) + Due(ms[1..], latest)
  }

  /** Run the actions in order; fails says which of them throws on which database. */
  function Apply(log: Log, actions: Log, fails: (Log, Action) -> bool): Option<Log>
    decreases |actions|
  {
    if actions == [] then Some(log)
    else if fails(log, actions[0]) then None
    else Apply(log + [actions[0]], actions[1..], fails)
  }

  /** None: the transaction rolled back and the error is rethrown. */
  function Migrate(log: Log, ms: seq<Migration>, fails: (Log, Action) -> bool): Option<Log> {
    Apply(log, AllActions(Due(ms, Latest(log))), fails)
  }

  /** The statements of each journal entry; an entry without any is an error before anything runs. */
  function Load(entries: seq<Entry>, sources: map<nat, seq<string>>): Option<seq<Migration>> {
    if entries == [] then Some([])
    else if entries[0].idx !in sources then None
    else
      var rest := Load(entries[1..], sources);
      if rest.None? then None
      else Some([Migration(entries[0].idx, sources[entries[0].idx], entries[0].when)] + rest.value)
  }

  // ----- logs

  lemma {:induction false} ApplyConcat(log: Log, a: Log, b: Log, fails: (Log, Action) -> bool)
    ensures Apply(log, a + b, fails) ==
            match Apply(log, a, fails) case Some(middle) => Apply(middle, b, fails) case None => None
    decreases |a|
  {
    if a == [] {
      assert a + b == b;
    } else {
      assert (a + b)[1..] == a[1..] + b;
      ApplyConcat(log + [a[0]], a[1..], b, fails);
    }
  }

  lemma {:induction false} ApplyAppends(log: Log, actions: Log, fails: (Log, Action) -> bool)
    requires Apply(log, actions, fails).Some?
    ensures Apply(log, actions, fails) == Some(log + actions)
    decreases |actions|
  {
    if actions == [] {
      assert log + [] == log;
    } else {
      ApplyAppends(log + [actions[0]], actions[1..], fails);
      assert log + [actions[0]] + actions[1..] == log + actions;
    }
  }

  /** Action k throws on the database that the actions before it leave. */
  predicate FailsAt(log: Log, actions: Log, k: nat, fails: (Log, Action) -> bool)
    requires k < |actions|
  {
    fails(log + actions[..k], actions[k])
  }

  /** A run goes through exactly when no action fails on the database it meets. */
  lemma {:induction false} AppliesExactlyWhenNothingFails(log: Log, actions: Log, fails: (Log, Action) -> bool)
    ensures Apply(log, actions, fails).Some? <==> forall k :: 0 <= k < |actions| ==> !FailsAt(log, actions, k, fails)
    decreases |actions|
  {
    if actions != [] {
      var rest, next := actions[1..], log + [actions[0]];
      AppliesExactlyWhenNothingFails(next, rest, fails);
      assert log + actions[..0] == log;
      forall k | 0 <= k < |rest| ensures FailsAt(next, rest, k, fails) <==> FailsAt(log, actions, k + 1, fails) {
        assert actions[..k + 1] == [actions[0]] + rest[..k];
        ConcatAssociative(log, [actions[0]], rest[..k]);
      }
      assert FailsAt(log, actions, 0, fails) <==> fails(log, actions[0]);
      assert forall k :: 1 <= k < |actions| ==> (FailsAt(log, actions, k, fails) <==> FailsAt(next, rest, k - 1, fails));
    }
  }

  /** The bundle is read exactly when no journal entry misses its text, entry by entry in journal order. */
  lemma {:induction false} LoadsExactlyWhenNothingIsMissing(entries: seq<Entry>, sources: map<nat, seq<string>>)
    ensures Load(entries, sources).Some? <==> forall i :: 0 <= i < |entries| ==> entries[i].idx in sources
    ensures Load(entries, sources).Some? ==>
              var ms := Load(entries, sources).value;
              && |ms| == |entries|
              && forall i :: 0 <= i < |ms| ==>
                   (entries[i].idx in sources && ms[i] == Migration(entries[i].idx, sources[entries[i].idx], entries[i].when))
  {
    if entries != [] {
      LoadsExactlyWhenNothingIsMissing(entries[1..], sources);
      assert forall i :: 0 <= i < |entries[1..]| ==> entries[1..][i] == entries[i + 1];
      if forall i :: 0 <= i < |entries| ==> entries[i].idx in sources {
        forall i | 0 <= i < |entries[1..]| ensures entries[1..][i].idx in sources { assert entries[i + 1].idx in sources; }
      }
      if Load(entries, sources).Some? {
        forall i | 0 <= i < |entries| ensures entries[i].idx in sources {
          if i > 0 { assert entries[1..][i - 1].idx in sources; }
        }
      }
    }
  }

  lemma {:induction false} ActionsConcat(a: seq<Migration>, b: seq<Migration>)
    ensures AllActions(a + b) == AllActions(a) + AllActions(b)
  {
    if a == [] {
      assert a + b == b;
    } else {
      assert (a + b)[1..] == a[1..] + b;
      ActionsConcat(a[1..], b);
    }
  }

  function Later(a: Option<int>, b: Option<int>): Option<int> {
    if a.None? then b else if b.None? then a else Some(if a.value < b.value then b.value else a.value)
  }

  lemma {:induction false} LatestConcat(a: Log, b: Log)
    ensures Latest(a + b) == Later(Latest(a), Latest(b))
  {
    if a == [] {
      assert a + b == b;
    } else {
      assert (a + b)[1..] == a[1..] + b;
      LatestConcat(a[1..], b);
    }
  }

  lemma {:induction false} StatementsAreNotRecords(statements: seq<string>)
    ensures Latest(Statements(statements)) == None && forall a :: a in Statements(statements) ==> a.Statement?
  {
    if statements != [] { StatementsAreNotRecords(statements[1..]); }
  }

  lemma LatestOfActions(m: Migration)
    ensures Latest(Actions(m)) == Some(m.createdAt)
  {
    var data := if m.index in DATA_MIGRATIONS then [DataMigration(m.index)] else [];
    StatementsAreNotRecords(m.statements);
    LatestConcat(Statements(m.statements), data);
    LatestConcat(Statements(m.statements) + data, [Record(m.createdAt)]);
  }

  // ----- journals in order

  predicate Increasing(ms: seq<Migration>) {
    forall i, j :: 0 <= i < j < |ms| ==> ms[i].createdAt < ms[j].createdAt
  }

  lemma {:induction false} LatestOfJournal(ms: seq<Migration>)
    requires Increasing(ms)
    ensures Latest(AllActions(ms)) == if ms == [] then None else Some(ms[|ms| - 1].createdAt)
  {
    if ms != [] {
      LatestOfJournal(ms[1..]);
      LatestOfActions(ms[0]);
      LatestConcat(Actions(ms[0]), AllActions(ms[1..]));
    }
  }

  lemma {:induction false} LatestIsRecorded(ms: seq<Migration>, i: nat)
    requires i < |ms|
    ensures Latest(AllActions(ms)).Some? && Latest(AllActions(ms)).value >= ms[i].createdAt
  {
    LatestOfActions(ms[0]);
    LatestConcat(Actions(ms[0]), AllActions(ms[1..]));
    if i > 0 { LatestIsRecorded(ms[1..], i - 1); }
  }

  lemma {:induction false} DueFromNothing(ms: seq<Migration>)
    ensures Due(ms, None) == ms
  {
    if ms != [] { DueFromNothing(ms[1..]); }
  }

  /** After the first n entries exactly the later ones are due. */
  lemma {:induction false} DueAfter(ms: seq<Migration>, n: nat, latest: Option<int>)
    requires n <= |ms|
    requires forall i :: 0 <= i < n ==> Skipped(latest, ms[i])
    requires forall i :: n <= i < |ms| ==> !Skipped(latest, ms[i])
    ensures Due(ms, latest) == ms[n..]
  {
    if ms != [] { DueAfter(ms[1..], if n == 0 then 0 else n - 1, latest); }
  }

  lemma {:induction false} DueLength(ms: seq<Migration>, latest: Option<int>, i: nat)
    requires i < |ms| && Skipped(latest, ms[i])
    ensures |Due(ms, latest)| < |ms|
  {
    DueIsShorter(ms[1..], latest);
    if i > 0 { DueLength(ms[1..], latest, i - 1); }
  }

  lemma {:induction false} DueIsShorter(ms: seq<Migration>, latest: Option<int>)
    ensures |Due(ms, latest)| <= |ms|
  {
    if ms != [] { DueIsShorter(ms[1..], latest); }
  }

  /** The database a journal leaves on an empty one: every migration once, in journal order, each
      data migration right after the statements of its own entry. */
  lemma FreshInstall(ms: seq<Migration>, fails: (Log, Action) -> bool)
    ensures Migrate([], ms, fails).Some? ==> Migrate([], ms, fails) == Some(AllActions(ms))
  {
    DueFromNothing(ms);
    if Migrate([], ms, fails).Some? {
      ApplyAppends([], AllActions(ms), fails);
      assert [] + AllActions(ms) == AllActions(ms);
    }
  }

  // ----- what a fresh install did, read off its log

  function StatementsOf(log: Log): seq<string> {
    if log == [] then [] else (if log[0].Statement? then [log[0].sql] else []) + StatementsOf(log[1..])
  }

  function DataMigrationsOf(log: Log): seq<nat> {
    if log == [] then [] else (if log[0].DataMigration? then [log[0].index] else []) + DataMigrationsOf(log[1..])
  }

  function RecordsOf(log: Log): seq<int> {
    if log == [] then [] else (if log[0].Record? then [log[0].createdAt] else []) + RecordsOf(log[1..])
  }

  /** The statements of the entries, one entry after the other. */
  function AllStatements(ms: seq<Migration>): seq<string> {
    if ms == [] then [] else AllStatements(ms[..|ms| - 1]) + ms[|ms| - 1].statements
  }

  function AllDataMigrations(ms: seq<Migration>): seq<nat> {
    if ms == [] then []
    else AllDataMigrations(ms[..|ms| - 1]) + if ms[|ms| - 1].index in {61, 62, 71, 77} then [ms[|ms| - 1].index] else []
  }

  lemma {:induction false} ReadConcat(a: Log, b: Log)
    ensures StatementsOf(a + b) == StatementsOf(a) + StatementsOf(b)
    ensures DataMigrationsOf(a + b) == DataMigrationsOf(a) + DataMigrationsOf(b)
    ensures RecordsOf(a + b) == RecordsOf(a) + RecordsOf(b)
  {
    if a == [] {
      assert a + b == b;
    } else {
      assert (a + b)[1..] == a[1..] + b;
      ReadConcat(a[1..], b);
      ConcatAssociative(if a[0].Statement? then [a[0].sql] else [], StatementsOf(a[1..]), StatementsOf(b));
      ConcatAssociative(if a[0].DataMigration? then [a[0].index] else [], DataMigrationsOf(a[1..]), DataMigrationsOf(b));
      ConcatAssociative(if a[0].Record? then [a[0].createdAt] else [], RecordsOf(a[1..]), RecordsOf(b));
    }
  }

  lemma {:induction false} ReadStatements(statements: seq<string>)
    ensures StatementsOf(Statements(statements)) == statements
    ensures DataMigrationsOf(Statements(statements)) == [] && RecordsOf(Statements(statements)) == []
  {
    if statements != [] {
      ReadStatements(statements[1..]);
      assert Statements(statements)[1..] == Statements(statements[1..]);
    }
  }

  lemma ReadOne(a: Action)
    ensures StatementsOf([a]) == if a.Statement? then [a.sql] else []
    ensures DataMigrationsOf([a]) == if a.DataMigration? then [a.index] else []
    ensures RecordsOf([a]) == if a.Record? then [a.createdAt] else []
  {
    assert [a][1..] == [];
  }

  lemma ReadData(m: Migration, data: Log)
    requires data == if m.index in DATA_MIGRATIONS then [DataMigration(m.index)] else []
    ensures StatementsOf(data) == [] && RecordsOf(data) == []
    ensures DataMigrationsOf(data) == if m.index in {61, 62, 71, 77} then [m.index] else []
  {
    if data != [] { ReadOne(data[0]); }
  }

  /** The actions of one entry, read back. */
  lemma ReadEntry(m: Migration)
    ensures StatementsOf(Actions(m)) == m.statements && RecordsOf(Actions(m)) == [m.createdAt]
    ensures DataMigrationsOf(Actions(m)) == if m.index in {61, 62, 71, 77} then [m.index] else []
  {
    var data := if m.index in DATA_MIGRATIONS then [DataMigration(m.index)] else [];
    ReadStatements(m.statements);
    ReadData(m, data);
    ReadOne(Record(m.createdAt));
    ReadConcat(Statements(m.statements), data);
    ReadConcat(Statements(m.statements) + data, [Record(m.createdAt)]);
  }

  lemma OneEntry(m: Migration)
    ensures AllActions([m]) == Actions(m)
  {
    assert [m][1..] == [] && AllActions([]) == [];
    HeadAndTail(Actions(m));
  }

  lemma AllActionsSnoc(front: seq<Migration>, last: Migration)
    ensures AllActions(front + [last]) == AllActions(front) + Actions(last)
  {
    ActionsConcat(front, [last]);
    OneEntry(last);
  }

  /** A fresh install ran every statement of every entry, in journal order, the four data migrations in
      journal order, and recorded every entry once. */
  lemma {:induction false} FreshInstallRunsEverything(ms: seq<Migration>)
    ensures StatementsOf(AllActions(ms)) == AllStatements(ms)
    ensures DataMigrationsOf(AllActions(ms)) == AllDataMigrations(ms)
    ensures |RecordsOf(AllActions(ms))| == |ms| && forall i :: 0 <= i < |ms| ==> RecordsOf(AllActions(ms))[i] == ms[i].createdAt
    decreases |ms|
  {
    if ms != [] {
      var front, last := ms[..|ms| - 1], ms[|ms| - 1];
      assert ms == front + [last];
      AllActionsSnoc(front, last);
      FreshInstallRunsEverything(front);
      ReadEntry(last);
      ReadConcat(AllActions(front), Actions(last));
    }
  }

  lemma {:induction false} StatementAt(statements: seq<string>, k: nat)
    requires k < |statements|
    ensures |Statements(statements)| == |statements| && Statements(statements)[k] == Statement(statements[k])
  {
    if |statements| > 1 { StatementAt(statements[1..], if k == 0 then 0 else k - 1); }
  }

  /** In one entry the data migration comes after all statements, before the record. */
  lemma DataMigrationInEntry(m: Migration, k: nat)
    requires k < |Actions(m)| && Actions(m)[k].DataMigration?
    ensures Actions(m)[k].index == m.index && m.index in {61, 62, 71, 77}
    ensures StatementsOf(Actions(m)[..k]) == m.statements && RecordsOf(Actions(m)[..k]) == []
  {
    StatementsAreNotRecords(m.statements);
    forall i | 0 <= i < |Statements(m.statements)| ensures Actions(m)[i].Statement? {
      assert Statements(m.statements)[i] in Statements(m.statements);
    }
    assert Actions(m)[..k] == Statements(m.statements);
    ReadStatements(m.statements);
  }

  /** A data migration sees the schema of its own entry and of no later one: all statements up to and
      including its entry's have run by then, and exactly the entries before it are recorded. */
  lemma {:induction false} DataMigrationSeesItsSchema(ms: seq<Migration>, k: nat)
    requires k < |AllActions(ms)| && AllActions(ms)[k].DataMigration?
    ensures var log := AllActions(ms); var i := |RecordsOf(log[..k])|;
            && i < |ms| && log[k].index == ms[i].index && ms[i].index in {61, 62, 71, 77}
            && StatementsOf(log[..k]) == AllStatements(ms[..i + 1])
    decreases |ms|
  {
    var front, last := ms[..|ms| - 1], ms[|ms| - 1];
    var before, log := AllActions(front), AllActions(ms);
    assert ms == front + [last];
    AllActionsSnoc(front, last);
    if k < |before| {
      assert log[..k] == before[..k] && log[k] == before[k];
      DataMigrationSeesItsSchema(front, k);
      EarlierEntries(ms, |RecordsOf(log[..k])|);
    } else {
      LastEntrySeesItsSchema(front, last, k - |before|);
      assert log[..k] == before + Actions(last)[..k - |before|] && log[k] == Actions(last)[k - |before|];
    }
  }

  lemma EarlierEntries(ms: seq<Migration>, i: nat)
    requires i < |ms| - 1
    ensures ms[..|ms| - 1][..i + 1] == ms[..i + 1]
  {}

  lemma LastEntrySeesItsSchema(front: seq<Migration>, last: Migration, at: nat)
    requires at < |Actions(last)| && Actions(last)[at].DataMigration?
    ensures var before := AllActions(front) + Actions(last)[..at]; var ms := front + [last];
            && |RecordsOf(before)| == |front| && StatementsOf(before) == AllStatements(ms[..|front| + 1])
            && Actions(last)[at].index == last.index && last.index in {61, 62, 71, 77}
  {
    DataMigrationInEntry(last, at);
    EntryInProgress(front, last, Actions(last)[..at]);
    assert (front + [last])[..|front| + 1] == front + [last];
  }

  lemma EntryInProgress(front: seq<Migration>, last: Migration, part: Log)
    requires StatementsOf(part) == last.statements && RecordsOf(part) == []
    ensures |RecordsOf(AllActions(front) + part)| == |front|
    ensures StatementsOf(AllActions(front) + part) == AllStatements(front + [last])
  {
    ReadConcat(AllActions(front), part);
    FreshInstallRunsEverything(front);
    AllStatementsSnoc(front, last);
  }

  lemma AllStatementsSnoc(front: seq<Migration>, last: Migration)
    ensures AllStatements(front + [last]) == AllStatements(front) + last.statements
  {
    assert (front + [last])[..|front|] == front;
  }

  lemma PrefixInstalls(ms: seq<Migration>, n: nat, fails: (Log, Action) -> bool)
    requires n <= |ms| && Migrate([], ms, fails).Some?
    ensures Migrate([], ms[..n], fails) == Some(AllActions(ms[..n]))
    ensures Apply(AllActions(ms[..n]), AllActions(ms[n..]), fails) == Migrate([], ms, fails)
  {
    assert ms == ms[..n] + ms[n..];
    ActionsConcat(ms[..n], ms[n..]);
    DueFromNothing(ms);
    DueFromNothing(ms[..n]);
    ApplyConcat([], AllActions(ms[..n]), AllActions(ms[n..]), fails);
    FreshInstall(ms[..n], fails);
  }

  /** Upgrading in one step: from an older bundle to this one, or a rerun of an older bundle. */
  lemma UpgradeIsFreshInstall(ms: seq<Migration>, n: nat, m: nat, fails: (Log, Action) -> bool)
    requires Increasing(ms) && n <= |ms| && m <= |ms| && Migrate([], ms, fails).Some?
    ensures Migrate(AllActions(ms[..n]), ms[..m], fails) == Some(AllActions(ms[..if n <= m then m else n]))
  {
    var log := AllActions(ms[..n]);
    LatestOfJournal(ms[..n]);
    if n <= m {
      DueAfter(ms[..m], n, Latest(log));
      PrefixInstalls(ms, m, fails);
      PrefixInstalls(ms[..m], n, fails);
      assert ms[..m][..n] == ms[..n];
    } else {
      DueAfter(ms[..m], m, Latest(log));
      assert ms[..m][m..] == [];
    }
  }

  /** Bundles of these sizes run one after the other. */
  function RunBundles(log: Log, ms: seq<Migration>, sizes: seq<nat>, fails: (Log, Action) -> bool): Option<Log>
    requires forall i :: 0 <= i < |sizes| ==> sizes[i] <= |ms|
    decreases |sizes|
  {
    if sizes == [] then Some(log)
    else match Migrate(log, ms[..sizes[0]], fails)
      case Some(next) => RunBundles(next, ms, sizes[1..], fails)
      case None => None
  }

  function Newest(sizes: seq<nat>, least: nat): (n: nat)
    ensures n >= least && (n == least || n in sizes) && forall i :: 0 <= i < |sizes| ==> sizes[i] <= n
  {
    if sizes == [] then least else Newest(sizes[1..], if sizes[0] < least then least else sizes[0])
  }

  /** Path independence: whatever versions of the application ran in whatever order, the database
      is the one the newest of them would have made alone. */
  lemma {:induction false} PathIndependent(ms: seq<Migration>, n: nat, sizes: seq<nat>, fails: (Log, Action) -> bool)
    requires Increasing(ms) && n <= |ms| && Migrate([], ms, fails).Some?
    requires forall i :: 0 <= i < |sizes| ==> sizes[i] <= |ms|
    ensures RunBundles(AllActions(ms[..n]), ms, sizes, fails) == Some(AllActions(ms[..Newest(sizes, n)]))
    decreases |sizes|
  {
    if sizes != [] {
      UpgradeIsFreshInstall(ms, n, sizes[0], fails);
      PathIndependent(ms, if sizes[0] < n then n else sizes[0], sizes[1..], fails);
    }
  }

  ghost predicate UpgradesAgree(ms: seq<Migration>, fails: (Log, Action) -> bool) {
    forall n :: 0 <= n <= |ms| ==> UpgradeAgrees(ms, n, fails)
  }

  ghost predicate UpgradeAgrees(ms: seq<Migration>, n: nat, fails: (Log, Action) -> bool)
    requires n <= |ms|
  {
    Migrate(AllActions(ms[..n]), ms, fails) == Migrate([], ms, fails)
  }

  lemma EqualOrEarlierIsSkipped(ms: seq<Migration>, i: nat, j: nat, fails: (Log, Action) -> bool)
    requires i < j < |ms| && ms[i].createdAt >= ms[j].createdAt && Migrate([], ms, fails).Some?
    ensures !UpgradeAgrees(ms, j, fails)
  {
    var log := AllActions(ms[..j]);
    var latest := Latest(log);
    LatestIsRecorded(ms[..j], i);
    var due := Due(ms, latest);
    forall k | 0 <= k < j ensures Skipped(latest, ms[k]) { LatestIsRecorded(ms[..j], k); }
    FreshInstall(ms, fails);
    if Migrate(log, ms, fails).Some? {
      ApplyAppends(log, AllActions(due), fails);
      RecordsOfActions(ms[..j]);
      RecordsOfActions(ms);
      RecordsOfActions(due);
      RecordsConcat(log, AllActions(due));
      assert ms == ms[..j] + ms[j..];
      DueDrops(ms[..j], ms[j..], latest);
      DueLength(ms[j..], latest, 0);
    }
  }

  function Records(log: Log): nat {
    if log == [] then 0 else (if log[0].Record? then 1 else 0) + Records(log[1..])
  }

  lemma {:induction false} RecordsConcat(a: Log, b: Log)
    ensures Records(a + b) == Records(a) + Records(b)
  {
    if a == [] {
      assert a + b == b;
    } else {
      assert (a + b)[1..] == a[1..] + b;
      RecordsConcat(a[1..], b);
    }
  }

  lemma {:induction false} NoRecords(log: Log)
    requires forall a :: a in log ==> !a.Record?
    ensures Records(log) == 0
  {
    if log != [] { NoRecords(log[1..]); }
  }

  lemma {:induction false} RecordsOfActions(ms: seq<Migration>)
    ensures Records(AllActions(ms)) == |ms|
  {
    if ms != [] {
      var m := ms[0];
      var data := if m.index in DATA_MIGRATIONS then [DataMigration(m.index)] else [];
      StatementsAreNotRecords(m.statements);
      NoRecords(Statements(m.statements) + data);
      RecordsConcat(Statements(m.statements) + data, [Record(m.createdAt)]);
      RecordsConcat(Actions(m), AllActions(ms[1..]));
      RecordsOfActions(ms[1..]);
    }
  }

  lemma {:induction false} DueDrops(a: seq<Migration>, b: seq<Migration>, latest: Option<int>)
    requires forall k :: 0 <= k < |a| ==> Skipped(latest, a[k])
    ensures Due(a + b, latest) == Due(b, latest)
  {
    if a == [] {
      assert a + b == b;
    } else {
      assert (a + b)[1..] == a[1..] + b;
      DueDrops(a[1..], b, latest);
    }
  }

  /** Strictly increasing timestamps are exactly what upgrading needs: with two entries out of
      order, or two alike, some upgrade skips the later one for good. */
  lemma UpgradesAgreeExactlyWhenIncreasing(ms: seq<Migration>, fails: (Log, Action) -> bool)
    requires Migrate([], ms, fails).Some?
    ensures UpgradesAgree(ms, fails) <==> Increasing(ms)
  {
    if Increasing(ms) {
      FreshInstall(ms, fails);
      assert ms[..|ms|] == ms;
      forall n | 0 <= n <= |ms| ensures UpgradeAgrees(ms, n, fails) {
        UpgradeIsFreshInstall(ms, n, |ms|, fails);
      }
    } else {
      var i, j :| 0 <= i < j < |ms| && ms[i].createdAt >= ms[j].createdAt;
      EqualOrEarlierIsSkipped(ms, i, j, fails);
    }
  }

  lemma DueHead(ms: seq<Migration>, i: nat, latest: Option<int>)
    requires i < |ms| && !Skipped(latest, ms[i])
    ensures AllActions(Due(ms[i..], latest)) == Actions(ms[i]) + AllActions(Due(ms[i + 1..], latest))
  {
    assert ms[i..][1..] == ms[i + 1..];
    var rest := Due(ms[i + 1..], latest);
    assert Due(ms[i..], latest) == [ms[i]] + rest;
    assert ([ms[i]] + rest)[1..] == rest;
  }

  // ----- the function that runs it

  class Database {
    var log: Log

    constructor ()
      ensures log == []
    {
      log := [];
    }

    /** One statement of the transaction. */
    method Perform(action: Action, fails: (Log, Action) -> bool) returns (ok: bool)
      modifies this
      ensures ok == !fails(old(log), action)
      ensures log == if ok then old(log) + [action] else old(log)
    {
      ok := !fails(log, action);
      if ok { log := log + [action]; }
    }

    method PerformAll(statements: seq<string>, fails: (Log, Action) -> bool) returns (ok: bool)
      modifies this
      ensures ok <==> Apply(old(log), Statements(statements), fails).Some?
      ensures ok ==> log == Apply(old(log), Statements(statements), fails).value
    {
      var i := 0;
      while i < |statements|
        invariant 0 <= i <= |statements|
        invariant Apply(old(log), Statements(statements), fails) == Apply(log, Statements(statements[i..]), fails)
      {
        assert statements[i..][1..] == statements[i + 1..];
        ok := Perform(Statement(statements[i]), fails);
        if !ok { return false; }
        i := i + 1;
      }
      return true;
    }

    method PerformMigration(m: Migration, fails: (Log, Action) -> bool) returns (ok: bool)
      modifies this
      ensures ok <==> Apply(old(log), Actions(m), fails).Some?
      ensures ok ==> log == Apply(old(log), Actions(m), fails).value
    {
      ghost var data := if m.index in DATA_MIGRATIONS then [DataMigration(m.index)] else [];
      ApplyConcat(log, Statements(m.statements) + data, [Record(m.createdAt)], fails);
      ApplyConcat(log, Statements(m.statements), data, fails);
      ok := PerformAll(m.statements, fails);
      if !ok { return; }
      if m.index in DATA_MIGRATIONS {
        ok := Perform(DataMigration(m.index), fails);
        if !ok { return; }
      }
      ok := Perform(Record(m.createdAt), fails);
    }

    /** The whole run in one transaction: it leaves the database migrated or untouched. */
    method MigrateDatabase(entries: seq<Entry>, sources: map<nat, seq<string>>, fails: (Log, Action) -> bool)
        returns (ok: bool)
      modifies this
      ensures ok <==> Load(entries, sources).Some? && Migrate(old(log), Load(entries, sources).value, fails).Some?
      ensures ok ==> Migrate(old(log), Load(entries, sources).value, fails) == Some(log)
      ensures !ok ==> log == old(log)
    {
      var loaded := Load(entries, sources);
      if loaded.None? { return false; }
      var ms := loaded.value;
      var before := log;
      var latest := Latest(log);
      ghost var all := AllActions(Due(ms, latest));
      var i := 0;
      while i < |ms|
        invariant 0 <= i <= |ms|
        invariant Apply(before, all, fails) == Apply(log, AllActions(Due(ms[i..], latest)), fails)
      {
        assert Skipped(latest, ms[i]) ==> Due(ms[i..], latest) == Due(ms[i + 1..], latest) by {
          assert ms[i..][1..] == ms[i + 1..];
        }
        if !Skipped(latest, ms[i]) {
          DueHead(ms, i, latest);
          ApplyConcat(log, Actions(ms[i]), AllActions(Due(ms[i + 1..], latest)), fails);
          ok := PerformMigration(ms[i], fails);
          if !ok {
            log := before;
            return;
          }
        }
        i := i + 1;
      }
      return true;
    }
  }
}
