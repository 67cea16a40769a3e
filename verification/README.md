# Formal model of PsstPsst's stateful engines

A Dafny model of the parts of PsstPsst whose correctness is a statement about every run: the
paginated message history, the desktop database broker, the Noise session layer, the codecs
around them, and the small asynchronous machines that keep views, timers, drafts, preferences
and messaging keys in step with a database, an operating system or a set of relays.
`dafny verify dfyconfig.toml` checks the whole project.

## How it is built

Each engine is written twice. A machine of small pure step functions says what one event does, and
lemmas about runs of that machine state the properties. Beside it stands the imperative form of the
source, a class with the source's fields or a method with the source's loop, and every method is
proved equal to the machine's step. Where a reference definition exists that does not mention the
implementation, the lemmas connect to it: the sequential replay of committed work, the one-shot
codec, the per-character rule of a standard, the set of surviving rows.

| files | engine |
|---|---|
| MessageOrder, MessageWindow, MessageTable | message order, the merge of cursor pages, keyset queries |
| AnchorWindow, AnchorScrolling | the window around a jump target, and what scrolling in it shows |
| TailRecovery, TailHoles, TailOrder, TailScrolling, TailHistory | the live tail, recovery of bursts, holes and order of the shown list |
| DatabaseWorker, DatabaseBroker, DatabaseService | SQLite connection, gate and transactions, reference trace |
| BrokerProofs, BrokerTheorems, BrokerGate, BrokerOrder, BrokerFate | what every run of the broker keeps, announcements and batches, the gate, closing order, lost statements and departed owners |
| NoiseRecord, NoiseSession, NoiseWorker | record header, two endpoints over an adversarial network, the worker's maps |
| Base64, NappletBytes | RFC 4648 base64 and its sliced form |
| PercentEncoding, PercentDecoding, FormUrlEncoded | UTF-8 percent encoding, the texts the decoder accepts, and the query-string list |
| GeneratedBlock | the generated block in a Gradle file |
| LiveQuery, Migrations | rerun coalescing, schema migration |
| DeadlineScheduler, BackgroundDeadlineScheduler | deadlines backed by one native alarm |
| Drafts, UpdatePreferences, KeyReconciliation | write-behind drafts, optimistic preferences, key announcements |
| Wrappers | optional value, byte, white space, sequence facts |

## Assumptions

- Messages arrive at the newest end of a conversation; none is deleted, backdated or rewritten.
- A state update of a component and the effect that follows it are one step.
- Ids that callers of the broker draw are new. The theorems of BrokerProofs and BrokerTheorems ask that
  open transactions close innermost first and that no COMMIT fails; `BrokerOrder.FollowsReplayExactlyWhenInnermostFirst`
  shows that this is exactly what the sequential execution needs. A transaction may run statements and
  begin children while its children are open. The callback shape of `src/platform/create-async-database.ts:22-27`
  makes a transaction finish after its own children, but lets two children of one root overlap.
- The cipher of a Noise session is ideal: decryption returns only what the peer encrypted under the
  same counter and header. The two endpoints hold the two halves of one handshake.
- The draft writes of one device reach its table in order and succeed.
- A device reads the key announcement and acts on it in one step; what happens otherwise is a lemma.

## What the code does not do

Properties one might expect and the code does not have. Each is a lemma with the exact condition or
with the run that shows it.

- A first load that fails marks its window loaded and empty for good (`AnchorWindow.FailedLoadIsFinal`).
- A burst of more than 15 messages leaves the shown tail out of order, because the rows that left the
  page are put before the newer rows of the burst (`TailOrder.OrderedExactlyAfterShortBurst`).
- A superseded or failed gap recovery leaves a hole after every burst of more than one fetch
  (`TailHoles.AbandonedRecoveryLeavesHole`).
- Two overlapping children of one transaction, each finished after its own children, can keep what was
  rolled back (`BrokerOrder.OverlappingChildrenLoseARollback`, `FinishOrderMatters`).
- A batch that fails part-way in a surviving transaction, a COMMIT that fails, a parent statement beside
  an open child and a waiting begin of a departed owner all escape the broker's bookkeeping
  (`BrokerTheorems.AnnouncedExactlyWhenChanged`, `PartialBatchGoesUnannounced`,
  `BrokerFate.FailedCommitLeavesConnectionOpen`, `SurvivesExactlyWhenEverySavepointIsReleased`,
  `CleanedUpOwnerHoldsAgainExactlyWhenItWaits`).
- A live query does not notice named changes of joined tables, or of the tables under a view
  (`LiveQuery.AlwaysCurrentExactlyWhenCovered`).
- Base64 text with padding before an inner slice end is accepted (`NappletBytes.PaddedSliceIsAccepted`).
- `set` moves an existing name to the end of the list; the WHATWG URL Standard keeps its place
  (`FormUrlEncoded.SetIsStandardExactlyWhenLast`).
- A pulse that overtakes a native write can leave an alarm nobody wants, never a missing one
  (`DeadlineScheduler.PulseLeavesStaleDeadline`, `DeadlineIsArmed`).
- Switching accounts back within the debounce time, or loading an account twice, shows an old draft
  (`Drafts.StepAgreesExactlyWhenCurrent`, `QuickSwitchShowsOldDraft`, `SecondLoadDropsTheText`).
- A preference whose save failed is written by a save queued behind it
  (`UpdatePreferencesModel.FailedSaveIsWrittenExactlyWhenAnotherWaits`).
- The comment at `src/stores/active-account.store.ts:563-566` says the key list never drops a key; the vault
  keeps ten (`src/platform/vault/local-vault.ts:138`), and the model follows the vault
  (`KeyReconciliation.CurrentSurvivesNine`). The only holder of the announced key strands the others by
  forgetting the account, or by a rotation interrupted with a full list (`HeldExactlyUnlessStranded`).

## Model

| member | source | states |
|---|---|---|
| `MessageOrder.HexOrderIsNumericOrder` | src/lib/nostr/message-order.ts:15-23 | the string order of two lower-case hexadecimal ids of equal length is the order of their numeric values, which is why the models may number ids |
| `MessageWindow.MergeNewestFirstRows` | src/lib/message-window.ts:19-47 | the loop terminates and returns the specified merge, for all inputs |
| `MessageWindow.MergeIsWindowOfSurvivors` | src/lib/message-window.ts:19-47 | merging two newest-first, duplicate-free lists gives such a list, holding exactly the rows that survive: a right-hand copy wins unless the left holds a newer copy of its id |
| `MessageWindow.WindowIsUnique` | src/lib/message-window.ts:18-47 | a newest-first duplicate-free list is determined by its rows, so the members fix the merge |
| `MessageWindow.MergeFromIds` | src/lib/message-window.ts:28-46 | on any input, sorted or not, the merge loop never pushes an id twice and loses none |
| `MessageWindow.MergeIds` | src/lib/message-window.ts:23-46 | the ids of a merge are the union; it is duplicate-free except where the early return hands back a list that was not |
| `MessageWindow.MergeIdempotent` | src/lib/message-window.ts:19-47 | merging a list with itself changes nothing |
| `MessageWindow.MergeAssociative` | src/lib/message-window.ts:19-47 | merging is associative, rows and order included |
| `MessageWindow.MergeAppends` | src/hooks/use-messages.ts:864-891 | merging a page directly below a list appends it |
| `MessageWindow.MergePrepends` | src/hooks/use-messages.ts:888-894 | merging a page directly above a list prepends it |
| `MessageWindow.MergeOldestFirstDual` | src/hooks/use-messages.ts:873-894 | the twice-reversed merge of the newer side keeps the oldest-first dual and the same surviving rows |
| `MessageTable.WhereIs` | src/hooks/use-messages.ts:508-519 | a keyset query has one possible result: the newest-first list of the matching rows |
| `AnchorWindow.PageFollowsCursor` | src/hooks/use-messages.ts:837-856 | the query from the last loaded row returns the rows that follow it, at most one fetch plus one |
| `AnchorWindow.GrowthExtendsRows` | src/hooks/use-messages.ts:499-506 | a message arriving at the newest end leaves the older side as it is and adds one row at the far end of the newer side |
| `AnchorWindow.ArriveAppends` | src/hooks/use-messages.ts:857-892 | an arriving page goes behind what is loaded, and what is released to the list is its next slice |
| `AnchorWindow.StepKeepsInv` | src/hooks/use-messages.ts:479-908 | every event keeps the window invariant |
| `AnchorWindow.RunKeepsInv` | src/hooks/use-messages.ts:479-1076 | so does every run, whatever the interleaving of loads, prefetches, releases, failures and arriving messages |
| `AnchorWindow.LoadedIsPrefix` | src/hooks/use-messages.ts:807-908 | on both sides rows and buffer together are a prefix of the rows on that side of the anchor, and a request in flight carries the last loaded row |
| `AnchorWindow.TableIsBothSides` | src/hooks/use-messages.ts:499-506 | the two initial conditions split the conversation with nothing lost or doubled |
| `AnchorWindow.ShownIsSlice` | src/hooks/use-messages.ts:751-758 | the shown list is one contiguous, duplicate-free slice of the conversation |
| `AnchorWindow.HasMoreIsExact` | src/hooks/use-messages.ts:781-789 | once loading succeeded, a side claims more exactly when rows are left on it: always for the older side, on an unchanged table for the newer |
| `AnchorWindow.HasMoreIsSound` | src/hooks/use-messages.ts:781-789 | while messages keep arriving a claim of more is never false |
| `AnchorWindow.AnchorIsShown` | src/hooks/use-messages.ts:527-541 | once loaded, the anchor row is the first row of the older side |
| `AnchorScrolling.ScrollingMakesProgress` | src/hooks/use-messages.ts:807-1076 | asking for more on a side that claims more shows more rows once its page is there, whatever happens meanwhile: background requests, arriving messages, more asking, anything on the other side |
| `AnchorScrolling.RevealStaysOn` | src/hooks/use-messages.ts:825-833 | a reveal the user waits for is ended by nothing but the page or its failure, least of all by a background request |
| `AnchorScrolling.ListMovesOnlyWhenAsked` | src/hooks/use-messages.ts:857-892 | until somebody asks to see more of a side, no run changes what it shows: pages go to the buffer and no request of the effect turns the reveal on |
| `AnchorScrolling.ListOnlyGrows` | src/hooks/use-messages.ts:807-1076 | no run takes a shown row away |
| `AnchorScrolling.JumpLoadsBothSides` | src/hooks/use-messages.ts:479-541 | the first load shows the ten rows nearest the target on each side, buffers the rest of one fetch, and claims more exactly where there is more |
| `AnchorScrolling.CancelledLoadCanRestart` | src/hooks/use-messages.ts:562-571 | a cancelled load leaves the window as free to load as before |
| `AnchorScrolling.ArrivalIsSeenByTheNextQuery` | src/hooks/use-messages.ts:499-506 | a message that arrives is the last row of the next query of the newer side, and in no query of the older one |
| `AnchorScrolling.FailedPageWaitsForTheUser` | src/hooks/use-messages.ts:917-931 | after a failed page the prefetch effect leaves the side alone, in every run without scrolling |
| `AnchorScrolling.ScrollRetries` | src/hooks/use-messages.ts:842-847 | with an empty buffer the next scroll then asks again and clears the mark |
| `AnchorScrolling.SuccessClearsFailure` | src/hooks/use-messages.ts:893-900 | a page that comes clears the mark, and the effect fills the buffer on while the side claims more and holds at most 30 |
| `AnchorScrolling.PrefetchAsks` | src/hooks/use-messages.ts:917-931 | whenever the effect wants a prefetch on a live side, its request starts one behind the last loaded row |
| `AnchorWindow.FailedLoadIsStuck` | src/hooks/use-messages.ts:542-561 | a failed first load leaves both sides empty, claiming more, with no request in flight |
| `AnchorWindow.FailedLoadIsFinal` | src/hooks/use-messages.ts:482-482 | and no later event loads a row into that window or withdraws the claim |
| `AnchorWindow.LaterPageLeavesGap` | src/hooks/use-messages.ts:830-833 | a page read from any row beyond the last loaded one always leaves a hole, so the cursor choice is necessary |
| `AnchorWindow.AnchorHistory.constructor` | src/hooks/use-messages.ts:398-398 | a new session starts without windows |
| `AnchorWindow.AnchorHistory.BeginLoad` | src/hooks/use-messages.ts:479-497 | starts a load unless the window is loaded or loading; changes only that window |
| `AnchorWindow.AnchorHistory.FinishLoad` | src/hooks/use-messages.ts:520-541 | the window is loaded with the first fetch of each side; on results read from the rows of a side, that side satisfies the window invariant |
| `AnchorWindow.AnchorHistory.FailLoad` | src/hooks/use-messages.ts:542-561 | the window counts as loaded, keeps the rows it held and has no request in flight; a window that was loading for the first time is stuck for good |
| `AnchorWindow.AnchorHistory.CancelLoad` | src/hooks/use-messages.ts:562-571 | a window not yet loaded is free to start loading again, a loaded one is untouched, and no rows are lost |
| `AnchorWindow.AnchorHistory.RequestAnchorHistory` | src/hooks/use-messages.ts:807-840 | asks behind the last loaded row, once at a time and only while more is claimed; while one is in flight it only ever turns the reveal on |
| `AnchorWindow.AnchorHistory.PageArrived` | src/hooks/use-messages.ts:857-900 | merges, releases and buffers the page as `Arrive` does, whose effect is `ArriveAppends`; other windows are untouched |
| `AnchorWindow.AnchorHistory.PageFailed` | src/hooks/use-messages.ts:901-908 | the side keeps its rows and the window invariant without a request, and asks again exactly when it claims more |
| `AnchorWindow.AnchorHistory.LoadPage` | src/hooks/use-messages.ts:1024-1076 | loadOlder and loadNewer: release from the buffer, or ask |
| `TailRecovery.CollectRowsToExpose` | src/hooks/use-messages.ts:582-607 | the two loops compute the rows the effect adds to the history: those that left the page, then those of the burst past it |
| `TailRecovery.RecoverGap` | src/hooks/use-messages.ts:608-640 | the recovery loop terminates and returns every row strictly between its cursor and the previously newest row, although the table grows between its trips |
| `TailRecovery.NextGapPage` | src/hooks/use-messages.ts:637-637 | moving the cursor to the last row of a page leaves exactly the rows after it to read |
| `TailRecovery.GrowthKeepsGap` | src/hooks/use-messages.ts:616-631 | messages arriving at the newest end never fall into the gap being read |
| `TailRecovery.LiveKeepsInv` | src/hooks/use-messages.ts:582-661 | a live result keeps the tail invariant, for a burst of any size |
| `TailRecovery.StepKeepsInv` | src/hooks/use-messages.ts:582-1050 | so does every other step, a rerun of the effect on an old live result included |
| `TailRecovery.RunKeepsInv` | src/hooks/use-messages.ts:582-1050 | and every run |
| `TailHoles.TailHasNoHole` | src/hooks/use-messages.ts:582-652 | in every run the list has a hole exactly when a row is missing that a recovery is still to show, or that an abandoned one left behind and no later page has shown |
| `TailHoles.OnlyPendingIsMissing` | src/hooks/use-messages.ts:608-652 | while a recovery is pending and nothing left behind is unshown, only the rows it will still add are missing |
| `TailRecovery.NoMoreMeansAllLoaded` | src/hooks/use-messages.ts:660-660 | when the flag says there is no more, every row is shown, buffered or being recovered |
| `TailRecovery.RecoveryFinishes` | src/hooks/use-messages.ts:613-644 | left alone, a recovery finishes after finitely many pages and adds exactly the rows of the gap |
| `TailHoles.RunKeepsHolesInside` | src/hooks/use-messages.ts:582-1050 | in every run, below each row that is missing a row is shown |
| `TailHoles.AbandonKeepsTheHole` | src/hooks/use-messages.ts:613-645 | abandoning a recovery at any moment leaves a hole exactly when a row it was to show is not shown by then |
| `TailHoles.AbandonedRecoveryLeavesHole` | src/hooks/use-messages.ts:632-645 | from any complete list, a live result whose recovery is superseded or fails leaves a hole exactly when its burst exceeds one fetch of 60 |
| `TailRecovery.RerunKeepsInv` | src/hooks/use-messages.ts:582-670 | running the effect again on the last live result, after the table grew, keeps the invariant and what is pending |
| `TailRecovery.OlderPageReadEarly` | src/hooks/use-messages.ts:958-968 | a page of older rows is the same whenever it is read between its request and its arrival |
| `TailScrolling.ScrollingShowsTheNextRows` | src/hooks/use-messages.ts:933-1055 | scrolling up with an empty buffer: when its page has come, the 15 rows below the last shown row are shown, or all there are, whatever arrived, was asked or was recovered meanwhile |
| `TailScrolling.AskingStartsAQuery` | src/hooks/use-messages.ts:933-968 | with a claim of more and a row to continue from, asking always leaves a query under way: the one before, or one behind the last row |
| `TailScrolling.AwaitedPageShows` | src/hooks/use-messages.ts:968-990 | through any events, live results included, the query and the reveal stay, and the page shows the first rows of the buffer it extends |
| `TailScrolling.UnawaitedPageIsBuffered` | src/hooks/use-messages.ts:974-990 | a page nobody waits for shows nothing and is buffered whole |
| `TailScrolling.RevealAlwaysHasItsPage` | src/hooks/use-messages.ts:933-957 | in every run a reveal waits only while a page is on its way; none is left over for a later page |
| `TailScrolling.ListMovesOnlyWhenAsked` | src/hooks/use-messages.ts:974-990 | until somebody scrolls, only new and recovered messages change what is shown |
| `TailScrolling.ListOnlyGrows` | src/hooks/use-messages.ts:582-1050 | no run takes a shown row away |
| `TailOrder.OrderedExactlyAfterShortBurst` | src/hooks/use-messages.ts:590-605 | a live result leaves the shown list newest-first exactly when its burst fits one page of 15 |
| `TailOrder.ShortBurstsStayInOrder` | src/hooks/use-messages.ts:582-661 | as long as bursts fit one page the list is always newest-first and without holes |
| `TailHistoryClass.TailHistory.OnLiveResult` | src/hooks/use-messages.ts:582-661 | the effect on the tail refs: the loops, the recovery it starts and the buffers give `AfterLiveResult`, and the tail invariant is kept |
| `TailHistoryClass.TailHistory.OnRerun` | src/hooks/use-messages.ts:582-670 | the same effect on the result it has already seen; the invariant is kept |
| `TailHistoryClass.TailHistory.OnGapPage` | src/hooks/use-messages.ts:614-644 | one trip of the recovery: rows move from unread to recovered, the last page shows them, and the invariant is kept |
| `TailHistoryClass.TailHistory.PrefetchTailHistory` | src/hooks/use-messages.ts:933-968 | with a claim of more and a row to continue from, leaves a query under way and turns the reveal on when asked; the invariant is kept |
| `TailHistoryClass.TailHistory.PageArrived` | src/hooks/use-messages.ts:968-1000 | the arriving page goes behind the buffer, a waiting reveal shows its first rows, and the invariant is kept |
| `TailHistoryClass.TailHistory.LoadOlder` | src/hooks/use-messages.ts:1037-1055 | releases a slice of the buffer; with an empty one and a claim of more, leaves the user waiting for a page; the invariant is kept |
| `DatabaseWorker.Connection.Run` | desktop/database-worker.ts:76-83 | a statement joins the open transaction, or becomes durable at once |
| `DatabaseWorker.Connection.BeginImmediate` | desktop/database-worker.ts:84-86 | begins, or fails inside an open transaction |
| `DatabaseWorker.Connection.CommitAll` | desktop/database-worker.ts:87-89 | makes the whole transaction durable, open savepoints included |
| `DatabaseWorker.Connection.RollbackAll` | desktop/database-worker.ts:90-92 | drops the transaction |
| `DatabaseWorker.Connection.SetSavepoint` | desktop/database-worker.ts:93-95 | pushes the current contents under a name |
| `DatabaseWorker.Connection.ReleaseSavepoint` | desktop/database-worker.ts:96-98 | drops the named savepoint and those above it, keeping their statements |
| `DatabaseWorker.Connection.RollbackToSavepoint` | desktop/database-worker.ts:99-103 | restores the contents of the named savepoint and removes it |
| `BrokerProofs.StepKeepsInv` | desktop/database-service.ts:91-273 | while transactions close innermost first, every step keeps gate, records, savepoint stack and connection in agreement with the reference; statements and children may run beside open children |
| `BrokerProofs.RunKeepsInv` | desktop/database-service.ts:91-273 | so does every such run |
| `BrokerTheorems.DurableIsSequential` | desktop/database-service.ts:91-242 | the durable database is the sequential execution, in gate order, of autocommit statements and committed roots without what was rolled back; each due announcement was made once |
| `BrokerTheorems.AutocommitIsIsolated` | desktop/database-service.ts:130-144 | an ungated statement only runs when nothing is open, becomes durable alone, and gives up the gate whether or not it fails |
| `BrokerTheorems.ForeignCallsAreRefused` | desktop/database-service.ts:101-107 | a call naming a transaction that is not the caller's changes nothing |
| `BrokerTheorems.CommitAnnounces` | desktop/database-service.ts:218-227 | a root commit announces a change exactly when a mutating statement ran in it or in a descendant whose whole chain committed |
| `BrokerTheorems.AnnouncedExactlyWhenChanged` | desktop/database-service.ts:120-129 | a root commit is announced exactly when it adds a mutating statement to the database, if and only if its account agrees with what ran under its savepoints; when that is the same, if and only if something completed is noted or no failed batch left rows behind |
| `BrokerTheorems.SequentialRunsKeepAccounts` | desktop/database-service.ts:120-228 | the two are the same in every run where only the innermost transaction works |
| `BrokerTheorems.NotedOrSwallowed` | desktop/database-service.ts:210-216 | what is noted changed the database, and an unnoted change is the rest of a failed batch, whatever was rolled back around it |
| `BrokerTheorems.BatchIsAllOrNothing` | desktop/database-service.ts:178-186 | whatever other callers do between its calls, a top-level batch ends with all of its rows and one announcement, or with none of either |
| `BrokerTheorems.CleanupEndsBatch` | desktop/database-service.ts:262-273 | cleaning the owner up in mid-batch leaves none of its rows, announces nothing, and what it still calls for that batch is refused |
| `BrokerTheorems.PartialBatchGoesUnannounced` | desktop/database-service.ts:172-177 | a batch failing part-way in a transaction that goes on changes the database without an announcement |
| `BrokerTheorems.SilentHolderBlocksEveryone` | desktop/database-service.ts:91-99 | while an owner holds the gate and is silent nobody else's call reaches the database |
| `BrokerGate.FirstComeFirstServed` | desktop/database-service.ts:91-99 | in every run a waiting call is at the head of the gate exactly while the number of turns ended equals the number of calls that were before it, whichever of them failed |
| `BrokerGate.GatePassesOnExactlyWhenSettled` | desktop/database-service.ts:130-242 | the gate passes on exactly when its call has run or failed, BEGIN failed, or its root was committed, with or without success, rolled back or cleaned up |
| `BrokerGate.AutocommitAlwaysReleases` | desktop/database-service.ts:130-144 | a failing statement, too, gives up the gate, and a root waiting behind it then holds it |
| `BrokerOrder.FollowsReplayExactlyWhenInnermostFirst` | desktop/database-service.ts:188-242 | for every run with new ids: durable contents, open view and savepoints equal the sequential execution throughout exactly when every transaction closed innermost first and no COMMIT failed |
| `BrokerOrder.SavepointsStandExactlyWhenInnermost` | desktop/database-service.ts:208-242 | closing a nested transaction leaves every other open transaction its savepoint exactly when it is the innermost |
| `BrokerOrder.FinishOrderMatters` | desktop/database-service.ts:208-242 | finishing a transaction before the one opened last swallows the savepoint of the latter, whose rollback then undoes nothing; the two orders agree exactly when nothing ran under it |
| `BrokerOrder.OverlappingChildrenLoseARollback` | desktop/database-service.ts:188-242 | two overlapping children of one root, each finished after its own children, where the rolled-back one keeps its statement |
| `BrokerFate.SurvivesExactlyWhenEverySavepointIsReleased` | desktop/database-service.ts:120-242 | at any depth, whichever open transaction runs a statement: it is in the database exactly when every savepoint open when it ran has been released, and gone exactly when one was rolled back |
| `BrokerFate.FailedCommitLeavesConnectionOpen` | desktop/database-service.ts:218-227 | a COMMIT that fails leaves the connection in the dead transaction: the next begin fails and the next autocommit is not durable |
| `BrokerFate.ParentStatementLostWithChild` | desktop/database-service.ts:120-129 | a parent's statement run while its child is open is undone with the child, though it may be announced |
| `BrokerFate.CleanedUpOwnerHoldsAgainExactlyWhenItWaits` | desktop/database-service.ts:262-273 | after its cleanup, and with no further begin, an owner can hold the gate again exactly when a begin of it waits anywhere in the queue |
| `DatabaseServiceClass.DatabaseService.Acquire` | desktop/database-service.ts:91-99 | joins the end of the gate |
| `DatabaseServiceClass.DatabaseService.RunAutocommit` | desktop/database-service.ts:130-144 | the statement runs on the connection once the gate is held, is announced if it mutates, and the gate is released whatever happens: the granted step of the broker |
| `DatabaseServiceClass.DatabaseService.BeginRoot` | desktop/database-service.ts:197-205 | opens and records the root at the head of the gate, or gives the gate back when BEGIN fails: the granted step of the broker |
| `DatabaseServiceClass.DatabaseService.ExecuteInTransaction` | desktop/database-service.ts:120-129 | refuses a foreign transaction; otherwise runs the statement and marks the record when it mutates |
| `DatabaseServiceClass.DatabaseService.RunBatchInTransaction` | desktop/database-service.ts:172-177 | runs the rows up to the first failure and marks the record only when all ran |
| `DatabaseServiceClass.DatabaseService.BeginNested` | desktop/database-service.ts:189-196 | opens a savepoint and records the child, or refuses a foreign parent |
| `DatabaseServiceClass.DatabaseService.CommitTransaction` | desktop/database-service.ts:208-228 | a child releases its savepoint and passes its mark to the parent; a root commits, announces when marked, and always leaves the gate |
| `DatabaseServiceClass.DatabaseService.RollbackTransaction` | desktop/database-service.ts:230-242 | a child restores its savepoint, a root drops everything and leaves the gate; the record goes either way |
| `DatabaseServiceClass.DatabaseService.CleanupOwner` | desktop/database-service.ts:262-273 | rolls back the owner's root, which frees the gate, and forgets all its records and nobody else's |
| `NoiseRecord.RecordTypes` | desktop/noise-record-types.ts:2-7 | the valid record types are these sixteen |
| `NoiseRecord.BigEndianRoundTrip` | desktop/noise-worker.ts:114-115 | a number that fits is read back from its big-endian bytes |
| `NoiseRecord.FromBigEndianRoundTrip` | desktop/noise-worker.ts:313-324 | bytes are written back from the number they read as |
| `NoiseRecord.HeaderFields` | desktop/noise-worker.ts:108-117 | each field of a written header is read back, for every 64-bit sequence and 32-bit length |
| `NoiseRecord.AcceptsExactlyEncoded` | desktop/noise-worker.ts:314-323 | open accepts a header exactly when encodeHeader writes those bytes for this session, sequence and a valid type |
| `NoiseRecord.EncodeHeader` | desktop/noise-worker.ts:108-117 | fills the 48 bytes field by field with `Header`, which `HeaderFields` reads back |
| `NoiseRecord.ConcatBytes` | desktop/noise-worker.ts:91-99 | the offset loop concatenates its arguments |
| `NoiseRecord.Equal` | desktop/noise-worker.ts:101-106 | the or-of-xors loop decides equality |
| `NoiseSession.RunKeepsInv` | desktop/noise-worker.ts:279-336 | every run of two endpoints and an arbitrary network keeps the session invariant |
| `NoiseSession.DeliveredIsPrefixOfSealed` | desktop/noise-worker.ts:301-336 | what open returned is always a prefix of what the peer sealed |
| `NoiseSession.OnlyNextRecordOpens` | desktop/noise-worker.ts:305-327 | any bytes but the next record of this session make open fail |
| `NoiseSession.OpenedIsNextSealed` | desktop/noise-worker.ts:301-331 | what open returns is the next sealed message |
| `NoiseSession.FailedOpenIsFinal` | desktop/noise-worker.ts:305-335 | after one record that open refuses, that end never delivers or seals again, whatever arrives |
| `NoiseSession.DestroyedIsFinal` | desktop/noise-worker.ts:81-89 | a destroyed end never delivers or seals again |
| `NoiseSession.BudgetsHold` | desktop/noise-worker.ts:125-142 | in every reachable session both counters equal the records exchanged, stay within 2^20 records and below 2^36 bytes |
| `NoiseSession.CountersAreFresh` | desktop/noise-worker.ts:288-291 | no two records of a direction share a header |
| `NoiseSession.AgedSessionEnds` | desktop/noise-worker.ts:134-142 | 24 hours after its start a session seals and opens nothing and is gone |
| `NoiseSession.SealSucceedsExactly` | desktop/noise-worker.ts:279-300 | in every reachable state, seal succeeds exactly when the session is younger than 24 hours, its records and bytes are not used up, and type and size are valid; otherwise nothing is sealed and the session is gone |
| `NoiseSession.OpenSucceedsExactly` | desktop/noise-worker.ts:301-336 | in every reachable state, open delivers exactly when the bytes are the next record the peer sealed, fit this end's limit, and the session is younger than 24 hours; otherwise nothing is delivered and the session is gone |
| `NoiseSession.RotationIsAdvisedExactly` | desktop/noise-worker.ts:261-278 | rotation is advised exactly when, five seconds later, sealing the bytes asked for, a second record, or opening a second one would meet an expiry |
| `NoiseSession.NoRotationMeansNoExpiry` | desktop/noise-worker.ts:261-278 | so, when it is not advised, sealing no more than asked within five seconds never meets an expiry |
| `NoiseSession.OpenUndoesSeal` | desktop/noise-worker.ts:279-331 | in lock-step, open returns the sealed type and payload and the record is payload plus 64 bytes |
| `NoiseWorkerClass.RolesAreComplementary` | desktop/noise-worker.ts:195-226 | each role writes exactly the messages its peer reads, in pattern order and once each, and as long as the counts agree the next write of one is the next read of the other |
| `NoiseWorkerClass.NoiseWorker.CreateHandshake` | desktop/noise-worker.ts:156-194 | issues a new handle |
| `NoiseWorkerClass.NoiseWorker.WriteHandshake` | desktop/noise-worker.ts:195-210 | allows exactly the next write of the role; one that throws leaves the counter |
| `NoiseWorkerClass.NoiseWorker.ReadHandshake` | desktop/noise-worker.ts:211-226 | allows exactly the next read of the role; one that throws leaves the counter |
| `NoiseWorkerClass.NoiseWorker.FinishHandshake` | desktop/noise-worker.ts:232-258 | turns the handshake into a fresh session, or refuses; the handshake is gone either way |
| `NoiseWorkerClass.NoiseWorker.DestroySession` | desktop/noise-worker.ts:81-89 | forgets the session and nothing else |
| `NoiseWorkerClass.NoiseWorker.SealRecord` | desktop/noise-worker.ts:279-300 | seals or destroys the session, and zeroes the payload in both cases |
| `NoiseWorkerClass.NoiseWorker.OpenRecord` | desktop/noise-worker.ts:301-336 | opens or destroys the session |
| `Base64.DecodeEncode` | src/platform/napplet-bytes.ts:27-27 | one-shot decoding inverts one-shot encoding (section 4 of RFC 4648) |
| `Base64.EncodeDecode` | src/platform/napplet-bytes.ts:14-14 | a string is accepted only if it is the encoding of the result |
| `Base64.EncodeConcat` | src/platform/napplet-bytes.ts:25-28 | encoding splits at any multiple of three bytes |
| `Base64.DecodeConcat` | src/platform/napplet-bytes.ts:12-15 | decoding splits at any group boundary not preceded by padding |
| `Base64.DecodedLength` | src/platform/napplet-bytes.ts:9-10 | the length of the result, from the length and the padding of the string |
| `NappletBytes.EncodeNappletBytes` | src/platform/napplet-bytes.ts:22-31 | the joined slices are the one-shot encoding, for every byte array |
| `NappletBytes.DecodeNappletBytes` | src/platform/napplet-bytes.ts:7-20 | a well-formed string gives exactly its bytes; any other result is the bytes of the slices and zeros; a write past the end needs a length that is not a multiple of four |
| `NappletBytes.DecodeIsCleanChunkedDecode` | src/platform/napplet-bytes.ts:12-18 | one-shot decoding is slice-by-slice decoding, less the strings with padding before an inner slice end |
| `NappletBytes.ResultLengthIsExact` | src/platform/napplet-bytes.ts:10-10 | the precomputed length has room for what the slices decode to, and is exact just when no inner slice is padded |
| `NappletBytes.NappletRoundTrip` | src/platform/napplet-bytes.ts:7-31 | decoding inverts encoding through the slices |
| `NappletBytes.PaddedSliceIsAccepted` | src/platform/napplet-bytes.ts:14-16 | a padded inner slice is accepted although one-shot decoding refuses it, and leaves zeros at the end |
| `PercentEncoding.ReplaceTriplet` | ios-notification-extension/bootstrap.js:69-69 | the search for %20 finds only whole triplets |
| `PercentEncoding.EncodeIsFormEncode` | ios-notification-extension/bootstrap.js:69-70 | encoding and rewriting the whole string is encoding each character by section 5.2 of the WHATWG URL Standard |
| `PercentEncoding.DecodeEncode` | ios-notification-extension/bootstrap.js:56-70 | decoding undoes encoding, for every well-formed string |
| `PercentDecoding.DecodesExactlyWhatIsSpelled` | ios-notification-extension/bootstrap.js:56-56 | the decoder accepts a text exactly when each character stands for itself or is given by the triplets of its UTF-8 bytes, digits in either case, and reads it as those characters |
| `PercentDecoding.PieceHasItsBytes` | ios-notification-extension/bootstrap.js:56-56 | no overlong form, surrogate or stray byte is read |
| `PercentDecoding.DecodesApart` | ios-notification-extension/bootstrap.js:54-57 | a text cut at a separator decodes exactly when both halves do |
| `PercentEncoding.EncodeIsPlain` | ios-notification-extension/bootstrap.js:69-70 | the printed text contains none of the separators |
| `FormUrlEncoded.ParsePrint` | ios-notification-extension/bootstrap.js:52-72 | parsing the printed list gives the list back, for every list |
| `FormUrlEncoded.ParseSearch` | ios-notification-extension/bootstrap.js:84-86 | so does re-reading searchParams after a change stored it in the URL |
| `FormUrlEncoded.PrintIsInjective` | ios-notification-extension/bootstrap.js:71-71 | two lists never print alike |
| `FormUrlEncoded.SetReplaces` | ios-notification-extension/bootstrap.js:61-63 | set leaves one value under the name, at the end, and every other name's entries as they were |
| `FormUrlEncoded.SetIsStandardExactlyWhenLast` | ios-notification-extension/bootstrap.js:61-61 | set gives the list of the WHATWG standard's set exactly when no entry of another name stands behind one under the name |
| `FormUrlEncoded.SetListsWhatTheStandardLists` | ios-notification-extension/bootstrap.js:61-61 | under every name the two list the same entries in the same order |
| `FormUrlEncoded.SetMovesTheEntry` | ios-notification-extension/bootstrap.js:61-61 | the two-entry list that they order differently |
| `FormUrlEncoded.SearchIsEmptyWithTheList` | ios-notification-extension/bootstrap.js:84-86 | the URL has a search part exactly when the list has an entry, and then it starts with the question mark |
| `FormUrlEncoded.UnitsAreInjective` | ios-notification-extension/bootstrap.js:64-67 | two names with the same code units are the same name |
| `FormUrlEncoded.NamesAreOrdered` | ios-notification-extension/bootstrap.js:64-67 | the sort leaves two entries alone exactly when they have one name: any two others are in order one way or the other |
| `FormUrlEncoded.SortIsStable` | ios-notification-extension/bootstrap.js:64-67 | sort orders the names by code units and keeps, under each name, the same entries in the same order |
| `FormUrlEncoded.URLSearchParams.Get` | ios-notification-extension/bootstrap.js:60-60 | the value of the first entry under the name, and none exactly when no entry has it |
| `FormUrlEncoded.URLSearchParams.Set` | ios-notification-extension/bootstrap.js:61-61 | afterwards get answers the value, the list is that of SetReplaces, and the stored search text parses to it |
| `FormUrlEncoded.URLSearchParams.Append` | ios-notification-extension/bootstrap.js:62-62 | the entry comes last under its name, every other name lists what it did, and the stored search text parses to the list |
| `FormUrlEncoded.URLSearchParams.Delete` | ios-notification-extension/bootstrap.js:63-63 | the loop keeps exactly the other names' entries, get answers nothing, and the stored search text parses to the list |
| `FormUrlEncoded.URLSearchParams.Sort` | ios-notification-extension/bootstrap.js:64-67 | afterwards the names are in code-unit order, each name lists the entries it did in the order it did, and the stored search text parses to the list |
| `FormUrlEncoded.URLSearchParams.ToString` | ios-notification-extension/bootstrap.js:68-72 | prints a text that parses to the list |
| `FormUrlEncoded.ParsesExactlyTheLegible` | ios-notification-extension/bootstrap.js:52-59 | the query parses exactly when all of its percent triplets spell characters, wherever its separators stand |
| `FormUrlEncoded.Create` | ios-notification-extension/bootstrap.js:52-59 | the constructor throws exactly when some triplet of the query does not spell a character, and otherwise holds the parsed list |
| `GeneratedBlock.LastUpdateWins` | plugins/with-android-release.js:43-53 | updating with one text and then another is updating with the other, for all contents; it fails for one exactly when it fails for the other |
| `GeneratedBlock.UpdateIsIdempotent` | plugins/with-android-release.js:43-53 | running the same update again changes nothing |
| `GeneratedBlock.TrimIsTheMiddle` | plugins/with-android-release.js:45-46 | trimming the text takes the white space off both ends and nothing else |
| `GeneratedBlock.BlockOfComment` | plugins/with-android-release.js:44-46 | for a marker written as a line comment the block is the trimmed text and the end marker of that name |
| `GeneratedBlock.OutsideIsPreserved` | plugins/with-android-release.js:48-52 | a replacement takes out the text from the first marker through the first end marker after it and nothing else |
| `LiveQuery.StepKeepsInv` | src/db/use-live-query.ts:118-160 | every event keeps the rerun invariant |
| `LiveQuery.NoChangeIsLost` | src/db/use-live-query.ts:118-151 | for such a query at most one read is in flight and one timer set, a repeat is only asked of a read in flight, and a relevant change the last read may have missed has a rerun coming |
| `LiveQuery.ShowsTheLastRead` | src/db/use-live-query.ts:136-143 | in every run the hook shows the outcome of its last read: rows and no error after a success, the error over the old rows after a failure, and nothing new after unmount |
| `LiveQuery.QuiescentIsCurrent` | src/db/use-live-query.ts:131-151 | at rest the last read began after every relevant change; the error shows exactly when it failed, and otherwise its rows do, with every relevant change in them |
| `LiveQuery.AlwaysCurrentExactlyWhenCovered` | src/db/use-live-query.ts:149-154 | every run rests on current rows exactly for queries without a name and for those over the one table of their name; a named change of a joined table, or of a table under a view, is missed |
| `LiveQuery.DebtShrinks` | src/db/use-live-query.ts:118-151 | every step but a new change pays off part of a bounded debt |
| `LiveQuery.ComesToRest` | src/db/use-live-query.ts:118-151 | so an active query stops within that many steps of the last change |
| `LiveQuery.NotQuiescentCanStep` | src/db/use-live-query.ts:118-151 | it rests exactly when no step is left |
| `LiveQuery.UnmountedStaysSilent` | src/db/use-live-query.ts:155-159 | after unmount nothing is read, no timer is set and nothing shown changes |
| `LiveQuery.Effect.constructor` | src/db/use-live-query.ts:111-151 | mounting starts the first read |
| `LiveQuery.Effect.ScheduleRerun` | src/db/use-live-query.ts:118-128 | an active effect has one rerun coming afterwards, however many changes asked for it |
| `LiveQuery.Effect.RunRead` | src/db/use-live-query.ts:129-136 | starts a read, or notes that the one in flight has to be repeated |
| `LiveQuery.Effect.OnTimer` | src/db/use-live-query.ts:123-127 | the timer callback; the rerun invariant is kept |
| `LiveQuery.Effect.OnChange` | src/db/use-live-query.ts:152-154 | the listener schedules for a change of its own table or of any; the rerun invariant is kept |
| `LiveQuery.Effect.OnSettled` | src/db/use-live-query.ts:136-148 | the settling of a read, its result or error shown while mounted and a repeat scheduled when asked; the rerun invariant is kept |
| `LiveQuery.Effect.CleanUp` | src/db/use-live-query.ts:155-159 | the cleanup, after which `UnmountedStaysSilent` applies; the rerun invariant is kept |
| `Migrations.FreshInstall` | src/db/use-live-query.ts:60-70 | on an empty database a run that succeeds performs every migration once, in journal order |
| `Migrations.FreshInstallRunsEverything` | src/db/use-live-query.ts:60-70 | read off its log: the statements of all entries in order, the data migrations of entries 61, 62, 71 and 77, and one record per entry |
| `Migrations.DataMigrationSeesItsSchema` | src/db/use-live-query.ts:62-66 | when a data migration runs, exactly the statements up to and including those of its own entry have run, and exactly the entries before it are recorded |
| `Migrations.AppliesExactlyWhenNothingFails` | src/db/use-live-query.ts:58-70 | a run goes through exactly when no action fails on the database it meets |
| `Migrations.LoadsExactlyWhenNothingIsMissing` | src/db/use-live-query.ts:35-43 | the bundle is read exactly when no journal entry misses its text, entry by entry in journal order |
| `Migrations.UpgradeIsFreshInstall` | src/db/use-live-query.ts:58-70 | with increasing timestamps, an upgrade from any older bundle gives the database of a fresh install, and a rerun changes nothing |
| `Migrations.PathIndependent` | src/db/use-live-query.ts:45-71 | whatever versions ran in whatever order, the database is the one the newest would have made alone |
| `Migrations.UpgradesAgreeExactlyWhenIncreasing` | src/db/use-live-query.ts:61-61 | every upgrade agrees with a fresh install if and only if the timestamps strictly increase |
| `Migrations.Database.PerformMigration` | src/db/use-live-query.ts:62-69 | one entry: statements, data migration, record, or failure |
| `Migrations.Database.MigrateDatabase` | src/db/use-live-query.ts:34-72 | the run leaves the database migrated as specified, or untouched |
| `DeadlineScheduler.EarliestIsMinimum` | src/lib/background-deadline.ts:56-61 | the loop computes the least pending deadline |
| `DeadlineScheduler.AtMostOnce` | src/lib/background-deadline.ts:23-28 | in every run a callback runs at most once, and never one that was cancelled |
| `DeadlineScheduler.NeverAfterCancel` | src/lib/background-deadline.ts:32-36 | after a call of the cancel function the callback does not run, however the run goes on |
| `DeadlineScheduler.PulseRunsWhatWasDue` | src/lib/background-deadline.ts:42-50 | a pulse runs only due work of its own snapshot and leaves none of it waiting |
| `DeadlineScheduler.NothingIsForgotten` | src/lib/background-deadline.ts:18-50 | every callback is pending, has run or was cancelled, and one due at a pulse has run or was cancelled when it ends |
| `DeadlineScheduler.StepKeepsInv` | src/lib/background-deadline.ts:18-72 | every event keeps the scheduler invariant |
| `DeadlineScheduler.DeadlineIsArmed` | src/lib/background-deadline.ts:54-72 | in the background the record is the least pending deadline, and once the write chain drains the native side holds it, in every order of events; in the foreground, or with nothing pending, no deadline is wanted |
| `DeadlineScheduler.NextUpdateRetries` | src/lib/background-deadline.ts:68-71 | a failed native write is made good by the next operation |
| `DeadlineScheduler.OnlySuccessfulWritesStore` | src/lib/background-deadline.ts:65-71 | the native side holds what the last successful write stored until it fires; a failed write stores nothing and withdraws the record exactly when the record is still what it tried to store |
| `DeadlineScheduler.ChainDrains` | src/lib/background-deadline.ts:64-71 | while something is queued or being written the native side can go on, and each write leaves less |
| `DeadlineScheduler.CaughtUpIsArmed` | src/lib/background-deadline.ts:54-72 | after any run, once the native side has caught up it holds the least pending deadline, in the background and with no failed write outstanding |
| `DeadlineScheduler.DrainedNativeIsExact` | src/lib/background-deadline.ts:65-71 | without failed writes and without a pulse overtaking one, the drained native side holds the least pending deadline in the background and none in the foreground or with nothing pending |
| `DeadlineScheduler.PulseLeavesStaleDeadline` | src/lib/background-deadline.ts:42-49 | exactly when a pulse leaves the native side with a deadline nobody wants |
| `DeadlineScheduler.OvertakingPulse` | src/lib/background-deadline.ts:42-49 | a run in which that happens |
| `BackgroundDeadlineSchedulerClass.BackgroundDeadlineScheduler.UpdateNativeDeadline` | src/lib/background-deadline.ts:54-72 | the loop finds the least pending deadline, and a write is queued exactly when the record changes |
| `BackgroundDeadlineSchedulerClass.BackgroundDeadlineScheduler.Schedule` | src/lib/background-deadline.ts:18-37 | a new entry under a fresh id, native deadline updated; the scheduler invariant is kept |
| `BackgroundDeadlineSchedulerClass.BackgroundDeadlineScheduler.CancelEntry` | src/lib/background-deadline.ts:32-36 | an entry still pending goes and is never run, native deadline updated; the scheduler invariant is kept |
| `BackgroundDeadlineSchedulerClass.BackgroundDeadlineScheduler.RunOne` | src/lib/background-deadline.ts:23-28 | a pending entry leaves the set before its callback runs, whatever the callback schedules or cancels |
| `BackgroundDeadlineSchedulerClass.BackgroundDeadlineScheduler.HandlePulse` | src/lib/background-deadline.ts:42-50 | the snapshot loop runs as `PulseRunsWhatWasDue` says; the scheduler invariant is kept |
| `BackgroundDeadlineSchedulerClass.BackgroundDeadlineScheduler.ChangeAppState` | src/lib/background-deadline.ts:51-51 | the listener updates the native deadline; the scheduler invariant is kept |
| `BackgroundDeadlineSchedulerClass.BackgroundDeadlineScheduler.BeginNativeWrite` | src/lib/background-deadline.ts:65-67 | a queued write is skipped when the record has moved on; the scheduler invariant is kept |
| `BackgroundDeadlineSchedulerClass.BackgroundDeadlineScheduler.EndNativeWrite` | src/lib/background-deadline.ts:67-71 | a failed write withdraws the record if it is still the one, so that the next update writes again; the scheduler invariant is kept |
| `Drafts.StepAgreesExactlyWhenCurrent` | src/stores/drafts.store.ts:27-162 | whatever callers do: the only step that breaks the agreement of memory, owed texts and table is a load that completes while something owed to its account differs from the table |
| `Drafts.AgreesThroughoutExactlyWhenLoadsAreCurrent` | src/stores/drafts.store.ts:27-162 | a run keeps the agreement throughout exactly when every load completed while the table was current |
| `Drafts.CarefulLoadsAreCurrent` | src/stores/drafts.store.ts:119-128 | so it does when an account is loaded only with no load under way and none of its drafts debounced |
| `Drafts.MemoryIsTablePlusOwed` | src/stores/drafts.store.ts:89-162 | in every such run the in-memory map is the table with the owed writes applied, timers match debounced texts, and with nothing owed the table itself agrees |
| `Drafts.BackgroundEmpties` | src/stores/drafts.store.ts:46-52 | leaving the foreground leaves no debounced text and no timer, and everything owed on its way to the table |
| `Drafts.FlushHandsOver` | src/stores/drafts.store.ts:35-41 | a flush hands one draft over and touches no other |
| `Drafts.ClearRemovesTheDraft` | src/stores/drafts.store.ts:144-153 | a cleared draft is shown no longer and, once the database has caught up, has no row, whatever was debounced or queued; no other draft notices |
| `Drafts.TypingOwesTheText` | src/stores/drafts.store.ts:129-143 | a typed text shows and is owed, a blank one shows and owes nothing; no other draft notices |
| `Drafts.LoadAgreesExactlyWhenNothingNewIsOwed` | src/stores/drafts.store.ts:119-128 | a load behind any queue of writes and loads ends in agreement exactly when every text still debounced for the account is what the table then holds |
| `Drafts.SecondLoadDropsTheText` | src/stores/drafts.store.ts:119-128 | two loads of one account: a text typed between their answers is on screen no longer, unless the table happens to hold it |
| `Drafts.QuickSwitchShowsOldDraft` | src/stores/drafts.store.ts:119-128 | switching away and back within the debounce shows the old draft while the new one is written behind it |
| `Drafts.DraftsStore.FlushOne` | src/stores/drafts.store.ts:35-41 | the timer goes, and a debounced text is handed to the database once, as `FlushHandsOver` says |
| `Drafts.DraftsStore.LeaveForeground` | src/stores/drafts.store.ts:46-52 | the loop flushes every pending key; the agreement is kept |
| `Drafts.DraftsStore.ScheduleWrite` | src/stores/drafts.store.ts:89-94 | the text is owed and its timer restarted |
| `Drafts.DraftsStore.FlushWrite` | src/stores/drafts.store.ts:96-100 | the text goes to the database at once |
| `Drafts.DraftsStore.Set` | src/stores/drafts.store.ts:129-143 | a blank text removes the shown draft, any text is owed; the agreement is kept |
| `Drafts.DraftsStore.Clear` | src/stores/drafts.store.ts:144-153 | the draft goes from memory and an empty text to the database at once; the agreement is kept |
| `Drafts.DraftsStore.FlushKey` | src/stores/drafts.store.ts:154-161 | flushes one draft of the loaded account; the agreement is kept |
| `Drafts.DraftsStore.BeginLoading` | src/stores/drafts.store.ts:119-124 | queues a load unless the account is loaded; the agreement is kept |
| `Drafts.DraftsStore.DatabaseStep` | src/stores/drafts.store.ts:58-87 | a persisted draft keeps the agreement, an answered load exactly when the table is current |
| `UpdatePreferencesModel.RunKeepsInv` | desktop/update-preferences.ts:54-65 | every run keeps the newest unsettled save shown and the file equal to the last save that succeeded |
| `UpdatePreferencesModel.SettledValueIsTheFile` | desktop/update-preferences.ts:54-65 | once all saves have settled, in any pattern of failures, the value is the last committed one and the file holds it |
| `UpdatePreferencesModel.EarlierFailureDoesNotShow` | desktop/update-preferences.ts:61-64 | an earlier failure never takes a newer save off |
| `UpdatePreferencesModel.FileIsItsChanges` | desktop/update-preferences.ts:41-65 | in every run the file is the loaded preferences with the changes applied that the last successful save was built on, in order |
| `UpdatePreferencesModel.FailedSaveIsWrittenExactlyWhenAnotherWaits` | desktop/update-preferences.ts:54-65 | in every run: a save that fails can still reach the file exactly when another save was queued behind it before it settled |
| `UpdatePreferencesModel.FailedSkipIsWrittenByTheNextSave` | desktop/update-preferences.ts:41-65 | a run in which that happens |
| `UpdatePreferencesModel.SilencedOffers` | desktop/update-preferences.ts:34-50 | without preferences every offer prompts; what a deferral and a skip silence, for how long, and what they replace |
| `UpdatePreferencesModel.UpdatePreferences.SaveNext` | desktop/update-preferences.ts:54-60 | the save shows at once and waits at the end of the writes |
| `UpdatePreferencesModel.UpdatePreferences.SkipVersion` | desktop/update-preferences.ts:41-43 | a save built on the value shown; the invariant of the shown value is kept |
| `UpdatePreferencesModel.UpdatePreferences.DeferOffer` | desktop/update-preferences.ts:45-50 | a save built on the value shown, for an offer only; the invariant is kept |
| `UpdatePreferencesModel.UpdatePreferences.SettleFirst` | desktop/update-preferences.ts:57-64 | the first write reaches the file, or fails and is taken back if it still shows; the invariant is kept |
| `KeyReconciliation.BootstrapDecides` | src/stores/active-account.store.ts:123-178 | ready exactly when nothing is announced or the device holds the announced key; then its current key is the announced one; otherwise nothing is generated or published; a key is generated only when none is announced, and replaced only by a holder |
| `KeyReconciliation.UnsafeExactlyWhenReadTooEarly` | src/stores/active-account.store.ts:127-136 | exactly which outdated readings of the announcement make a device replace a key it does not hold |
| `KeyReconciliation.TwoNewDevicesCollide` | src/stores/active-account.store.ts:137-161 | two new devices that both read nothing both generate, and one has to synchronize |
| `KeyReconciliation.StepKeepsInv` | src/stores/active-account.store.ts:123-190 | every event keeps the key lists ordered by announcement |
| `KeyReconciliation.AnnouncementsNeverRevert` | src/stores/active-account.store.ts:165-190 | in every run a replaced key is never announced again, and keys shared by two devices were announced |
| `KeyReconciliation.InterruptsWhatGenerates` | src/stores/active-account.store.ts:137-161 | what can be interrupted before announcing is exactly what generates: a rotation, and the bootstrap of a new account |
| `KeyReconciliation.HeldExactlyUnlessStranded` | src/stores/active-account.store.ts:149-190 | a step leaves no device holding the announced key exactly when its only holder forgets the account or generates the key that pushes it out of a full list |
| `KeyReconciliation.HeldThroughoutExactlyWhenNeverStranded` | src/stores/active-account.store.ts:149-190 | some device holds the announced key at every moment of a run exactly when no step does that |
| `KeyReconciliation.SyncNeedsAHolder` | src/stores/active-account.store.ts:525-552 | a device told to synchronize can, ending ready without announcing anything, exactly when some device holds the announced key |
| `KeyReconciliation.SyncIsAlwaysPossible` | src/stores/active-account.store.ts:525-552 | so it always can in a run that never strands the key |
| `KeyReconciliation.StrandedStaysStranded` | src/stores/active-account.store.ts:165-178 | once no device holds the announced key, no bootstrap or transfer ever gets ready again and no device can synchronize |
| `KeyReconciliation.CurrentSurvivesNine` | src/platform/vault/local-vault.ts:130-141 | with the ten-key list, a device keeps its announced key through nine unannounced ones and loses it with the tenth |

## Left out

- Message history: a change of session while a page is in flight, reply-target hydration, boundaries,
  jumping back to the tail, edited or deleted rows; the prefetch effects are events that may come at any time.
- TailRecovery.NoMoreMeansAllLoaded: says only what "no more" means, because the tail effect resets the
  flag from the size of the live batch (src/hooks/use-messages.ts:660) and it can promise more than there is.
- AnchorWindow.HasMoreIsExact: exact on the newer side only while no message arrives; `HasMoreIsSound` is
  what remains true otherwise.
- Broker: read streams, the text of SQL (a flag says what `mutatesDatabase` answered), a web contents
  that is gone when a change is announced, an `exec` of several statements that fails midway (a call
  runs one statement, or the rows of a batch), failures of SAVEPOINT, RELEASE and ROLLBACK statements.
- Noise: the handshake messages and key derivation, the cipher itself and the zeroing of key buffers;
  `finishHandshake` does not check that the handshake is complete, and the model does not either.
- NoiseWorkerClass.NoiseWorker.SealRecord: asks that session ids are 32 bytes, which the handshake hash always is.
- NappletBytes.DecodeNappletBytes: abort signals and the pauses between slices; text decoding of the bytes.
- Form encoding: strings with lone surrogates, on which encoding throws, and the URL fields other than the search.
- FormUrlEncoded.StableSort: stands for the engine's sort, of which only the order and the stability are used.
- GeneratedBlock: the plugin callbacks that call the update, and the texts they pass.
- LiveQuery: a read is taken to see every change committed before it started; disabled queries and those
  over subqueries, which never read.
- Migrations: the meaning of statements and data migrations, the creation of the journal table, and the
  splitting of a migration's text; a migration with empty text counts as missing.
- DeadlineScheduler: callbacks that throw, and the clock behind setTimeout.
- Drafts: failed or reordered writes, and the update time stored with a draft.
- UpdatePreferences: reading and validating the file at start.
- KeyReconciliation: modelled on values, so the store's fields, its abort controller, the relay lists
  and the boot phases are not in it; nor are accounts created on the device, or an outdated announcement
  noticed while the message service starts.
- Windows, views, tray, file streaming, images, notifications and the other build plugins: no
  algorithm whose runs need a model.
