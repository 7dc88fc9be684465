# Scan lifecycle and quota credits: a verified model of cafe-persistence

cafe-persistence stores scan rows, moves them through PENDING, RUNNING and a terminal state, and keeps one
plan-quota credit per scan in step with them. This project models that engine in Dafny and proves what it
keeps over every run: for wallet scans over every interleaving of concurrent transactions, for TLS scans,
reservations and policies over every serial run.

`dafny verify dfyconfig.toml` checks the whole project.

## What is modelled

**Wallet transitions** (`WalletTransition`, `WalletStore`, `WalletInterleaving`, `WalletSafety`, `WalletSolo`,
`WalletRedelivery`, `WalletProgress`).
A command carries a transition id, source states, a target and a quota action. Three descriptions of it are
tied together:

* `WalletTransition.Apply` is the serial meaning of one command on a table of rows (absent, live or
  soft-deleted) and the credit ledger. The WHERE clause of the conditional UPDATE is modelled in SQL's
  three-valued logic and proved to agree with the in-memory check.
* `WalletStore.WalletDb` is the transaction as the code runs it, statement by statement, where the database may
  fail any statement and the transaction then rolls back.
* `WalletInterleaving` runs any number of such transactions together under PostgreSQL READ COMMITTED. Every
  statement sees the latest committed state, a write holds its row until the transaction ends, and a blocked
  UPDATE evaluates its WHERE clause again. Owners soft-delete rows and outside services reserve credits in
  between, and any transaction may abort at any time. The main theorem, `InterleavingsAreSerial`, shows that
  every interleaving has the effect of a legal serial run of atomic writes, and `AppliedWritesOnce` that a
  transaction contributes one write when it is answered applied and none otherwise. `AnswersWhenAlone` says what
  answer a transaction is owed wherever it stands, and `InsertRaceLoser` what the loser of an insert race does.

The serial view leaves out a reservation that arrives between the DELETE of a releasing transaction that found
no credit and its commit. Such a reservation comes, serially, right after the release; `Trace` puts it there.

**TLS events** (`TlsEvents`, `TlsSafety`, `TlsProgress`, `UsageLedger`). Started, completed and failed events arrive
duplicated and in any order; each handler call is one atomic step.

**Projections** (`TransitionApi`, `ChainExport`). Which request bodies become commands, and what a transition or
a delete does to the Redis cache and to the event bus.

**Pending reservations** (`PendingIndex`), **policies** (`Policies`, `WalletTarget`), **the wallet list**
(`WalletListing`) and **advisory-lock keys** (`LockKeys`).

Objects that the code updates in place are classes whose methods are proved against functions on values
(`WalletTransition.Apply`, `TlsEvents.Handle`, `TransitionApi.Transition`, `PendingIndex.Reserve`,
`Policies.Create` and so on); the run-level theorems are about those functions.

## Where the code does less than one might expect

Each of these comes with an input or a run that shows it, and with the condition under which the code does behave.

* The UPDATE of a transition tests the status and not the transition id. Two deliveries that both read the row
  before either writes it are both answered applied when the second admits the first one's target: one command
  whose target is among its sources (`WalletRedelivery.RedeliveryMayApplyTwice`), or a start and an end of the scan
  under one transition id (`WalletRedelivery.OneIdTwoTargets`). Any commands that share an id, delivered any number
  of times in any interleaving, are applied at most once in total exactly when the row is not live with another id
  and a status from which two of them follow each other (`WalletRedelivery.AppliedOnceIff`); over all tables,
  exactly when no two of them, nor one twice, follow each other from any status
  (`WalletRedelivery.SharedIdIsSafeIff`), which for one command says that its target is not among its sources
  (`WalletRedelivery.SafeToRedeliverIff`). Among forward commands of any ids each id has at most one effect exactly
  when no start and end under one id both admit a pending scan while the end also admits a running one
  (`WalletRedelivery.OneEffectPerIdIff`).
* `source_states` may name terminal states, and such a command rewrites a settled row
  (`WalletSafety.TerminalSourceRewrites`). In every interleaving of deliveries of given commands a row keeps its
  content exactly when it is deleted or every command meets its own transition id or a status outside its sources
  (`WalletRedelivery.RowIsFinalIff`).
* `handleTLSCompleted` drops the error of its status read, although the comment at
  internal/persistence/handlers/scan_events.go:329 says that the same event twice is safe. A completion of a settled
  scan is ignored exactly when that read succeeded, and changes nothing exactly when it succeeded or the
  completion only repeats what the tables hold (`TlsSafety.CompletionIgnoredWhenRead`). Otherwise a failed scan can
  become a success (`TlsSafety.FailedReadReopens`).
* The start of a catalogue scan inserts its row and then replaces the earlier ones outside any transaction. One
  live row is left exactly when the replacement works or there was nothing to replace
  (`TlsSafety.ReplacementDecides`); a run with a failed replacement leaves two (`TlsSafety.TwoLiveDefaults`), and a
  redelivery does not repair it (`TlsSafety.RedeliveredStartDoesNothing`). A completion that overtakes its own start
  leaves two as well, because the late start is ignored (`TlsSafety.EarlyCompletionJoins`). A URL has at most one live
  catalogue row all through a run exactly when every event that adds one without replacing finds no other
  (`TlsSafety.SingleOverRuns`).
* A command may move a live row to another owner or address, which can leave a cache entry whose wallet has no
  live row (`TransitionApi.CacheWithoutLiveRow`). Every cached wallet has a live row all through a run exactly when
  no request of the run takes the last one of a cached wallet away (`TransitionApi.CacheLiveOverRuns`).
* A pending release that arrives after the record has expired leaves the address reserved
  (`PendingIndex.LateReleaseBlocks`, and the condition in `PendingIndex.ReleaseNeedsRecord`).
* A policy count looks at one tenant while uniqueness spans all tenants of a user, so a count of zero does not
  promise a successful create (the run `Policies.ZeroCountThenRefused`, and the condition in
  `Policies.CountPredictsCreate`).

## Model

| member | source | states |
|---|---|---|
| `WalletInterleaving.InterleavingsAreSerial` | internal/wallettransition/apply.go:59-151 | Every interleaving of any number of transactions, aborts, soft deletes and reservations leaves rows and credits as a legal serial run of atomic writes does, and keeps the lock invariant |
| `WalletInterleaving.AppliedWritesOnce` | internal/wallettransition/apply.go:88-151 | A transaction contributes exactly one serial write when it is answered applied and none for any other answer |
| `WalletInterleaving.SimulateCommit` | internal/wallettransition/apply.go:185-220 | At its commit a transaction's command may write the serial state: status among the sources, row absent or live, credit present for a keep; the commit is that write followed by the reservation it held back |
| `WalletInterleaving.SimulateStatement` | internal/wallettransition/apply.go:76-151 | No statement before the commit is visible to anyone |
| `WalletInterleaving.InvNext` | internal/wallettransition/apply.go:113-151 | A written and uncommitted row cannot move: its holder's pending version stays what the command writes to the committed row, through every action of everyone |
| `WalletInterleaving.TraceCommands` | internal/wallettransition/apply.go:59-74 | The serial run writes only commands that were begun |
| `WalletSafety.TerminalOnce` | internal/wallettransition/apply.go:88-162 | Over every interleaving at most one terminal command is applied to a scan, when no command lists a terminal source |
| `WalletSafety.TerminalIsFinal` | internal/wallettransition/apply.go:204-241 | A settled row keeps status, error, result, owner, address and transition id whatever happens next |
| `WalletSafety.TerminalSourceRewrites` | internal/scanapi/transition.go:214-226 | Any command that lists the status of a settled live row and names another transition id rewrites it; a FAILED one drops its credit |
| `WalletSafety.CreditInvariant` | internal/wallettransition/apply.go:164-202 | In every committed state, keep racing release included, a SUCCESS row has its credit, for any source lists |
| `WalletSafety.CreditConservation` | internal/wallettransition/apply.go:185-202 | Without reservations the credits are the initial ones minus the scans with an applied FAILED command |
| `WalletSafety.OnlyReservationsAdd` | internal/wallettransition/apply.go:185-202 | No interleaving of transitions gives a scan a credit that nobody reserved |
| `WalletSafety.RanksRise` | internal/wallettransition/apply.go:113-122 | Two commands applied to one scan, sources without target and without terminal states, are RUNNING and then a terminal one |
| `WalletSafety.AtMostTwoApplied` | internal/wallettransition/apply.go:113-122 | Every applied forward command raises the scan's rank, so at most two are applied under any duplication and reordering |
| `WalletSafety.TransitionHasOneEffect` | internal/wallettransition/apply.go:285-303 | From any machine, whatever is in flight, a transition id whose forward commands all name one target has at most one effect on a scan; `WalletRedelivery.OneEffectPerIdIff` has the exact condition |
| `WalletSafety.RowsShowLastWrite` | internal/wallettransition/apply.go:204-267 | After every interleaving of commands with tied quota, any sources, a written row shows exactly the command applied to it last (owner, address, status, error, transition id) and the result of the last applied SUCCESS |
| `WalletSafety.OnlySuccessHasResult` | internal/wallettransition/apply.go:204-267 | Without terminal sources only SUCCESS rows carry a result, in every interleaving |
| `WalletSafety.NoResurrection` | internal/wallettransition/apply.go:95-106 | A soft-deleted row is never made live or changed, and its scan's credit neither given up nor taken, by any commands in any interleaving |
| `WalletSolo.SoloRunIsSerial` | internal/wallettransition/apply.go:76-151 | A transaction that nothing interrupts ends within six statements with the serial answer and effect, in particular its conditional UPDATE always hits |
| `WalletProgress.AnswersWhenAlone` | internal/wallettransition/apply.go:76-151 | Wherever a transaction stands before its write, once nobody holds its row and nothing interrupts it, it ends within twelve statements with the answer it is owed by the row and the credit it meets, and writes the row exactly when that is applied |
| `WalletProgress.InsertRaceLoser` | internal/wallettransition/apply.go:95-106 | The loser of an insert race acts as a command that came after the winner: applied when it admits the winner's target and is paid, already_applied under the winner's id, otherwise refused for what the row now is |
| `WalletProgress.HolderAnswers` | internal/wallettransition/apply.go:107-110 | The holder of a row ends applied with its pending version, or for a keep whose credit is gone with nothing written, and frees the row |
| `WalletProgress.HeldRowMakesWait` | internal/wallettransition/apply.go:204-220 | A write or delete of a row that another transaction holds waits |
| `WalletProgress.FreeRowIsDropped` | internal/repository/scan_result_repository.go:42-48 | On a free row the owner's delete takes effect at once and changes nothing else |
| `WalletProgress.AbortGivesUp` | internal/wallettransition/apply.go:64-72 | An abort answers retryable_error, writes nothing and frees the row |
| `WalletProgress.ReservationTakesEffect` | internal/repository/scan_usage_ledger_repository.go:51-65 | A reservation gives a scan without a credit one, and waits only for an uncommitted release |
| `WalletRedelivery.AppliedOnceIff` | internal/wallettransition/apply.go:113-151 | From given tables any commands that share a transition id are applied at most once in total, under every interleaving of any number of deliveries with anything on other scans, exactly when the row is not live with another id and a status from which two of them, or one twice, follow each other |
| `WalletRedelivery.SharedIdIsSafeIff` | internal/wallettransition/apply.go:113-151 | Over all tables, exactly when no two of them, nor one twice, follow each other from any status |
| `WalletRedelivery.StartAndEndAreSafeIff` | internal/wallettransition/apply.go:113-151 | A forward start and a forward end under one id are applied at most once in total exactly when they do not both admit a pending scan with the end also admitting a running one |
| `WalletRedelivery.OneEffectPerIdIff` | internal/wallettransition/apply.go:113-151 | Forward commands of any ids, duplicated and reordered in any interleaving, have at most one effect per id on a scan exactly when no pair under one id is such a start and end |
| `WalletRedelivery.OneEffectPerId` | internal/wallettransition/apply.go:88-151 | The safe direction from any machine whose transactions in flight have read nothing that such a pair could exploit |
| `WalletRedelivery.RowIsFinalIff` | internal/wallettransition/apply.go:204-241 | A row, settled or not, keeps its content in every interleaving of deliveries of given commands exactly when it is deleted or every command meets its own id or a status outside its sources |
| `WalletRedelivery.SafeToRedeliverIff` | internal/wallettransition/apply.go:113-151 | A command is applied at most once whatever the tables hold exactly when its target is not among its sources |
| `WalletRedelivery.AppliedOnce` | internal/wallettransition/apply.go:88-151 | The safe direction, run by run: deliveries that meet an absent row, a row with their id or a closed guard write at most once |
| `WalletRedelivery.RedeliveryMayApplyTwice` | internal/wallettransition/apply.go:113-151 | A race in which two deliveries of one command, RUNNING, SUCCESS or FAILED, are both answered applied |
| `WalletRedelivery.BothApply` | internal/wallettransition/apply.go:113-151 | Two commands that admit one row, the second also the first one's target, may both be answered applied whatever their transition ids and quota actions |
| `WalletRedelivery.OneIdTwoTargets` | internal/wallettransition/apply.go:113-151 | Every start and end under one id that both admit a pending scan, the end also a running one, both apply in a race |
| `WalletTransition.GuardAgreement` | internal/wallettransition/apply.go:222-241 | The SQL guard matches a stored status (NULL and blank included) exactly when the in-memory check accepts its logical form, for every source list |
| `WalletTransition.BlankSourceIsInert` | internal/wallettransition/apply.go:222-241 | A blank source changes no guard |
| `WalletTransition.SourceScope` | internal/wallettransition/apply.go:222-241 | The loop over the sources builds the guard that the agreement is proved of |
| `WalletTransition.ApplyWritesWhenItMay` | internal/wallettransition/apply.go:113-151 | Apply writes exactly when the command may write and was not applied before; every other answer changes nothing |
| `WalletTransition.ApplyTwice` | internal/wallettransition/apply.go:113-119 | Redelivering an applied command answers already_applied with the stored row and changes nothing |
| `WalletTransition.LiveAnswers` | internal/wallettransition/apply.go:113-162 | Each answer to a command that meets a live row, with its cause: already_applied for its own id, already_running for RUNNING on RUNNING, already_terminal for a settled status, rejected for the rest of the refusals, retryable_error for a keep without its credit, applied otherwise; and the status and row it reports |
| `WalletTransition.MissingAnswers` | internal/wallettransition/apply.go:88-106 | Each answer without a live row: rejected without PENDING among the sources, retryable_error for an unpaid keep or a soft-deleted row, applied otherwise |
| `WalletTransition.AppliedRowSays` | internal/wallettransition/apply.go:204-267 | What an applied command leaves in the tables, column by column, and that nothing else changes |
| `WalletTransition.DropMarksRow` | internal/repository/scan_result_repository.go:42-48 | A soft delete marks a live row of its owner and changes nothing else |
| `WalletStore.WalletDb.Apply` | internal/wallettransition/apply.go:59-74 | All or nothing: the serial answer and effect, or, exactly when a statement that the command reaches fails, both tables untouched and retryable_error with the status that the code reports |
| `WalletStore.WalletDb.ApplyTx` | internal/wallettransition/apply.go:76-86 | A transaction that commits has the serial answer and effect |
| `WalletStore.WalletDb.ApplyMissing` | internal/wallettransition/apply.go:88-111 | The insert path, with the conflict on a soft-deleted row ending in rollback |
| `WalletStore.WalletDb.ApplyExisting` | internal/wallettransition/apply.go:113-151 | Whatever stale row the transaction read, it writes only what the command may write to the current row, and every answer says what the row it met was |
| `WalletStore.WalletDb.PrepareQuota` | internal/wallettransition/apply.go:164-183 | Stops a keep without its credit and lets everything else pass |
| `WalletStore.WalletDb.Finish` | internal/wallettransition/apply.go:185-202 | Releases the credit, or checks it again for a keep |
| `WalletStore.WalletDb.WriteScoped` | internal/wallettransition/apply.go:204-220 | Hits exactly the live rows whose logical status is a source, and writes the command's version of the row |
| `WalletStore.WalletDb.SoftDelete` | internal/repository/scan_result_repository.go:42-48 | Marks a live row of its owner and nothing else |
| `TransitionApi.TransitionCommand` | internal/scanapi/transition.go:156-199 | Accepts exactly the admissible bodies; every command that reaches the database has its quota tied to its target, known sources and a normalised address |
| `TransitionApi.KnownSources` | internal/scanapi/transition.go:214-226 | True exactly for a non-empty list of lifecycle states and blanks |
| `TransitionApi.ScanApi.ApplyTransition` | internal/scanapi/transition.go:69-93 | The endpoint changes store, cache and events together as the serial command does, or, when a statement it reaches fails, none of them |
| `TransitionApi.ScanApi.PublishTerminal` | internal/scanapi/transition.go:95-153 | Cache entry first, then the two events, nothing at all when Redis fails |
| `TransitionApi.ScanApi.DeleteWalletScan` | internal/scanapi/handler.go:407-436 | Soft-deletes a live owned row and drops the cache entry with the last live row of its address; a failed listing answers with an error and keeps the entry, a failed cache delete is ignored |
| `TransitionApi.EntriesShowTerminalRows` | internal/scanapi/transition.go:83-114 | Over every serial run without terminal sources each cache entry shows a committed terminal row of its owner and address, whatever owners and addresses the commands name |
| `TransitionApi.ObservationsOfOneScanAgree` | internal/walletobservation/export.go:24-31 | Over every serial run without terminal sources all wallet.observed events of one scan are identical |
| `TransitionApi.ObservationsShowSuccess` | internal/scanapi/transition.go:132-153 | Every wallet.observed event shows the SUCCESS row of its scan |
| `TransitionApi.CacheLiveOverRuns` | internal/scanapi/handler.go:416-434 | All through a run of any requests each cached wallet has a live row exactly when no request takes the last one of a cached wallet away |
| `TransitionApi.TransitionKeepsLive` | internal/wallettransition/apply.go:204-214 | For one command: exactly when, applied to a live row with a cached key, it keeps owner and address or another live row has them |
| `TransitionApi.DeleteKeepsLive` | internal/scanapi/handler.go:416-434 | For one delete: exactly when it drops the entry of the wallet or another live row has its owner and address |
| `TransitionApi.StableScansKeepCacheLive` | internal/scanapi/handler.go:416-434 | With one owner and normalised address for each scan and deletes that list the remaining rows and reach Redis every cached wallet keeps a live row |
| `TransitionApi.LosersChangeNothing` | internal/scanapi/transition.go:83-93 | Commands that neither apply nor replay change no store, cache entry or event |
| `TransitionApi.TerminalIsAnnounced` | internal/scanapi/transition.go:83-153 | An applied or replayed command whose row is terminal caches the row, announces it once as a success exactly when it is one, and observes an accepted success once; the cached result or error and every column of the observation are those of the row |
| `TransitionApi.SuccessIsObserved` | internal/scanapi/transition.go:95-153 | Over every run an applied SUCCESS has been announced to its owner and observed, whatever comes before and after |
| `TransitionApi.DeleteDropsEntry` | internal/scanapi/handler.go:416-434 | A delete marks its row and drops the cache entry exactly when the rest could be listed, Redis answers and no other live row of the owner has the address in any letter case |
| `TransitionApi.CacheWithoutLiveRow` | internal/scanapi/handler.go:425-434 | A run of admitted commands that leaves a cache entry without a live row |
| `UsageLedger.Ledger.Count` | internal/repository/scan_usage_ledger_repository.go:67-76 | The number of credits of one user and kind |
| `UsageLedger.Ledger.Record` | internal/repository/scan_usage_ledger_repository.go:51-65 | Adds the scan's row unless it has one; an unknown kind is refused |
| `UsageLedger.Ledger.RecordIfUnderLimit` | internal/repository/scan_usage_ledger_repository.go:154-183 | Writes a row exactly when the user is below the limit and the scan has none |
| `UsageLedger.Ledger.Release` | internal/repository/scan_usage_ledger_repository.go:193-195 | Removes the scan's row and no other |
| `UsageLedger.Ledger.ConfirmExistingOrAcquire` | internal/persistence/handlers/scan_events.go:214-244 | True exactly when the ledger holds the scan on exit, which is when it had a row, the plan is unlimited or the user was below the limit |
| `UsageLedger.ConfirmStaysWithinLimit` | internal/persistence/handlers/scan_events.go:214-244 | Confirming touches no other scan's row and keeps every count within the larger of limit and start |
| `UsageLedger.ConfirmGrants` | internal/persistence/handlers/scan_events.go:214-244 | A scan is given a credit exactly when it has one, its plan has no limit, or fewer rows than the limit are in use, counted |
| `UsageLedger.RecordAddsOne` | internal/repository/scan_usage_ledger_repository.go:51-65 | A new row adds one to its own user and kind and nothing to any other |
| `TlsEvents.TlsWriter.OnStarted` | internal/persistence/storage/postgres.go:40-80 | Inserts an unseen scan and replaces earlier catalogue rows of its URL; a known scan changes nothing |
| `TlsEvents.TlsWriter.OnCompleted` | internal/persistence/storage/postgres.go:88-100 | Rewrites a live row or inserts a missing one; a soft-deleted id is refused |
| `TlsEvents.TlsWriter.OnPlanLimitExceeded` | internal/persistence/storage/postgres.go:104-133 | Fails the row and clears the measured posture |
| `TlsEvents.TlsWriter.OnFailed` | internal/persistence/storage/postgres.go:141-160 | Fails the row or inserts a failed one; a soft-deleted id is refused |
| `TlsEvents.TlsWriter.DeleteOwned` | internal/repository/tls_scan_result_repository.go:54-60 | Marks a live row of its owner, never a catalogue row |
| `TlsEvents.ScanEventHandler.ApplyStarted` | internal/persistence/handlers/scan_events.go:63-78 | The handler of a start acts as the specified step |
| `TlsEvents.ScanEventHandler.ApplyCompleted` | internal/persistence/handlers/scan_events.go:103-146 | The handler of a completion acts as the specified step |
| `TlsEvents.ScanEventHandler.Commit` | internal/persistence/handlers/scan_events.go:165-209 | Credit and row change together, or the failed write takes the credit back |
| `TlsEvents.ScanEventHandler.ApplyFailed` | internal/persistence/handlers/scan_events.go:269-315 | The handler of a failure acts as the specified step, row and release together |
| `TlsSafety.FirstTerminalWins` | internal/persistence/handlers/scan_events.go:103-146 | The first terminal event fixes row and credit for good, whatever events follow |
| `TlsSafety.CompletionIgnoredWhenRead` | internal/persistence/handlers/scan_events.go:103-119 | A completion of a settled scan is ignored exactly when its status read succeeded, and changes nothing exactly when it succeeded or repeats what the tables hold |
| `TlsSafety.FailedReadReopens` | internal/persistence/handlers/scan_events.go:103-119 | With a failed read a failed scan becomes a success and takes a credit |
| `TlsSafety.CreditIffSuccess` | internal/persistence/handlers/scan_events.go:165-244 | Over every run a settled user-owned scan holds a credit exactly when it is SUCCESS, plan-limit rejections included |
| `TlsProgress.CompletionSettles` | internal/persistence/handlers/scan_events.go:103-209 | A well-formed completion of an unknown, pending or running scan ends it as a success with its credit, column by column, exactly when the credit is granted, and otherwise as a plan-limit failure without one |
| `TlsProgress.CompletionRefused` | internal/persistence/handlers/scan_events.go:103-146 | What stops a completion, and that it then changes nothing |
| `TlsProgress.FailureSettles` | internal/persistence/handlers/scan_events.go:269-315 | A failure of an unknown, pending or running scan ends it with its error and without a credit |
| `TlsProgress.FailureRefused` | internal/persistence/handlers/scan_events.go:269-288 | What stops a failure, and that it then changes nothing |
| `TlsProgress.StartRuns` | internal/persistence/storage/postgres.go:40-65 | A start of an unseen scan leaves a running row with no result |
| `TlsProgress.StartReplaces` | internal/persistence/storage/postgres.go:75-80 | A fresh catalogue start takes every other catalogue row of its URL down and nothing else |
| `TlsProgress.OwnerDeleteMarks` | internal/repository/tls_scan_result_repository.go:54-60 | A delete marks a live row of its owner outside the catalogue and nothing else |
| `TlsProgress.DecidedScansEnd` | internal/persistence/handlers/scan_events.go:81-315 | Over every run a scan is settled only if some event decides it, and a scan that an event decides has ended |
| `TlsSafety.QuotaBound` | internal/repository/scan_usage_ledger_repository.go:154-183 | Under a fixed limit the user's endpoint count never exceeds the larger of the limit and its start |
| `TlsSafety.NoResurrection` | internal/persistence/handlers/scan_events.go:195-207 | No event makes a soft-deleted row live or changes it or its credit |
| `TlsSafety.CatalogueIsLatest` | internal/persistence/storage/postgres.go:40-80 | From any tables, a URL with a fresh catalogue start ends with exactly one live catalogue row, the latest first-seen one, and any other URL keeps the rows it had |
| `TlsSafety.StartsLeaveOwnedRows` | internal/persistence/storage/postgres.go:75-80 | Starts never touch a user's row or any credit |
| `TlsSafety.ReplacementDecides` | internal/persistence/storage/postgres.go:54-64 | A fresh catalogue start leaves one live row exactly when its replacement works or had nothing to replace |
| `TlsSafety.TwoLiveDefaults` | internal/persistence/storage/postgres.go:54-64 | Two starts of one URL, the second with a failed replacement, leave two live catalogue rows |
| `TlsSafety.SingleOverRuns` | internal/persistence/storage/postgres.go:40-160 | All through a run of any events, faults and unknown scans included, a URL has at most one live catalogue row exactly when every event that adds one without replacing finds no other |
| `TlsSafety.CatalogueNext` | internal/persistence/storage/postgres.go:40-160 | What every event does to the live catalogue rows of a URL |
| `TlsSafety.EarlyCompletionJoins` | internal/persistence/handlers/scan_events.go:103-146 | Start, completion of an unknown scan, late start: two live catalogue rows |
| `TlsSafety.RedeliveredStartDoesNothing` | internal/persistence/storage/postgres.go:40-53 | A start of a known scan changes nothing |
| `PendingIndex.PendingStore.PutWallet` | internal/repository/pending_v1_scan_repository.go:77-101 | Reserves a free owner and address with its record, refuses a taken one, and undoes the key when the record cannot be stored |
| `PendingIndex.PendingStore.Put` | internal/repository/pending_v1_scan_repository.go:66-75 | Files a record under its scan id |
| `PendingIndex.PendingStore.GetWalletByOwnerAddress` | internal/repository/pending_v1_scan_repository.go:121-146 | The record behind a reservation, or one made from the reservation alone |
| `PendingIndex.PendingStore.Delete` | internal/repository/pending_v1_scan_repository.go:148-163 | Removes the record and the reservation it names, as far as Redis answers |
| `PendingIndex.PendingStore.DeleteWalletReservation` | internal/repository/pending_v1_scan_repository.go:165-174 | Removes a reservation only while it holds the given scan |
| `PendingIndex.AgreeNext` | internal/repository/pending_v1_scan_repository.go:77-101 | A step keeps the two maps in agreement exactly when its scan id is not that of another standing reservation |
| `PendingIndex.AgreementOverRuns` | internal/repository/pending_v1_scan_repository.go:66-174 | The maps agree all through a run exactly when every scan id in it fits |
| `PendingIndex.FreshRunsAgree` | internal/repository/pending_v1_scan_repository.go:66-174 | With a fresh scan id per write the maps agree all through every run, under any expiry and failure |
| `PendingIndex.OnlyHolderFrees` | internal/repository/pending_v1_scan_repository.go:148-174 | A reservation is freed exactly by its own expiry or a release naming its scan, and is never handed to another scan |
| `PendingIndex.ReservationExcludes` | internal/repository/pending_v1_scan_repository.go:77-101 | Until it is freed, every other reserve of that owner and address is refused |
| `PendingIndex.ReserveAnswers` | internal/repository/pending_v1_scan_repository.go:77-101 | Each reply to a reserve with its cause; only a reservation of the same owner and address takes a key |
| `PendingIndex.ReserveWrites` | internal/repository/pending_v1_scan_repository.go:77-101 | What a reserve leaves in the two maps |
| `PendingIndex.ReserveSucceedsIff` | internal/repository/pending_v1_scan_repository.go:77-101 | A reserve without a fault ends with its scan on the key and its record on file exactly when the key is free or already holds them |
| `PendingIndex.ReserveAcceptedIff` | internal/repository/pending_v1_scan_repository.go:77-174 | After every run a complete reserve is accepted exactly when every earlier reservation of its owner and address has been freed |
| `PendingIndex.RecordsFollowScans` | internal/repository/pending_v1_scan_repository.go:66-163 | What puts, releases and expiries do to the records |
| `PendingIndex.VariantsShareKey` | internal/repository/pending_v1_scan_repository.go:54-56 | Letter case and surrounding spaces of an address do not matter |
| `PendingIndex.LookupNamesHolder` | internal/repository/pending_v1_scan_repository.go:121-146 | A lookup answers exactly for reserved addresses with the holding scan's record, or one rebuilt from the reservation when it has expired |
| `PendingIndex.ReserveThenLookup` | internal/repository/pending_v1_scan_repository.go:77-146 | A successful reserve is read back whole under every form of the address |
| `PendingIndex.ReleaseNeedsRecord` | internal/repository/pending_v1_scan_repository.go:148-163 | After a release the scan still holds a reservation exactly when its record had expired |
| `PendingIndex.LateReleaseBlocks` | internal/repository/pending_v1_scan_repository.go:148-163 | Reserve, expiry, release: the address stays taken; without the expiry it is free |
| `ChainExport.Validate` | internal/config/chain.go:24-46 | Accepts exactly the configurations with distinct non-blank names and distinct positive ids, and reports the first offending entry |
| `ChainExport.ChainIdByNetwork` | internal/config/chain.go:49-57 | Builds the name-to-id map |
| `ChainExport.ByNetworkOfValid` | internal/config/chain.go:24-57 | For a valid configuration the map is one-to-one and knows exactly its names |
| `ChainExport.ResolveChainIds` | internal/walletobservation/export.go:133-151 | Strictly increasing ids of the recognised networks, whatever order the seen set is read in |
| `ChainExport.ExportIgnoresOrder` | internal/walletobservation/export.go:133-151 | Order and repetition of networks do not matter |
| `ChainExport.ExportCountsNetworks` | internal/walletobservation/export.go:133-151 | Exactly one id for each distinct recognised network |
| `ChainExport.IsMultichain` | internal/walletobservation/export.go:153-166 | True for more than one id or more than one distinct trimmed non-blank name |
| `ChainExport.MultichainMeansNames` | internal/walletobservation/export.go:153-166 | For a valid configuration the names alone decide |
| `ChainExport.WalletMatchesChainId` | internal/scanapi/wallet_filter.go:17-36 | True exactly when a network is the id's decimal text or maps to the id |
| `ChainExport.FilterAgreesWithExport` | internal/scanapi/wallet_filter.go:17-36 | The list filter accepts a positive id exactly when the observation exports it or its decimal text is listed |
| `ChainExport.DecimalReadsBack` | internal/scanapi/wallet_filter.go:26 | The decimal text of an id reads back as the id, without leading zeros |
| `ChainExport.NumeralIsDecimal` | internal/scanapi/wallet_filter.go:26 | And it is the only such text |
| `WalletTarget.NormalizeWalletTargetAddress` | internal/cpstore/wallet_target.go:9-30 | Computes the reference form: lower-case 0x and the digits that the trimmed text spells, or the error |
| `WalletTarget.AcceptedSpellings` | internal/cpstore/wallet_target.go:9-30 | Accepted exactly when the trimmed text is forty hex digits, bare or after 0x or 0X, and the digits decide the form |
| `WalletTarget.SameTarget` | internal/cpstore/wallet_target.go:9-30 | Two accepted addresses share a form exactly when their digits differ at most in case |
| `WalletTarget.NormalizedIdempotent` | internal/cpstore/wallet_target.go:9-30 | A canonical address is its own canonical form |
| `WalletTarget.SpellingsAgree` | internal/cpstore/wallet_target.go:9-30 | Spaces, prefix and case do not change the form |
| `Policies.PolicyStore.CreatePolicy` | internal/cpstore/store.go:91-164 | Stores the policy exactly when the request is valid and neither its id nor a live policy of the user and wallet exists; otherwise the first error and no change |
| `Policies.FaultsSayWhy` | internal/cpstore/store.go:91-115 | Each refusal of a request with its cause, in the order of the checks |
| `Policies.CreateStores` | internal/cpstore/store.go:121-155 | A create adds one row, column by column from the request, exactly when the request is valid, its id is unused and the user has no live policy for the wallet in any tenant |
| `Policies.DeleteMarks` | internal/cpstore/store.go:184-209 | A delete marks a live row of exactly this owner and changes nothing else |
| `Policies.PolicyStore.DeletePolicy` | internal/cpstore/store.go:184-210 | Marks a live policy of exactly this owner; another owner's row is forbidden, anything else not found |
| `Policies.PolicyStore.CountPoliciesByWallet` | internal/cpstore/store.go:259-281 | Counts the owner's live policies of the canonical wallet |
| `Policies.PolicyStore.CountPoliciesByScan` | internal/cpstore/store.go:283-302 | Counts the owner's live policies of the scan |
| `Policies.UniquenessOverRuns` | internal/cpddl/migrate.go:26 | Over any run at most one live policy per user and wallet across all tenants, stored in canonical form |
| `Policies.WalletCount` | internal/cpstore/store.go:259-281 | Every wallet count is 0 or 1, and 1 exactly when the user's live policy belongs to the counting tenant |
| `Policies.CountPredictsCreate` | internal/cpstore/store.go:259-281 | A zero count promises a create exactly when no other tenant of the user holds a live policy |
| `Policies.OtherTenantIsRefused` | internal/cpstore/store.go:91-164 | After a create in one tenant the user's other tenants count zero for the wallet and are refused it |
| `Policies.ZeroCountThenRefused` | internal/cpstore/store.go:259-281 | A run from the empty table: a count of zero, then a refused create |
| `Policies.DeleteThenCreate` | internal/cpstore/store.go:91-210 | Deleting a policy makes room for a new one under any spelling and any tenant |
| `Policies.CountConservation` | internal/cpstore/store.go:283-302 | The scan count is successful creates minus successful deletes of that owner and scan |
| `Policies.UsersAreIndependent` | internal/cpstore/store.go:91-210 | A user's rows after any run are what that user's own steps alone would have made |
| `WalletListing.ListWalletScans` | internal/scanapi/handler.go:278-364 | Refuses exactly the malformed queries; otherwise the page of the matching rows at the clamped limit and offset of the request with their total, or their first completed row |
| `WalletListing.RequestsTileList` | internal/scanapi/handler.go:325-364 | Requests at successive offsets return every matching row once and in order for any limit parameter, and every one reports the length of the joined list as its total |
| `WalletListing.LatestIsOnAnswers` | internal/scanapi/handler.go:308-338 | latest finds a scan exactly when some matching row is completed, the first such row of the joined answers |
| `WalletListing.MatchingRows` | internal/scanapi/handler.go:294-336 | The matching rows are exactly the owner's rows at the address, in any letter case, that pass the chain filter |
| `WalletListing.RefusalsSayWhy` | internal/scanapi/handler.go:279-303 | Each refusal of a query with its cause |
| `WalletListing.CompletedMeansSuccess` | internal/scanapi/wallet_filter.go:13-15 | A row is completed exactly when its status is SUCCESS in any letter case between any spaces |
| `WalletListing.PageHolds` | internal/scanapi/wallet_filter.go:49-58 | The page at any offset holds the rows from there on, at most limit of them |
| `WalletListing.ClampKeepsUsable` | internal/scanapi/wallet_filter.go:60-83 | Usable parameters are taken as they are |
| `WalletListing.FindLatest` | internal/scanapi/handler.go:308-324 | The loop stops at the first completed row of the filtered list |
| `WalletListing.Paginate` | internal/scanapi/wallet_filter.go:49-58 | The slice at an offset, empty past the end |
| `WalletListing.ParsePagination` | internal/scanapi/wallet_filter.go:60-83 | Limit between 1 and 100 with 20 for anything unusable, offset never negative |
| `WalletListing.PagesTileList` | internal/scanapi/wallet_filter.go:49-58 | The pages at 0, limit, 2 limit and so on join to the whole list, with no gap or repeat, and all later pages are empty |
| `WalletListing.FilterOfConcat` | internal/scanapi/handler.go:331-336 | Filtering keeps the order of rows |
| `WalletListing.FilterKeeps` | internal/scanapi/handler.go:331-336 | Filtering keeps exactly the matching rows |
| `LockKeys.KeysCollide` | internal/repository/scan_usage_ledger_repository.go:219-237 | Two requests get one lock exactly when the first seven bytes agree and the eighth bytes agree after mixing in the kinds |
| `LockKeys.SameKindContends` | internal/repository/scan_usage_ledger_repository.go:219-237 | For one kind, exactly when the first eight bytes agree |
| `LockKeys.KindsNeverContend` | internal/repository/scan_usage_ledger_repository.go:219-237 | One user's wallet and endpoint requests never share a lock |
| `ScanState.AllowedMeansRising` | pkg/scan/state.go:21-33 | A transition to a lifecycle state is allowed exactly when it leaves a pending or running scan and raises its rank |

## Left out

- HTTP routing, authentication, JSON decoding and encoding, response writing, health probes, schema migration, configuration loading, logging and metrics.
- GORM, PostgreSQL, Redis and NATS internals: tables and keys are maps, soft delete is a flag that scoped statements skip, a database error is a flag that leaves the transaction without effect (in a wallet delete, a flag for the listing that follows it), expiry is a step of its own.
- Missing dependencies (no database, ledger, plan limits, cache or event bus configured): the model has all of them.
- `WalletWriter` and the `TryAcquire` functions: no modelled path calls them.
- Concurrency of the TLS handlers, of the under-limit INSERT and of the rollback DEL in `PutWallet`: the code takes no lock across their steps, so they are serial atomic steps here.
- The TLS cache writes and `scan.ready` messages of the TLS handlers; a reply says only that they would be sent.
- Quota actions other than none, keep and release: the endpoint admits no other.
- Delegations and wallet kind: a command carries its result after they have been filled in.
- TransitionApi.EntriesShowTerminalRows: assumes no terminal sources, as do the two theorems on observations; `TerminalSourceRewrites` shows why.
- The account kind in wallet.observed and the validation of that event: the first is a column the rows do not carry here, the second is part of an external contract and is a parameter of the exporter.
- WalletSafety.TransitionHasOneEffect: assumes that a transition id names one target and that commands move forward; `OneIdTwoTargets` and `RedeliveryMayApplyTwice` show why, and `OneEffectPerIdIff` has the exact condition from a machine at rest.
- TlsSafety.CatalogueIsLatest: assumes working replacements and completions that keep the owner and URL of a known scan; `TwoLiveDefaults` and `EarlyCompletionJoins` show why, and `SingleOverRuns` has the exact condition for a single row.
- TlsSafety.QuotaBound: assumes that no reservation adds endpoint credits outside the limit.
- A release has no kind filter, so a TLS failure would release a wallet credit with the same scan id; scan ids of the two families are assumed not to collide in the per-family theorems.
- The updated_at column of TLS rows, and host, port and the other result columns one by one: they are one posture and one handshake value.
- Case folding outside ASCII: trimming knows all Unicode white space, lowering only the ASCII letters. For wallet targets this is exact, since no other character is or becomes a hex digit.
- `NormalizePolicyPayload`, `GetPolicy` and `ListPersistedPoliciesForScan`: payload rewriting, a single-row read and a sorted page of the same rows.
- The payload of a policy is carried as one text, and challenge times are not carried.
- Parsing of `limit`, `offset`, `chain_id` and `latest` from text: the parsed values are parameters.
- The order in which the database returns rows: the list model takes the rows in the order of the query.
- PendingIndex.PendingStore.PutWallet: sets the family on its own copy of the record and not on the caller's, and takes no nil record.
