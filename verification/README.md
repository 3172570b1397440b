# Verified model of the trading system's stateful core

This project models, in Dafny, the parts of the trading system that keep state
over long runs or rest on arithmetic, and proves what they promise. The mutable
objects of the source are classes whose methods follow the source step by step;
each method is proved equal to a function on values, and the properties are
proved about those functions, over every run or every interleaving.

- `EventLog`, `EventLogRuns`, `EventLogDrain`: the durable gateway event log, a
  work queue with deduplicated append, leased claims, retry, dead letters and
  recovery. `EventLogRuns` interleaves any number of workers, with the SELECT of
  a batch claim and each guarded UPDATE as separate steps. `EventLogKeys` says
  type by type when two events share a dedupe key.
- `SnapshotChecksum`, `ReadModelStore`, `ReadModelService`, `ReadModelReads`,
  `ReadModelWrites`: the dashboard read model, a versioned store with stale-writer
  rejection, its caches, and its coalescing writer.
- `TickRules`, `FillSimulator`, `FillOutcomes`: the KRX price ladder, rounding, and
  when, at what price and to what share an order fills.
- `OrderEngine`, `OrderEngineRuns`, `OrderTriggers`: buy legs, budget, cost basis,
  and exactly which orders a price sends.
- `RealtimeRegistry`: the client's map of registered codes against the control.
- `TrCapture`, `TrPages`: the paged query capture against a server's list of pages.
- `CommandDrain`, `DrainTurns`: the gateway's command loop, what lets a command
  through, and its event ordering.
- `Common`: options and text operations.

Clocks, broker answers, rate limits and executions are parameters: arbitrary
functions of the call number, so every result holds for all of them. The
broker's control is taken to act as its interface says: `SetRealReg` with option
"0" replaces a screen's codes, with "1" adds to them, a negative result changes
nothing, and `SetRealRemove` with "ALL" reaches every screen or every code. Query
pages are delivered only once they were asked for and, at one poll, in the order
of their requests.

## Where the code does not keep a stronger promise

Each of these is a lemma: with the exact condition for all inputs, or with a
concrete input or run, and mostly with both.

- A batch claim can be stale at the moment it is made: exactly when the deadline
  of its SELECT has been reached (`ClaimIsBornStaleExactlyWhen`,
  `LateUpdateMayBeBornStale`).
- `mark_processing_result` with PROCESSING can strand a row that recovery never
  reaches (`StrandedExactlyWhen`, `WithoutDeadlineARowIsStuck`).
- Dedupe keys of event ids meet up to trailing space; order events without an
  event id meet by account, order number and execution id alone, and a colon
  inside lets different orders meet (`EventIdKeysMeetExactlyWhen`,
  `OrderEventsShareAKeyExactlyWhen`, `ColonsLetOrdersMeet`).
- A larger generation is lost when the checksum is unchanged; a save without a
  cycle count resets the floor (`GivenGenerationIsStoredExactlyWhen`,
  `CycleCountFallsExactlyWhen`).
- The dashboard's status flag stops excluding writers when a write enters beside
  a building one after another left late or a fetch of inputs failed
  (`WritesExcludeExactlyWhen`, `ExclusionCanBreak`,
  `InputFailureCanBreakExclusion`).
- Tick distances of two legs add up for a given triple exactly when the offsets
  of the three prices from their grid prices are in the right order; an off-grid
  middle can do so from a grid start, and an off-grid start too
  (`TicksAddUpExactlyWhen`, `TicksFromTheGridAddUpExactlyWhen`,
  `GridStartWithOffGridMiddle`, `OffGridLegsCanAddUp`).
- Order tags name their leg only while indices are single digits
  (`TagNamesItsLegExactlyWhen`).
- Removing a code spelled "ALL" breaks the registration mirror
  (`RemoveKeepsMirrorExactlyWhen`).
- A query page that missed its own wait is taken by a later request
  (`RequestReturnsItsOwnExactlyWhen`, `LatePageIsTakenForAnother`).
- A limit order without a price of its own is filled at the quote even when that
  is off the price grid (`LimitWithoutPriceTakesTheQuote`).

## Model

| member | source | states |
|---|---|---|
| `EventLog.EventLogRepository.AppendGatewayEvent` | storage/event_log.py:60-125 | An accepted event with a key not yet stored adds exactly one row at the end; a stored key adds nothing and returns the row that has it; a refused event changes nothing. |
| `EventLog.EventLogRepository.UpdateSelected` | storage/event_log.py:178-201 | The loop of guarded updates over the selected ids claims every one of them, touches no other row, and returns the claimed rows in selection order. |
| `EventLog.EventLogRepository.ClaimPendingEvents` | storage/event_log.py:144-201 | Alone, a batch claim takes the first `limit` due rows of the wanted types and nothing else moves: by their columns, only rows that were PENDING, or RETRY_WAIT with a retry time that is empty or has come, change, and each is claimed and returned. |
| `EventLog.EventLogRepository.ClaimEvent` | storage/event_log.py:203-237 | A direct claim takes any row that is not final, also one another worker holds; a final or missing row changes nothing. |
| `EventLog.EventLogRepository.Mark` | storage/event_log.py:239-314 | Every marking writes its columns in exactly the rows its reference names, one by id, all of them by event id, and touches no other. |
| `EventLog.EventLogRepository.RecoverStaleClaims` | storage/event_log.py:337-354 | Exactly the PROCESSING rows whose deadline is reached go back to PENDING with their claim cleared; the count returned is the size of that set, and no row is stale afterwards. |
| `EventLog.EventLogRepository.OldestOpenCritical` | storage/event_log.py:369-388 | The oldest open critical time is a lower bound of, and taken by, an open critical row; empty exactly when none is open. |
| `EventLog.EventLogRepository.CriticalBacklogSnapshot` | storage/event_log.py:356-395 | Each counter is the number of critical rows in that status, and `order_lifecycle_ready` holds exactly when no critical row is pending, retrying, processing or dead-lettered. |
| `EventLog.CriticalCountIsZero` | storage/event_log.py:378-394 | A critical status count is zero exactly when no critical row has the status. |
| `EventLog.FindByKey` | storage/event_log.py:316-322 | Finds a row with the key exactly when one is stored. |
| `EventLog.Lookup` | storage/event_log.py:498-507 | Finds the newest row that the reference names, exactly when there is one. |
| `EventLog.BacklogIsTheQuery` | storage/event_log.py:160-181 | The backlog lists exactly the due rows of the wanted types, each once, strictly ascending by (received_at, id). |
| `EventLog.AscendingIsUnique` | storage/event_log.py:160-181 | A set of rows has only one such listing, so the query has only one answer. |
| `EventLog.SelectIdsAreClaimable` | storage/event_log.py:160-193 | Every selected id is a distinct row that the re-check of the update still accepts when nobody intervened. |
| `EventLog.GuardedClaimExtends` | storage/event_log.py:182-200 | One more guarded update extends the claimed part of a batch by exactly its row. |
| `EventLog.EventIdKeysMeetExactlyWhen` | storage/event_log.py:584-587 | Two events with ids share a dedupe key if and only if the ids agree up to trailing white space (the key is stripped as a whole). |
| `EventLog.OrderEventsMeetExactlyWhen` | storage/event_log.py:597-602 | Order events without an event id share a key, for all payloads, if and only if their joined texts agree once trailing space is dropped. |
| `EventLog.OrderEventsShareAKeyExactlyWhen` | storage/event_log.py:597-602 | With no colon in account and order number: if and only if account, order number and, up to trailing space, execution id agree, whatever the event types; so an acknowledgement and a fill without execution id collide. |
| `EventLog.ColonsLetOrdersMeet` | storage/event_log.py:597-602 | The colon is not escaped: account x:y with order z and account x with order y:z share a key. |
| `EventLog.MarkedRowsAreNamed` | storage/event_log.py:239-314 | What a marking leaves in the table, row by row: the columns of its kind in the rows named by id or event, and every other row as it was. |
| `EventLog.SelectedRowsAreDue` | storage/event_log.py:160-173 | By columns only: a selected row is of a wanted type and PENDING, or RETRY_WAIT with a retry time that is empty or at most now. |
| `EventLog.DueRowsAreInTheBacklog` | storage/event_log.py:160-173 | Conversely every row that is due and wanted by those columns is in the backlog. |
| `EventLog.LaterRetriesAreNotSelected` | storage/event_log.py:166 | A RETRY_WAIT row with a later retry time is in no batch. |
| `EventLog.LeftOutOnlyByTheLimit` | storage/event_log.py:153-181 | A due and wanted row is left out only when the limit, asked or configured, is used up by rows before it by (received_at, id). |
| `EventLog.LeaseIsWhatWasAsked` | storage/event_log.py:177 | A claim is leased for the seconds asked or else configured, and never for less than one. |
| `EventLog.BatchIsOfDueRows` | storage/event_log.py:144-201 | Of a whole batch: only due and wanted rows change, each to a claim of this worker, time and deadline that is among the returned records, and rows that wait for a later retry stay. |
| `EventLog.ClaimOneIsOfTheNewest` | storage/event_log.py:203-237 | Of a direct claim: of the rows the reference names only the newest changes, exactly when it is not final, to a claim of this worker, time and deadline. |
| `EventLog.LookupIsNewest` | storage/event_log.py:498-507 | The row found is the last one the reference names. |
| `EventLog.StaleCountIsTheirNumber` | storage/event_log.py:337-354 | The recovery count is the number of PROCESSING rows whose deadline has been reached. |
| `EventLog.CriticalCountIsTheirNumber` | storage/event_log.py:356-395 | A critical counter is the number of critical rows in that status. |
| `EventLog.ReadyExactlyWhen` | storage/event_log.py:369-394 | Nothing critical is open if and only if no critical row is pending, processing or waiting for a retry, and the lifecycle is ready if and only if besides none is a dead letter. |
| `EventLogKeys.ExplicitKeysMeetExactlyWhen` | storage/event_log.py:68-70 | Explicit keys that are not blank meet if and only if they agree without outer space, whatever events come with them. |
| `EventLogKeys.BlankKeysLeaveTheId` | storage/event_log.py:68-70 | A blank explicit key leaves the event its id as key. |
| `EventLogKeys.CommandAcksMeetExactlyWhen` | storage/event_log.py:590-594 | Acknowledgements meet if and only if command and, up to trailing space, status agree. |
| `EventLogKeys.ChejansMeetExactlyWhen` | storage/event_log.py:595-596 | Chejan events of either kind meet if and only if the broker's keys agree up to trailing space. |
| `EventLogKeys.OrderFieldsAre` | storage/event_log.py:597-602 | Which payload field is the order number and which the execution id. |
| `EventLogKeys.FillsMeetExactlyWhen` | storage/event_log.py:597-602 | Fills that name their order and execution meet if and only if account, order and execution agree. |
| `EventLogKeys.ConditionsMeetExactlyWhen` | storage/event_log.py:603-609 | Condition events meet if and only if condition name and index, code and second agree, whether they include or remove. |
| `EventLogKeys.TrResponsesMeetExactlyWhen` | storage/event_log.py:610-612 | Query responses meet if and only if their command, or else their request, agrees. |
| `EventLogKeys.OtherEventsMeetExactlyWhen` | storage/event_log.py:613 | All other events meet if and only if type and identification agree: the command, or else the code, or else the second. |
| `EventLogKeys.CodesAreSixDigits` | storage/event_log.py:658-664 | A code of one to six digits is filled with zeros to six, and the A before a full one is dropped, in any case and space. |
| `EventLogKeys.CodesWithoutDigits` | storage/event_log.py:658-664 | A code without a digit keeps its letters as capitals but for an A before six others. |
| `EventLogRuns.StepOnRow` | storage/event_log.py:144-354 | What any step of any process does to one stored row, case by case: claimed, marked, recovered or left alone. |
| `EventLogRuns.BatchesAreSelected` | storage/event_log.py:144-181 | Every batch in flight has the time, worker and lease of the last SELECT of its call, and of the rows chosen there those still to be updated. |
| `EventLogRuns.UpdatesClaimDueRowsOnly` | storage/event_log.py:182-200 | Over every run, a row that a guarded update changes was PENDING, or RETRY_WAIT with a retry time that is empty or had come at its batch's time, and is claimed for that batch. |
| `EventLogRuns.UpdatesClaimExactlyTheDue` | storage/event_log.py:182-200 | Over every run, the row an update names is claimed if it is due by those columns, and stays as it is otherwise. |
| `EventLogRuns.UninterruptedBatchIsTheClaim` | storage/event_log.py:144-201 | Select and updates taken as separate steps, run without interruption, come to the one-piece claim. |
| `EventLogRuns.IdentityIsKept` | storage/event_log.py:60-125 | Over every interleaving a stored row keeps id, key, event and received_at for ever. |
| `EventLogRuns.ClaimStaysInForce` | storage/event_log.py:184-200 | Over every interleaving a batch claim stays in force until its row is marked, directly claimed, or recovered at or after its deadline. |
| `EventLogRuns.LeaseExclusivity` | storage/event_log.py:144-201 | Two batch claims of one row with no marking or direct claim between them are separated by a recovery that had reached the first one's deadline. |
| `EventLogRuns.BatchesAreLeased` | storage/event_log.py:144-159 | Every batch in flight carries a lease of at least one second. |
| `EventLogRuns.OneWorkerPerLease` | storage/event_log.py:337-354 | On one clock no row is batch-claimed by two workers inside one lease. |
| `EventLogRuns.ClaimIsBornStaleExactlyWhen` | storage/event_log.py:184-200 | Over every run a batch claim is stale at t the moment it is made if and only if the deadline computed at its SELECT is reached by t. |
| `EventLogRuns.LateUpdateMayBeBornStale` | storage/event_log.py:184-200 | A concrete run from the empty log, of two workers and a recovery between their updates, in which the second claim is stale at the recovery time. |
| `EventLogRuns.RowsStayCoherent` | storage/event_log.py:144-354 | In every reachable state a claim time or owner means PROCESSING, a retry time means PROCESSING or RETRY_WAIT, and the attempts are the number of batch and direct claims in the history. |
| `EventLogRuns.ProcessingHasDeadline` | storage/event_log.py:261-282 | Without a result marking that writes PROCESSING, every PROCESSING row has a deadline. |
| `EventLogRuns.StrandedExactlyWhen` | storage/event_log.py:509-558 | A marking leaves a PROCESSING row without deadline if and only if it is a result marking with status PROCESSING on a row with an empty retry time. |
| `EventLogRuns.WithoutDeadlineARowIsStuck` | storage/event_log.py:337-354 | Such a row is out of reach of recovery and batch claims over every run; only a marking or a direct claim moves it. |
| `EventLogRuns.FindByKeyIsTheRow` | storage/event_log.py:316-322 | With distinct keys the lookup by key returns the very row that has it. |
| `EventLogRuns.ReplayChangesNothing` | storage/event_log.py:60-125 | Replaying a stored event anywhere in a run that also claims, marks and recovers changes no row and returns the first record's row in its present state. |
| `EventLogRuns.IngestionIsIdempotent` | storage/event_log.py:60-125 | Any event sequence fed to an empty log stores exactly one row per distinct accepted key, made of its first event, in first-occurrence order with ids 1, 2, 3, ... |
| `EventLogRuns.KeyIsStoredIffSeen` | storage/event_log.py:60-125 | After an ingestion a key is stored if and only if an accepted event with that key was in the sequence. |
| `EventLogDrain.RoundFinishesItsBatch` | storage/event_log.py:144-201 | One round, a batch claim for any event types and then `mark_processed` on each claimed row, finishes exactly the selected rows. |
| `EventLogDrain.FinishingDropsHead` | storage/event_log.py:160-201 | Finishing the head of the ordered listing of waiting rows leaves exactly its rest. |
| `EventLogDrain.DrainIsCompleteAndOrdered` | storage/event_log.py:144-255 | Whatever the batch limits and the wanted types, repeated rounds past every retry time end and handle every waiting row of those types exactly once in (received_at, id) order. |
| `EventLogDrain.RecoverThenDrain` | storage/event_log.py:337-395 | From any reachable state without a PROCESSING marking: recover late enough, then drain any event types; exactly the open rows of those types are handled and end processed, every other row is as the recovery left it, and when the types cover the critical ones the lifecycle is ready if and only if no critical row was dead-lettered. |
| `SnapshotChecksum.StableIsIdempotent` | storage/dashboard_read_model.py:279-319 | The checksum normal form of any JSON tree is its own normal form. |
| `SnapshotChecksum.SameFormExactlyWhenAgree` | storage/dashboard_read_model.py:279-319 | Two trees have one normal form if and only if they differ, at any depth, in volatile keys and non-listed read_model fields only. |
| `SnapshotChecksum.HiddenEditsAreInvisible` | storage/dashboard_read_model.py:279-319 | Writing any value at any depth under a volatile key, or in a non-listed read_model field, leaves the normal form alone. |
| `ReadModelStore.ReadModelRepository.SaveSnapshot` | storage/dashboard_read_model.py:77-175 | A save is rejected, skipped or stored by the source's guards in their order; a rejected or skipped save changes nothing, a stored one holds the request's content and changes its own view only. |
| `ReadModelStore.ReadModelRepository.ReadSnapshot` | storage/dashboard_read_model.py:180-182 | A read returns the stored record of the view, or none. |
| `ReadModelStore.SaveOnView` | storage/dashboard_read_model.py:102-175 | One save never lowers a view's generation, and at an unchanged generation it keeps the checksum. |
| `ReadModelStore.HistoryIsVersioned` | storage/dashboard_read_model.py:102-175 | Over any history a view stays, its generation never decreases, and while it is the same so is the checksum. |
| `ReadModelStore.SameGenerationSameChecksum` | storage/dashboard_read_model.py:107-114 | Any two records ever stored under one view and generation have one checksum. |
| `ReadModelStore.CycleCountRises` | storage/dashboard_read_model.py:115-120 | The runtime cycle count does not fall over any stretch in which every save to the view carries a positive count. |
| `ReadModelStore.CycleCountFallsExactlyWhen` | storage/dashboard_read_model.py:106-124 | The stored cycle count falls if and only if the save carries a smaller one, one of the two is not positive, the generation is not behind or taken by another checksum, the epochs do not conflict, and the save is not an unchanged one to skip. |
| `ReadModelStore.GivenGenerationIsStoredExactlyWhen` | storage/dashboard_read_model.py:106-127 | After any save that names a generation, that is the stored one if and only if the view is new, or already has it, or has a smaller one with neither cycle count nor epoch behind and the save is not an unchanged one to skip. |
| `ReadModelStore.AgreeingSnapshotsAreSkipped` | storage/dashboard_read_model.py:100-124 | A snapshot that differs from the stored one in hidden parts only never changes the store, and is skipped as unchanged exactly when no guard rejects it. |
| `ReadModelStore.SaveStoresItsRequest` | storage/dashboard_read_model.py:96-175 | An accepted save stores the request's snapshot, time, cycle count and view, under the given or else next generation and the given checksum or else that of the normal form, and changes its own view only. |
| `ReadModelStore.ReadAfterSave` | storage/dashboard_read_model.py:77-182 | A read after an accepted save returns what was saved, and after a rejected one what was there before. |
| `ReadModelStore.SaveIsAcceptedExactlyWhen` | storage/dashboard_read_model.py:102-124 | Which of accepted, unchanged and rejected a save is, by the fields of the stored record and the request. |
| `ReadModelStore.EpochsConflictExactlyWhen` | storage/dashboard_read_model.py:322-337 | Two epochs conflict if and only if both are named and differ, and generation or cycle count is there on both sides and less on the incoming one. |
| `ReadModelStore.EpochsAndCounts` | storage/dashboard_read_model.py:325-332 | The epoch is the source's own or else the boot's; a count is its number without the fraction, or zero. |
| `ReadModelStore.MetadataMeans` | storage/dashboard_read_model.py:323-324 | The metadata of a snapshot are the fields of its read_model object, if it has one. |
| `ReadModelStore.LastAcceptedIsTheLast` | storage/dashboard_read_model.py:96-175 | The request called the last accepted one of a view was accepted, and none after it. |
| `ReadModelStore.RecordIsOfTheLastAccepted` | storage/dashboard_read_model.py:96-175 | Over any history a view's record is made of its last accepted request: snapshot, time, cycle count and checksum. |
| `ReadModelStore.ChecksumsMatchSnapshots` | storage/dashboard_read_model.py:96-101 | Where every save leaves the checksum to the repository, each stored checksum is the digest of the normal form of the snapshot stored with it. |
| `ReadModelService.DashboardReadModelService.MarkDirty` | trading_app/dashboard_read_model.py:329-337 | A mark makes the model dirty and counts coalesced signals; its reason is among the kept ones, which do not repeat and are at most twenty. |
| `ReadModelService.DashboardReadModelService.EnterWrite` | trading_app/dashboard_read_model.py:183-199 | A write enters exactly when it is forced, or dirty and due, and no other is marked running; entering takes the dirty flag and sets the running one. |
| `ReadModelService.DashboardReadModelService.RecordSaved` | trading_app/dashboard_read_model.py:298-311 | The stored record becomes the cached one, and the last write is dated by the snapshot at hand. |
| `ReadModelService.DashboardReadModelService.SaveSnapshot` | trading_app/dashboard_read_model.py:269-311 | A save with nobody in between: the repository decides; unless it rejects, the cache is what it then holds and the write is dated, and a rejection changes neither. |
| `ReadModelService.DashboardReadModelService.RecordFailure` | trading_app/dashboard_read_model.py:216-224 | A failure makes the model dirty again, leaves a failed status and counts stale rejections. |
| `ReadModelService.DashboardReadModelService.LeaveWrite` | trading_app/dashboard_read_model.py:225-228 | Leaving clears the running status, whoever set it, leaves any other status alone, and changes nothing else. |
| `ReadModelService.DashboardReadModelService.CaptureLatest` | trading_app/dashboard_read_model.py:379-383 | A read first captures the cached record if it is of the view. |
| `ReadModelService.DashboardReadModelService.FinishRead` | trading_app/dashboard_read_model.py:384-392 | A read returns the newer of captured and stored record and caches the stored one only when it is newer. |
| `ReadModelService.NewerRecordWins` | trading_app/dashboard_read_model.py:950-955 | Of captured and stored record the read returns the greater by generation, then cycle count, then snapshot time, and on a tie the captured one. |
| `ReadModelService.DashboardReadModelService.RecoverLatest` | trading_app/dashboard_read_model.py:353-358 | Recovery reads the view from the repository and caches what it holds, also nothing. |
| `ReadModelService.DashboardReadModelService.RecordForRead` | trading_app/dashboard_read_model.py:379-392 | A read with nobody in between returns the newer of the cached record of the view and the stored one. |
| `ReadModelService.DashboardReadModelService.RecordInputFailure` | trading_app/dashboard_read_model.py:736-739 | A failed fetch of inputs overwrites the writer status and touches nothing else. |
| `ReadModelReads.CachesNeverRunAhead` | trading_app/dashboard_read_model.py:298-311 | With any number of services, and capture, store read and cache update interleaved, no cache and no call in flight ever holds a generation above the stored one. |
| `ReadModelReads.StoreOnlyGrows` | storage/dashboard_read_model.py:102-175 | Over any such interleaving a stored generation never falls. |
| `ReadModelReads.FetchIsFresh` | trading_app/dashboard_read_model.py:379-392 | While a read is in flight, what it fetched is at least what was stored when it began. |
| `ReadModelReads.ReadIsFresh` | trading_app/dashboard_read_model.py:379-392 | A read returns a generation between the one stored when it began and the one stored when it ends. |
| `ReadModelReads.ReadsAreMonotone` | trading_app/dashboard_read_model.py:379-392 | A read that starts after another finished, in any service, never returns a lower generation of the view. |
| `ReadModelReads.RecordsAreNotMadeUp` | trading_app/dashboard_read_model.py:379-392 | At every moment every cached or fetched record was the stored one of its view after some earlier step. |
| `ReadModelReads.ReadReturnsAStoredRecord` | trading_app/dashboard_read_model.py:379-392 | What a read returns was, at some moment up to then, the stored record of the view it asked for. |
| `ReadModelWrites.DueWriteEnters` | trading_app/dashboard_read_model.py:183-199 | An unforced write of a dirty model that is due, or a forced one, enters when no other runs. |
| `ReadModelWrites.WriteEntersOnlyWhenDue` | trading_app/dashboard_read_model.py:183-199 | Nothing else enters. |
| `ReadModelWrites.CleanMeansWritten` | trading_app/dashboard_read_model.py:173-228 | At every moment at which the model is clean, the last entered write came after every mark and is still building or has succeeded. |
| `ReadModelWrites.NoMarkIsLost` | trading_app/dashboard_read_model.py:173-228 | Whenever the model is clean and no write is in progress, one write entered after every mark and saved its snapshot, under any interleaving with failures of writes and of their inputs. |
| `ReadModelWrites.WritesExcludeExactlyWhen` | trading_app/dashboard_read_model.py:194-228 | In every state at most one write builds, if and only if no write enters while another is building since whose entry some write left or some fetch of inputs failed. |
| `ReadModelWrites.CallsApartExclude` | trading_app/dashboard_read_model.py:173-228 | When no write enters before the previous one left, at most one builds. |
| `ReadModelWrites.ExclusionCanBreak` | trading_app/dashboard_read_model.py:216-228 | A concrete run in which a failed write, leaving late, lets two writes build at once. |
| `ReadModelWrites.InputFailureCanBreakExclusion` | trading_app/dashboard_read_model.py:736-739 | A concrete run in which a failed fetch of inputs lets two writes build at once. |
| `ReadModelWrites.WriteRateIsBounded` | trading_app/dashboard_read_model.py:185-199 | While at most one write builds, in particular when calls do not overlap, and the interval is positive, an unforced saved write carries a snapshot time at least the interval after the previous saved one. |
| `TickRules.TicksBetween` | trading/rules.py:21-33 | The cursor loop ends and returns the walk's length, or the error exactly when that exceeds 1,000,000. |
| `TickRules.TicksAreSymmetric` | trading/rules.py:21-24 | The distance is symmetric and ignores signs. |
| `TickRules.NextGridPrice` | trading/rules.py:4-18 | From a grid price one tick up is the next grid price, across every band edge. |
| `TickRules.WalkCountsGridPrices` | trading/rules.py:21-33 | From a grid price the distance is the number of grid prices in [a, b), and the cursor stops at the least grid price at or above b. |
| `TickRules.TicksAreNearlyAdditive` | trading/rules.py:21-33 | For a < b < c, on the grid or off: t(a,b) + t(b,c) - 1 <= t(a,c) <= t(a,b) + t(b,c). |
| `TickRules.TicksAddUpExactlyWhen` | trading/rules.py:21-33 | For any a < b < c, with each price's offset from its grid price: t(a,c) = t(a,b) + t(b,c) if and only if, where a's offset is below b's, c's lies above a's and not above b's, and otherwise c's does not lie above b's and not above a's. |
| `TickRules.TicksFromTheGridAddUpExactlyWhen` | trading/rules.py:21-33 | From a grid price: if and only if b is on the grid, or c is off it with an offset of at most b's. |
| `TickRules.GridStartWithOffGridMiddle` | trading/rules.py:21-33 | Concrete triples with a on and b off the grid: the legs to 2,006 add up, those to 2,005 come to one too many. |
| `TickRules.TicksAlwaysAddUpExactlyWhen` | trading/rules.py:21-33 | From a grid price the two legs add up for every end if and only if the middle price is on the grid. |
| `TickRules.WalkIsRankOfFloors` | trading/rules.py:4-33 | From any price, on the grid or off, the loop's count in closed form: grid prices from floor to floor, and one more if and only if the end lies further above its floor. |
| `TickRules.TicksAddUpWhereTheWalkLands` | trading/rules.py:21-33 | From any price they add up for every end if and only if the walk lands on the middle price. |
| `TickRules.OffGridLegsCanAddUp` | trading/rules.py:21-33 | A concrete off-grid start and middle where they do. |
| `TickRules.HigherArrivesSooner` | trading/rules.py:21-33 | A cursor that starts higher needs no more steps to any end. |
| `TickRules.WalkFromGridIsRank` | trading/rules.py:4-33 | From a grid price the loop's count is the difference of closed-form ranks. |
| `TickRules.GuardNeverFiresBelow` | trading/rules.py:29-32 | The guard never fires for prices up to 993,700,000, and measured from zero that bound is exact. |
| `TickRules.IsWithinTicks` | trading/rules.py:36-39 | True exactly for positive prices at most the threshold apart; the guard error exactly when the distance exceeds it. |
| `TickRules.OrderQuantity` | trading/rules.py:42-45 | The greatest quantity whose cost fits the weighted share of the budget. |
| `TickRules.TakeProfitQuantity` | trading/rules.py:59-63 | The greatest whole quantity within the percentage of the holding, but at least one and at most all of it; zero when nothing is to be sold. |
| `FillSimulator.RoundDownIsGreatest` | trading_app/fill_simulator.py:213-223 | For prices >= 1 rounding down gives the greatest grid price at or below. |
| `FillSimulator.RoundUpIsLeast` | trading_app/fill_simulator.py:213-223 | For prices >= 1 rounding up gives the least grid price at or above, also when that is the first price of the next band. |
| `FillSimulator.RoundToTickMeans` | trading_app/fill_simulator.py:213-223 | By side and direction the result is the nearest grid price below or above, and none for a price of zero or less. |
| `FillSimulator.RoundingIsIdempotent` | trading_app/fill_simulator.py:213-223 | Rounding a rounded price changes nothing. |
| `FillSimulator.RoundingIsMonotone` | trading_app/fill_simulator.py:194-223 | Rounding keeps the order of prices across all bands. |
| `FillSimulator.DirectionsDifferByATick` | trading_app/fill_simulator.py:194-223 | The two directions differ by zero, exactly on the grid, or by one tick of the price's band. |
| `FillSimulator.LaddersAgree` | trading_app/fill_simulator.py:194-210 | The simulator's ladder and the one of trading/rules.py are the same. |
| `FillSimulator.SortTicksSorts` | trading_app/fill_simulator.py:76 | Ticks are put in time order and none is lost. |
| `FillSimulator.SortTicksIsStable` | trading_app/fill_simulator.py:76 | Ticks of one time keep the order in which they came. |
| `FillSimulator.FirstTickAtOrAfter` | trading_app/fill_simulator.py:399-406 | Of the ticks with the least time at or after the target, the first to come; none exactly when there is none. |
| `FillSimulator.LatestTickAtOrBefore` | trading_app/fill_simulator.py:409-417 | Of the ticks with the greatest time at or before the target, the last to come; none exactly when there is none. |
| `FillSimulator.FillPrice` | trading_app/fill_simulator.py:265-291 | The price chosen step by step from quote, last price and cap is the specified one. |
| `FillSimulator.Observe` | trading_app/fill_simulator.py:76-79 | The observed tick, in the order of the input: the first of the nearest time at or after the target, else the last of the nearest time before it. |
| `FillSimulator.FillRatio` | trading_app/fill_simulator.py:294-335 | The ratio and its reason, adjusted step by step, are the specified ones. |
| `FillSimulator.LargerOrdersFillNoBetter` | trading_app/fill_simulator.py:294-335 | On one tick a larger order never fills to a larger share, and every share of an order with an amount is between 0.05 and 1. |
| `FillSimulator.SimulateFill` | trading_app/fill_simulator.py:52-191 | The simulation decides on the observed tick by the specified rules, in their order, with price, slippage, fill ratio, partial flag and reasons. |
| `FillSimulator.FillAt` | trading_app/fill_simulator.py:93-191 | The step-by-step decision on the observed tick is the specified outcome. |
| `FillSimulator.LimitFillIsSandwiched` | trading_app/fill_simulator.py:93-191 | A filled limit order with its own price pays between the touched quote and its rounded limit (a sale receives between limit and touch), so slippage is never positive. |
| `FillSimulator.LimitFillIsTheNearestGridPrice` | trading_app/fill_simulator.py:265-291 | With price and quote >= 1 the fill is the grid price nearest to the quote on the order's side. |
| `FillOutcomes.ObservedIsNearest` | trading_app/fill_simulator.py:399-417 | The observed tick has the least time at or after the target or, where none is as late, the greatest; there is none exactly without target or times. |
| `FillOutcomes.MarketOrderIsFilledExactlyWhen` | trading_app/fill_simulator.py:93-191 | A market order is filled if and only if its tick is not too old and the quote of the other side, or else the last price worsened by its tick, is there and positive. |
| `FillOutcomes.MarketOrderPays` | trading_app/fill_simulator.py:265-291 | It pays the least grid price at or above that reference, or receives the greatest at or below it. |
| `FillOutcomes.MarketOrderTakesTheQuote` | trading_app/fill_simulator.py:274-291 | With a quote of at least 1: a market buy pays the ask, a market sale receives the bid, each moved to the grid against the order. |
| `FillOutcomes.MarketOrderNeverSlipsInItsFavour` | trading_app/fill_simulator.py:265-291 | A market order without a price of its own, measured against its quote, never has negative slippage. |
| `FillOutcomes.SlippageMeans` | trading_app/fill_simulator.py:355-360 | Slippage is the difference against the order in ten thousandths of the price asked: positive exactly when the order did worse, negative exactly when it did better. |
| `FillOutcomes.AmountMeans` | trading_app/fill_simulator.py:389-396 | The amount is the one the order names, else quantity times price asked, else none. |
| `FillOutcomes.FillIsMeasured` | trading_app/fill_simulator.py:154-191 | Requested price, slippage, share and the partial flag of every fill belong to the price it pays and the amount it is of. |
| `FillOutcomes.LimitOrderIsFilledExactlyWhen` | trading_app/fill_simulator.py:130-164 | A limit order with its own price is filled if and only if its tick is not too old, quote or last price has reached its rounded price, and the price it trades against is positive. |
| `FillOutcomes.LimitWithoutPriceTakesTheQuote` | trading_app/fill_simulator.py:130-191 | A limit order without a price is filled at the quote itself, on the grid or not, without slippage. |
| `FillOutcomes.NothingFillsOnAnOldTick` | trading_app/fill_simulator.py:129-139 | Without a tick, or on one too old, nothing is filled, for that reason. |
| `FillOutcomes.ShareFallsInSteps` | trading_app/fill_simulator.py:309-320 | On an ordinary tick the share is 1, 0.95, 0.75, 0.35 or 0.1 as the amount is at most 0.5, 1, 3, 10 percent of the traded value, or more. |
| `FillOutcomes.ShareIsAdjusted` | trading_app/fill_simulator.py:303-335 | By how much strength, spread and a market order move that share, between 0.05 and 1, and where it starts without a traded value. |
| `OrderEngine.TradingEngine.OnPrice` | trading/engine.py:161-170 | One price event is: record it, alert on a new stop-loss breach, then buy triggers, then take profit; a distance check that raises cuts it short and leaves what was done; an unknown code changes nothing. |
| `OrderEngine.TradingEngine.HandleStopLoss` | trading/engine.py:235-244 | One alert per fall to the stop loss, armed again when the price recovers; no order is sent. |
| `OrderEngine.TradingEngine.SendOrder` | kiwoom/client.py:272-296 | Each order sent gets exactly one result, handled before the call returns. |
| `OrderEngine.TradingEngine.OnOrderResult` | trading/engine.py:246-265 | The result of a buy moves the leg its tag names to UNFILLED or back to WAITING. |
| `OrderEngine.TradingEngine.HandleBuyTriggers` | trading/engine.py:172-206 | The loop over the legs sends the specified orders and leaves the specified legs, up to the first leg whose distance check raises. |
| `OrderEngine.TradingEngine.TriggerOneLeg` | trading/engine.py:182-206 | One leg: passed over, put to WATCHING, or one order sent; it raises exactly when the price is more than the guard of ticks away. |
| `OrderEngine.TradingEngine.HandleTakeProfit` | trading/engine.py:208-233 | The take-profit sale sends one order of the specified share and marks the profit taken, or does nothing. |
| `OrderEngine.TradingEngine.OnExecution` | trading/engine.py:267-298 | An execution notes its order number, moves holding and average, and fills the leg it belongs to. |
| `OrderEngine.LegFromEvent` | trading/engine.py:309-320 | An execution belongs to the leg its tag names, else to the first with its order number, else to the first in flight, and to none exactly when there is no such leg. |
| `OrderEngineRuns.TagNamesItsLegExactlyWhen` | trading/engine.py:300-307 | An order tag leads back to its leg if and only if the leg's index is a single digit. |
| `OrderEngineRuns.RefusingLegTenReopensLegOne` | trading/engine.py:300-307 | Refusing leg 10's order puts leg 1 back to WAITING, whatever it had. |
| `OrderEngineRuns.TriggerOutcome` | trading/engine.py:182-206 | Triggering a leg sends nothing, or one order whose answer leaves the leg UNFILLED or WAITING. |
| `OrderEngineRuns.PlausiblePricesRunThrough` | trading/engine.py:182-206 | With prices and targets up to 993,700,000 no distance check raises, so every leg gets its turn. |
| `OrderEngineRuns.OrderFitsShare` | trading/rules.py:42-45 | Each leg order costs at most its weight's share of the budget. |
| `OrderEngineRuns.StepKeepsSafe` | trading/engine.py:161-298 | Every step keeps the invariant: a leg without an order has no accepted buy, a leg with one has at most one, and accepted buys cost at most the shares of legs with orders. |
| `OrderEngineRuns.RunKeepsSafe` | trading/engine.py:161-298 | That invariant holds after any run, and no run changes budget, weights or targets. |
| `OrderEngineRuns.BudgetIsNeverExceeded` | trading/engine.py:138-206 | Over any run of prices, in-call results and executions each leg has at most one accepted buy order, and all accepted buys of an item cost at most its budget. |
| `OrderEngineRuns.OrdersKeepToTheirTerms` | trading/engine.py:182-206 | Every buy order a run sends is made of one leg's fixed tag, target price and weighted quantity. |
| `OrderEngineRuns.HoldingNeverNegative` | trading/engine.py:267-298 | From flat, under any executions, the holding is never negative and a zero holding has a zero average. |
| `OrderEngineRuns.BuyKeepsCost` | trading/engine.py:276-284 | A buy preserves cost: average times holding grows by price times quantity. |
| `OrderEngineRuns.AverageIsWithinBuyPrices` | trading/engine.py:276-292 | While something is held, the average lies between the least and greatest buy price since the holding was last zero. |
| `OrderEngineRuns.HoldingFollowsExecutions` | trading/engine.py:161-298 | In the engine, holding and average of an item are those of its executions alone, whatever prices, orders and other items do in between. |
| `OrderTriggers.LegSendsExactlyWhen` | trading/engine.py:182-206 | An idle leg with weight and target sends one order of its own terms if and only if legacy live orders are allowed, its target lies at most max(0, threshold) ticks from the positive price, and the check does not raise. |
| `OrderTriggers.LegEndsAs` | trading/engine.py:182-206 | How it ends: UNFILLED or, refused, WAITING; WATCHING if it was looked at and did not fire; unchanged if it was not looked at. |
| `OrderTriggers.LegsSendExactlyWhen` | trading/engine.py:182-206 | Of all legs, each that fires before the first check that raises sends exactly one order with its tag, and no other sends any. |
| `OrderTriggers.LegsRunThroughExactlyWhen` | trading/engine.py:182-206 | The loop runs through if and only if no check raises. |
| `OrderTriggers.PriceStepsSendExactlyWhen` | trading/engine.py:161-206 | At every price step of every run: a leg sends one order if and only if ordering, automatic buying and account are on, the item is valid, the leg fires at that price and no check before it raises. |
| `OrderTriggers.BuysAreOfFiringLegs` | trading/engine.py:161-206 | Over every run, every buy order is sent at a price step with those gates open, for a leg of the priced item whose target is within its threshold, with that leg's tag, price and quantity. |
| `OrderTriggers.ProfitIsTakenExactlyWhen` | trading/engine.py:208-233 | The profit is taken by one sale if and only if the switches are on, something is held and not sold yet, and price over average reaches the rate. |
| `OrderTriggers.PriceStepSellsExactlyWhen` | trading/engine.py:161-233 | At every price step of every run the sale follows the buys exactly under those conditions, unless a check raised, and no other order is a sale. |
| `OrderTriggers.ItemIsValidExactlyWhen` | trading/engine.py:138-154 | What makes an item valid, field by field; each weighted leg's share can pay its target. |
| `OrderTriggers.AlertsExactlyWhen` | trading/engine.py:235-244 | After a price step the code is on alert if and only if the price is there and at or below a positive stop loss; no other code's alert moves. |
| `OrderTriggers.AnswerMovesItsLeg` | trading/engine.py:246-265 | The answer to a leg's order moves that leg to UNFILLED or WAITING and nothing else of the item. |
| `OrderTriggers.AcknowledgementNotesItsNumber` | trading/engine.py:267-280 | An execution without a fill notes the order number on its leg, which comes to life if it was just sent; without a number nothing changes. |
| `OrderTriggers.FillMovesItsLeg` | trading/engine.py:267-292 | A fill adds to its own leg, which is FILLED exactly when nothing remains; every other leg stays. |
| `OrderTriggers.ExecutionMovesHolding` | trading/engine.py:267-298 | What a sale, a buy and an execution without fill do to holding and average. |
| `RealtimeRegistry.KiwoomClient.RegisterRealtime` | kiwoom/client.py:147-165 | The loop over chunks of a hundred is the specified registration, up to the first refused chunk. |
| `RealtimeRegistry.KiwoomClient.RegisterOne` | kiwoom/client.py:151-165 | One chunk: option "1" if the screen has codes, else "0"; only an accepted chunk enters the local map. |
| `RealtimeRegistry.KiwoomClient.RemoveRealtime` | kiwoom/client.py:167-182 | The loop over codes, and over screens for "ALL", is the specified removal at both sides. |
| `RealtimeRegistry.KiwoomClient.RemoveAllRealtime` | kiwoom/client.py:184-186 | Both sides are empty afterwards. |
| `RealtimeRegistry.RegisterKeepsMirror` | kiwoom/client.py:147-165 | A registration keeps the mirror also when a chunk fails half way, and no code is lost at the control. |
| `RealtimeRegistry.RegisterDropsNothing` | kiwoom/client.py:154-156 | No call of a registration, in particular none with option "0", takes a live code off its screen. |
| `RealtimeRegistry.RegisterCovers` | kiwoom/client.py:147-165 | After a successful registration every non-empty requested code is registered at the control on the screen of its chunk. |
| `RealtimeRegistry.RegisterCallsInChunks` | kiwoom/client.py:151-163 | Each call carries 1 to 100 codes and, on success, the calls together carry exactly the requested codes in order. |
| `RealtimeRegistry.RemoveOnScreen` | kiwoom/client.py:167-182 | Screen by screen, what a removal takes off at the client and at the control. |
| `RealtimeRegistry.RemoveKeepsMirrorExactlyWhen` | kiwoom/client.py:167-182 | From a mirrored state a removal keeps the mirror if and only if no code is spelled "ALL", or no targeted screen holds a code outside the list. |
| `RealtimeRegistry.NoLiveCodeIsDropped` | kiwoom/client.py:147-186 | Over any sequence of calls the client knows of every registered code, and no registration ever took a live code off. |
| `RealtimeRegistry.LocalMapMirrorsControl` | kiwoom/client.py:147-193 | Over any sequence of calls that removes no code spelled "ALL", the local map and the control agree screen by screen. |
| `RealtimeRegistry.OptionMeans` | kiwoom/client.py:151-165 | Each call carries option "0" exactly when the client knows of no code on its screen and "1" otherwise, and what an accepted call leaves there. |
| `RealtimeRegistry.ScreensAreApart` | kiwoom/client.py:151-153 | Without a screen of its own every chunk has its own screen, from 5000 on. |
| `RealtimeRegistry.EachScreenItsHundred` | kiwoom/client.py:147-165 | A list accepted without a screen of its own leaves, on a screen that was empty, exactly its k-th hundred codes on the k-th screen. |
| `RealtimeRegistry.NonEmptyKeepsOrder` | kiwoom/client.py:148 | Leaving out empty codes keeps the others in order. |
| `RealtimeRegistry.RemovalIsOfItsScreen` | kiwoom/client.py:167-182 | A removal that names a screen takes the codes off that one only, and without a name, or under ALL, off every screen, at both sides. |
| `TrCapture.Runner.RequestPage` | kiwoom/tr.py:170-213 | A request returns what its wait takes: nothing if it was refused or nothing was delivered in time, else the last page of the first poll that delivers any, whosever it is; refusal, timeout and response error are recorded. |
| `TrCapture.RequestReturnsItsOwnExactlyWhen` | kiwoom/tr.py:170-213 | An accepted request returns its own page if and only if that is delivered in time and nothing before it, and another request's page if and only if one is delivered before its own. |
| `TrCapture.CaptureIsItsOwnExactlyWhen` | kiwoom/tr.py:119-168 | The pages of a capture are its own requests' pages if and only if none of its waits was overtaken by an earlier request's page. |
| `TrCapture.LatePageIsTakenForAnother` | kiwoom/tr.py:119-213 | A concrete schedule in which a page that missed its own wait ends the next capture as its complete answer. |
| `TrCapture.Runner.HandleTrData` | kiwoom/tr.py:321-339 | A page that arrives with no active request is kept without any field or row; the next request discards it. |
| `TrCapture.Runner.RequestCapture` | kiwoom/tr.py:119-168 | A capture asks with flags 0, 2, 2, ..., keeps what its waits take, and stops at a page that announces no more (complete), at the page limit or at the first fault, with the matching warnings. |
| `TrCapture.CaptureIsTheServersList` | kiwoom/tr.py:119-168 | With every request answered by its own page and a list of n pages, the rows are those of the first min(n, max) pages, and `complete` holds if and only if n <= max. |
| `TrCapture.EndlessListIsCut` | kiwoom/tr.py:141-168 | A list without end is cut at the limit and never complete. |
| `TrCapture.FaultLeavesThePrefix` | kiwoom/tr.py:155-168 | A fault at request k leaves exactly the k pages before it, one request more, and no completeness. |
| `TrCapture.CollectRows` | kiwoom/tr.py:38-43 | The rows are the pages' rows, one page after the other. |
| `TrCapture.MergedSingle` | kiwoom/tr.py:49-56 | Each key of any page is there with its last non-empty value, or empty if it never had one. |
| `TrCapture.MergeInto` | kiwoom/tr.py:51-55 | Merging one page's fields, in whatever order they come, is one update of the map. |
| `TrPages.MoreExactlyWhen` | kiwoom/tr.py:159-161 | More pages are announced if and only if the flag is a 2 with nothing but space around. |
| `TrPages.PageIsFaultlessExactlyWhen` | kiwoom/tr.py:170-213 | No error is recorded if and only if the request was accepted, its page came, and the error code is blank or a 0 with space around. |
| `CommandDrain.GatewayRuntime.DrainRealCommands` | apps/kiwoom_gateway.py:999-1106 | The drain loop ends on every finite queue and is the specified sequence of turns. |
| `CommandDrain.GatewayRuntime.Reject` | apps/kiwoom_gateway.py:1021-1046 | A rejection acknowledges the command once and executes nothing; blocked order commands are counted. |
| `CommandDrain.GatewayRuntime.Execute` | apps/kiwoom_gateway.py:1047-1106 | An execution is announced, made at most once, and closed by one acknowledgement or one failure. |
| `CommandDrain.CommandsAreConserved` | apps/kiwoom_gateway.py:999-1106 | Over any number of receipts and turns, received = queued + resolved as multisets, each resolved command has one final event, and the executions are, in order, exactly the resolved commands that were neither rejected nor failed before the client was called. |
| `CommandDrain.TurnResolvesItsHead` | apps/kiwoom_gateway.py:1001-1106 | A rate-limited command goes to the back of the queue unresolved; every other head is resolved exactly once and leaves the queue. |
| `CommandDrain.RunExecutesRightly` | apps/kiwoom_gateway.py:1006-1024 | No command is executed in a turn in which the limiter held it back or the pilot transport rejected it, and no turn executes twice. |
| `CommandDrain.DrainTakesAFrontPart` | apps/kiwoom_gateway.py:999-1022 | One call resolves the front part of the queue in order and stops with nothing left or with the limited command at the back. |
| `CommandDrain.FrontEndsAtTheLimited` | apps/kiwoom_gateway.py:1005-1022 | That front part ends at the first command the limiter holds back. |
| `CommandDrain.DrainIsARunOfTurns` | apps/kiwoom_gateway.py:999-1106 | A call is so many turns in a row, so the laws of all runs of turns hold of all runs of calls. |
| `CommandDrain.PilotOrdersNeedSimulation` | apps/kiwoom_gateway.py:1440-1466 | On the pilot transport an order is executed only if the policy lets orders through and the account is known to be a simulation, with no heartbeat field saying REAL. |
| `DrainTurns.NothingIsRejectedExactlyWhen` | apps/kiwoom_gateway.py:1440-1466 | A command is let through if and only if the transport is not pilot; or it is an order, the policy allows and does not block orders, and the account is known to be a simulation; or it is another command and the policy, if there is one, lists it. |
| `DrainTurns.PayloadSays` | apps/kiwoom_gateway.py:748-770 | What a payload says of the account: real if some field does, simulation if none says real and some says simulation. |
| `DrainTurns.TurnExecutesExactlyWhen` | apps/kiwoom_gateway.py:999-1106 | At every turn of every run: held back, the head goes to the back; otherwise it leaves the queue and is executed if and only if it is let through and the execution is made. |
| `DrainTurns.TurnTellsItsOutcome` | apps/kiwoom_gateway.py:1001-1106 | The events of each turn: the wait; or a rejected acknowledgement with a reason; or the start and then an acknowledgement with the returned status, or a failure when something raised, to be retried exactly for what is no order. |
| `DrainTurns.BlockedOrdersAreCounted` | apps/kiwoom_gateway.py:1021-1046 | The count of blocked orders rises exactly when an order is neither held back nor let through. |
| `DrainTurns.OrdinaryTransportExecutesAll` | apps/kiwoom_gateway.py:1440-1452 | Off the pilot transport every command that is not held back is executed, unless its execution cannot be made. |
| `CommandDrain.NothingGoesBeforeControl` | apps/kiwoom_gateway.py:447-450 | No event of another kind is sent before a control event of its batch. |
| `CommandDrain.ControlEventsGoFirst` | apps/kiwoom_gateway.py:447-450 | Outgoing batches put control events first, keep the order within both kinds, and lose and gain nothing. |

## Left out

- Event log columns that no operation reads (source, command, code, trade date, handler, result, payload JSON) are omitted; row ids are positions, since ids are AUTOINCREMENT and nothing is deleted.
- Empty event types in a claim's filter, which the source drops first, are not in the set of wanted types.
- Rollback of a half-done batch claim on a crash, and the insert race that the unique key resolves, are folded into atomic appends and per-row updates.
- A digit-only text as an event id, which the source reads as a row number, is not distinguished: references are by id or by event id.
- Times are integers and the one-second bucket of an event comes with the event; date parsing and formatting are not modelled.
- White space and letter case are those of ASCII.
- `pending_gateway_events` and `event_log_snapshot` would add easy members only.
- Digests are an arbitrary function of the normal form; nothing is said of collisions or of JSON text. Epoch ids that are not text, and counters that are not integers, read as absent.
- The in-memory mode of the dashboard service, its metadata, banners, duration metrics and `build_from_runtime` are not modelled.
- What `DashboardReadModelWriter` fetches before a write is entered is not modelled, only that the fetch can fail; freshness here is relative to the entry.
- Weights, averages, ratios and prices are `real`: float rounding and `round(x, 4)` are not modelled.
- Latency extraction, the skipped results' descriptive fields and the reports of the fill simulator are not modelled.
- `modify_leg_order`, `cancel_leg_order` and item edits change targets in mid-run and lie outside the budget claim; broker results arrive inside the sending call only.
- TrCapture.Runner.RequestCapture: does not model field extraction and repeat counts, because a page is delivered with the rows it has; `request_pages`, which has no page bound, is left out.
- CommandDrain.GatewayRuntime.DrainRealCommands: exceptions of the event sink and of the blocked-order recorder are not modelled; what each command does at the client is not part of this model.
- The control's text protocol (codes joined by semicolons, field lists) is not modelled; codes are separate texts.
- Condition search, Chejan fields, reason tables, reports, audit tools, CLIs, settings, the outbox and the cash risk limits would add easy members only.
