# Workstation: a model of the run protocol and its companions

This project models, in Dafny, the parts of the workstation crates whose correctness is an argument
rather than a table, and proves what they are for.

**Durable runs** (`Durable`, `DurableLog`, `DurableStore`, `DurableHistory`, `DurableGuards`,
`DurableRuntime`, `DurableSupervision`, `DurableTicks`, `DurableEnding`). A run is a revisioned record that
is the fold of a bounded event log. Supervisors, cancellers, reconcilers and recovery scanners change it
concurrently, each change one atomic transaction on the tables. `Durable` is the step function and the
in-place record, `DurableLog` reads a log as history, `DurableStore` holds the tables and their transactions,
`DurableHistory` proves what every interleaving of transactions keeps, and `DurableGuards` says exactly when
each transaction is accepted and what it stores. `DurableRuntime` is the per-process monitor,
`DurableSupervision` puts a monitor among other processes and follows its stop decision, `DurableTicks` says
exactly what a tick, a reply and a message lead to, and `DurableEnding` goes on to the stored end and to recovery.

**Messages** (`Wire`, `Frames`, `External`, `Rpc`, `TurnCorrelation`, `Requests`). Frames with a
`Content-Length` header in the style of the "Base Protocol" part of the Language Server Protocol 3.17, and
newline-delimited JSON, are reassembled from arbitrary chunks; replies and turn completions are correlated
over one stream. `Frames` and `Requests` say what the decoder and a request accept without their code.

**Path overlap** (`WorkspacePolicy`, `Ordering`). An ordered-set lookup stands in for comparing every pair of
paths, and conflict rows are justified, complete and independent of the order of the roster.

**Journal archive** (`JournalArchive`, `JournalHistory`, `JournalRetention`). Settled plans, receipts and
steps move into pack files, leaving markers; reading them back gives the original texts in every reachable
state, unless an unarchived text itself looks like a marker. `JournalRetention` says what stays and what goes.

**Forecasts and choices** (`Forecast`, `Runways`, `Models`, `Discovery`, `Recommendations`, `UsageImport`).
Burn rates over windows of the longest comparable run of samples and the runway they leave, the quality and
cost frontier, greedy recommendations, exact decimal money and disjoint cost buckets.

`Prelude`, `Control`, `Text` and `Json` hold the shared vocabulary.

## Conventions

The JSON codec is a pair of functions assumed to be faithful: parsing undoes rendering, a newline behind the
text included, and a rendered value is one line. It is a parameter, not an axiom, and so is SHA-256, assumed
injective. Time is an argument of every step. Floating-point numbers
are exact reals, and the exponential weight of the forecast is any positive function. Strings are compared by
code point, which is the order of their UTF-8 bytes. SQL transactions are atomic steps on maps, and a fault
rolls back to the old tables. `prepared` and `original` are history variables that no operation reads.

Where a promise fails on some inputs the code is kept as it is, the exact condition is proved, with a
witness where the condition does not make one plain:

- a cancellation or claim sent through the general event entry point: `ColumnAgreesUnlessStray`,
  `ClaimsMatchUnlessStray`, `StrayCancelIsReachable`, `StrayClaimIsReachable`;
- a cancellation between the final read and the recorded end: `EndIsRecorded`, `LateCancelIsMissed`,
  `LateCancelIsReachable`;
- a recovery pass over an old listing: `StaleRecoveryErasesExit`, `RecoveryAmidErasesExit`,
  `FreshRecoverySparesTheEnded`, `StaleRecoveryIsReachable`;
- several early completions: `OnlyTheLastIsKept`, `EarlyCompletionSettles`;
- headers that end at the limit: `ArrivalMattersOnlyAtTheLimit`;
- journal payloads with the marker key: `FreshTextReadsBack`, `LogicalHistoryUnchanged`;
- completions that carry an identifier: `AnswerIsFirstArrival`, `IdentifiedCompletionIsLost`;
- samples that share the latest time: `SampleOrderIsIrrelevant`, `DifferingTiesMatter`;
- decimals whose intermediates overflow: `DecimalIsExact`, `IntermediateOverflow`.

## Model

| member | source | states |
|---|---|---|
| `Durable.RunCell.Transit` | crates/workstation-core/src/durable.rs:277-372 | each event arm changes the record in place to what the step function gives, or refuses and leaves the record alone |
| `Durable.RunCell.ApplyEvent` | crates/workstation-core/src/durable.rs:271-379 | the whole in-place step, clock and overflow checks included, is the step function the history lemmas fold |
| `Durable.CodexTurnStatus` | crates/workstation-core/src/durable.rs:390-423 | a status is reported only for a turn listed exactly once on the right thread; a second listing is refused whatever the statuses, and every error case is characterised both ways |
| `DurableLog.RecordMeaning` | crates/workstation-core/src/durable.rs:271-379 | the fold of an accepted log answers, field by field, what declarative queries over the log answer: newest claim, newest transport event, settled status since the claim, cancellation before release, and so on |
| `DurableLog.ProviderMeaning` | crates/workstation-core/src/durable.rs:281-331 | the provider state is the settled status known since the claim, else the signs of life since then |
| `DurableLog.CancelMeaning` | crates/workstation-core/src/durable.rs:350-354 | the cancel flag is set exactly when a cancellation was asked for before the owner let go |
| `DurableLog.RunsOnlyExtend` | crates/workstation-core/src/durable.rs:271-379 | over any accepted continuation: execution, supervisor, session and turn ids are write-once, flags never clear, time never decreases, and a claimed run's terminal provider state is final |
| `DurableLog.CompletedStates` | crates/workstation-core/src/durable.rs:168-216 | a claimed run whose provider completed only ever derives AwaitingVerification, CancelRequested, Verified or VerificationFailed |
| `DurableLog.SingleClaim` | crates/workstation-core/src/durable.rs:281-292 | no log ever holds two claims, and a claimed start admits none |
| `DurableLog.BindingsStay` | crates/workstation-core/src/durable.rs:297-316 | every session or turn ever bound is the one the record names at the end |
| `DurableStore.Store.UpdateRun` | crates/workstation-platform/src/durable_store.rs:34-50 | the budget check, the event step and the two table writes are one transition: all or nothing |
| `DurableStore.Store.DurablePrepare` | crates/workstation-platform/src/durable_store.rs:86-163 | a prepared row starts the log empty, inside the run budget, or nothing changes |
| `DurableStore.Store.DurableBegin` | crates/workstation-platform/src/durable_store.rs:164-200 | the claim event and the effect reservation commit together or not at all |
| `DurableStore.Store.DurableEvent` | crates/workstation-platform/src/durable_store.rs:241-265 | absorbed events leave everything as it was, progress respects the reserve, everything else is the update transition |
| `DurableStore.Store.DurableHeartbeat` | crates/workstation-platform/src/durable_store.rs:266-292 | a heartbeat touches only the heartbeat column, for the owning supervisor, and never moves time back |
| `DurableStore.Store.DurableCancel` | crates/workstation-platform/src/durable_store.rs:293-313 | a cancel at the expected revision stores one cancellation and its column, is skipped after release or a first cancel, and otherwise changes nothing |
| `DurableHistory.StepKeepsInv` | crates/workstation-platform/src/durable_store.rs:86-313 | every transaction, refused or not, keeps the invariant that ties rows, logs, claims and the cancel column together |
| `DurableHistory.RecordsAreTheirLogs` | crates/workstation-platform/src/durable_store.rs:22-50 | after any interleaving of steps of any callers each stored record is the fold of its stored events from the prepared record up to the heartbeat, revision = sequence = number of events, events are numbered 1..n, and the cancel column agrees with the payload and the log |
| `DurableHistory.CancelWinsOverDeadline` | crates/workstation-platform/src/durable_store.rs:247-251 | in every reachable log deadlines and claims precede the cancellation, and there is at most one cancellation |
| `DurableHistory.AtMostOnceClaim` | crates/workstation-platform/src/durable_store.rs:164-200 | at most one claim per log, and an effect row for a continuation run exists exactly when the log holds the claim with that execution id |
| `DurableHistory.CancelledBeforeClaimStays` | crates/workstation-core/src/durable.rs:168-172 | a run cancelled before its claim reports Cancelled in every later state and never gets an effect row |
| `DurableHistory.BudgetIsReserved` | crates/workstation-platform/src/durable_store.rs:34-38 | the log never exceeds the budget, progress stays below the reserve, and while fewer than 64 non-progress events are stored no event or cancel is refused for budget |
| `DurableHistory.RunsGrow` | crates/workstation-platform/src/durable_store.rs:164-313 | across any later steps of anyone a run's log is only appended to and its record only extends |
| `DurableHistory.EventAccepted` | crates/workstation-platform/src/durable_store.rs:34-50 | on good tables an event that leaves its mark is accepted exactly when the log has room and the clock has not gone back, plus an unclaimed run for a claim and a proper state and code for an end |
| `DurableHistory.ColumnAgreesUnlessStray` | crates/workstation-platform/src/durable_store.rs:241-265 | the cancel column agrees after an event exactly unless the event is a cancellation of an open, uncancelled run with room in its log, which is why cancelling is a transaction of its own |
| `DurableHistory.StrayCancelIsReachable` | crates/workstation-platform/src/durable_store.rs:241-265 | a concrete sequence from the empty tables after which the column disagrees |
| `DurableHistory.ClaimsMatchUnlessStray` | crates/workstation-platform/src/durable_store.rs:241-265 | claims and effect rows still match after an event exactly unless the event is a bare claim of an unclaimed run with room in its log |
| `DurableHistory.StrayClaimIsReachable` | crates/workstation-platform/src/durable_store.rs:241-265 | a concrete sequence from the empty tables after which a claim has no effect row |
| `DurableGuards.CancelIsExact` | crates/workstation-platform/src/durable_store.rs:293-313 | a cancel changes the tables exactly for a listed, open, uncancelled run at the expected revision with room in its log; a stale revision answers the conflict, a released or cancelled run is skipped, and what is stored is spelled out |
| `DurableGuards.HeartbeatIsExact` | crates/workstation-platform/src/durable_store.rs:266-292 | a heartbeat is taken exactly from the supervisor on record, of an open run, at a time not before its last change; anyone else is told the supervisor changed, and only that field moves |
| `DurableGuards.PrepareIsExact` | crates/workstation-platform/src/durable_store.rs:86-163 | a preparation is accepted exactly for a plan without durable form, or for one not yet prepared with deadlines in range among fewer than 512 runs; then the row is blank, its log empty and nothing else moves |
| `DurableGuards.ClaimIsExact` | crates/workstation-platform/src/durable_store.rs:164-200 | a prepared run is started exactly when it is neither cancelled nor started, the execution is new and its log has room; the claim, the states and the effect row are spelled out, and each refusal has its code |
| `DurableGuards.ReserveIsExact` | crates/workstation-platform/src/durable_store.rs:164-200 | a plan without durable form gets its effect row exactly when it is planned and has none, and nothing else moves |
| `DurableGuards.EventIsExact` | crates/workstation-platform/src/durable_store.rs:241-265 | an event other than a cancellation is stored, at the end of the log, exactly when it is news, fits the log and the clock and agrees with the record; old news is answered with the record as it is |
| `DurableGuards.ApplyIsExact` | crates/workstation-core/src/durable.rs:271-379 | one event step is accepted exactly at a valid time that has not gone back, if the event agrees with the record and both counters can move, and then they move by one |
| `DurableGuards.ApplyRefuses` | crates/workstation-core/src/durable.rs:271-379 | each fault of an event step is given exactly for its reason: the time first, then what the event says against the record, then the counters |
| `DurableGuards.EventFaults` | crates/workstation-platform/src/durable_store.rs:241-265 | each fault of an event is given exactly for its reason: an unknown run, a full log, or what the event step is refused for |
| `DurableGuards.CancelFaults` | crates/workstation-platform/src/durable_store.rs:293-313 | each fault of a cancel is given exactly for its reason: an unknown run, another revision, a full log or the clock |
| `DurableGuards.ClaimFaults` | crates/workstation-platform/src/durable_store.rs:164-200 | each fault of the start of a prepared run is given exactly for its reason: cancelled, started, a used execution id, a full log or the clock |
| `DurableGuards.PrepareFaults` | crates/workstation-platform/src/durable_store.rs:86-163 | each fault of a preparation is given exactly for its reason, in the order of the checks |
| `DurableGuards.HeartbeatFaults` | crates/workstation-platform/src/durable_store.rs:266-292 | each fault of a heartbeat is given exactly for its reason: an unknown run, another or no owner, or the clock |
| `DurableGuards.StateIsHistory` | crates/workstation-core/src/durable.rs:168-216 | in every reachable state the reported state of a run is the one its log tells, for each of the states, both ways |
| `DurableRuntime.Monitor.DoTick` | crates/workstation-platform/src/durable_runtime.rs:267-305 | heartbeat, stop decision and interrupt in the source's order, as the tick function |
| `DurableRuntime.Monitor.DoObserve` | crates/workstation-platform/src/durable_runtime.rs:194-265 | a message is a completion, scoped progress or nothing, as the observation function |
| `DurableRuntime.Monitor.DoResponseReceived` | crates/workstation-platform/src/durable_runtime.rs:157-193 | replies bind sessions and turns and settle what arrived early, as the response function |
| `DurableRuntime.Monitor.DoConclude` | crates/workstation-platform/src/durable_runtime.rs:103-116 | a terminal status is sent only for the bound session and turn, and only if it is news |
| `DurableRuntime.RecoveryScan` | crates/workstation-platform/src/durable_runtime.rs:450-475 | the scan recovers exactly the claimed, unreleased runs of its listing whose supervisor is gone and reports on all of them, stopping at the first refusal |
| `DurableRuntime.DoReconcileLocal` | crates/workstation-platform/src/durable_runtime.rs:405-449 | local reconciliation takes the branches of its specification in order, on the store it is given |
| `DurableRuntime.FinishRun` | crates/workstation-platform/src/durable_runtime.rs:309-349 | the end is recorded from the record read first, after a late completion if the result says so |
| `DurableSupervision.InstallIsUndecided` | crates/workstation-platform/src/durable_runtime.rs:48-80 | a monitor installed on a run that never met a deadline starts with no stop code, in agreement with the store, and with nothing kept from before |
| `DurableTicks.InstallIsExact` | crates/workstation-platform/src/durable_runtime.rs:48-80 | a monitor is installed exactly by the process on record as the claimant, and starts from the stored record and its deadlines with every clock at that instant and nothing kept |
| `DurableSupervision.StopCodeIsStored` | crates/workstation-platform/src/durable_runtime.rs:267-305 | over every schedule of the monitor's acts and of other processes, the stop code is a timeout exactly when a deadline event is stored, of that kind, and a cancel code implies a stored cancellation |
| `DurableSupervision.StopIsFinal` | crates/workstation-platform/src/durable_runtime.rs:271-295 | once decided, the stop code and its time are never revised over any sequence of acts, and a request to the provider once made is not forgotten |
| `DurableSupervision.OneInterrupt` | crates/workstation-platform/src/durable_runtime.rs:292-300 | over any sequence of acts the provider is asked to stop at most once |
| `DurableSupervision.GraceIsBounded` | crates/workstation-platform/src/durable_runtime.rs:288-291 | once a tick has decided a stop, and after any acts and steps of others, a later tick that reaches the store gives up with the code then decided exactly when the grace period counted from the deciding instant is over, and until then it does not fail |
| `DurableSupervision.CompletionIsBound` | crates/workstation-platform/src/durable_runtime.rs:194-221 | a completion notification can change the store only when it names the bound session and turn |
| `DurableSupervision.OnlyTheLastIsKept` | crates/workstation-platform/src/durable_runtime.rs:211-212 | for as long as no turn is stored, and whatever else the monitor and all others do, completions leave no trace in the tables and only the last of them is kept |
| `DurableSupervision.EarlyCompletionSettles` | crates/workstation-platform/src/durable_runtime.rs:169-176 | after any acts of the monitor and of others that stored no turn, starting the turn stores it and settles its provider state exactly when the last completion was for this turn and the session then stored; an earlier one for this turn is lost |
| `DurableSupervision.TimeoutIsEarned` | crates/workstation-platform/src/durable_runtime.rs:272-277 | over any history of the monitor's acts and of other processes, when a tick decides a handshake, session or idle timeout the monitor is in that stage and neither its installation nor any act set its clock within the time the policy allows; an absolute timeout means the whole time has passed |
| `DurableTicks.BeatIsExact` | crates/workstation-platform/src/durable_runtime.rs:267-271 | within a quarter of a second of the last beat nothing moves; after it the beat is served exactly for the supervisor on record of an open run, and the record then seen is the stored one |
| `DurableTicks.TickDecides` | crates/workstation-platform/src/durable_runtime.rs:267-295 | a served tick of an undecided monitor decides to stop exactly when the record it sees is cancelled, the whole time is over or the clock of its stage is; a cancelled record gives the cancel code, a missed deadline its own code and exactly one stored event, and the instant is kept |
| `DurableTicks.StopIsPunctual` | crates/workstation-platform/src/durable_runtime.rs:267-295 | after any history of the monitor's acts and of other processes, a served tick leaves a stop decided once the whole time is over or the record it sees is cancelled |
| `DurableTicks.TickAsks` | crates/workstation-platform/src/durable_runtime.rs:288-305 | a served tick of a stopped monitor asks the provider on record in its own words if nobody has, is silent if somebody has, and gives up once the grace is over; an undecided monitor asks nothing |
| `DurableTicks.StageIsLatest` | crates/workstation-platform/src/durable_runtime.rs:118-193 | over any history the stage of the monitor is the one last set by a request it sent or a session it was given |
| `DurableTicks.ReplyBindsSession` | crates/workstation-platform/src/durable_runtime.rs:92-102 | an accepted reply that names a session stores that session, unless it is bound already, and opens the turn stage |
| `DurableTicks.PromptSettles` | crates/workstation-platform/src/durable_runtime.rs:178-190 | an accepted reply to a prompt settles the stored provider by its stop reason, and one with another reason leaves no trace |
| `DurableTicks.CompletionIsStored` | crates/workstation-platform/src/durable_runtime.rs:194-221 | an accepted completion of the bound session and turn is stored with the status its words say |
| `DurableTicks.WorkCountsOnce` | crates/workstation-platform/src/durable_runtime.rs:222-265 | a message counts as progress exactly if it is a report on the bound session whose kind, step and status together are new, among at most 4096; then the idle clock restarts and, a second after the last stored one, the progress event is stored; the same message again changes nothing |
| `DurableEnding.EndIsRecorded` | crates/workstation-platform/src/durable_runtime.rs:309-349 | with any steps of others between the read and the two transactions, an accepted end stores Cancelled exactly when the record read has no deadline and either a cancellation without a completed provider or the result is the cancel code, TimedOut exactly when it has a deadline or else the result says so, Exited otherwise on success; and the end is the last event of the log |
| `DurableEnding.FinishAppends` | crates/workstation-platform/src/durable_runtime.rs:309-349 | an accepted end appends the completion the result reports, if the row lacks it, and the end with the error code of the result, and nothing else |
| `DurableEnding.FinishIsUninterrupted` | crates/workstation-platform/src/durable_runtime.rs:309-349 | the end call is that ending with nobody stepping in between |
| `DurableEnding.StopDecidesTheEnd` | crates/workstation-platform/src/durable_runtime.rs:267-349 | from the stop to the tables: after any acts, steps of others before the read and between the transactions, an accepted end stores TimedOut for a timeout code whatever the result, and for the cancel code Cancelled, unless the provider had completed and the result is not the code itself |
| `DurableEnding.LateCancelIsMissed` | crates/workstation-platform/src/durable_runtime.rs:309-342 | for every claimed, open, unstopped run with room in its log, a cancellation between the read and the recorded end is accepted, yet the run ends as an ordinary exit with the flag set; when a cancellation does show is EndIsRecorded |
| `DurableEnding.LateCancelIsReachable` | crates/workstation-platform/src/durable_runtime.rs:309-342 | the missed cancellation happens to a concrete run from the empty tables |
| `DurableEnding.EndStays` | crates/workstation-core/src/durable.rs:332-361 | a recorded end is the transport state as long as no later event moves the transport |
| `DurableEnding.RecoveryIsExact` | crates/workstation-platform/src/durable_runtime.rs:395-475 | a pass over a listing runs through exactly when every run it lists as deserted has room for its release, it releases exactly the runs it reaches, and it leaves every other row and log alone; deserted means claimed and open under a claimant of this host whose number nobody has or somebody born at another time |
| `DurableEnding.CompletedPassReleases` | crates/workstation-platform/src/durable_runtime.rs:450-475 | a completed pass leaves every run it listed as deserted released and lost |
| `DurableEnding.RecoverySparesTheLiving` | crates/workstation-platform/src/durable_runtime.rs:395-475 | a scan changes only runs it listed as deserted |
| `DurableEnding.LivingAreSpared` | crates/workstation-platform/src/durable_runtime.rs:395-475 | a run whose every listed record shows a claimant of this host with the same birth, one of another host or one that cannot be read is left alone |
| `DurableEnding.FindingsMeaning` | crates/workstation-platform/src/durable_runtime.rs:450-475 | a pass reports on every open run it was given, in that order: alive, unknown or gone by what the host sees of the claimant |
| `DurableEnding.StaleRecoveryErasesExit` | crates/workstation-platform/src/durable_runtime.rs:450-475 | a pass over records read at earlier moments turns a run that has ended since into a lost one exactly when the listing shows it deserted and the pass reaches it; the log keeps the end |
| `DurableEnding.RecoveryIsUninterrupted` | crates/workstation-platform/src/durable_runtime.rs:450-475 | the pass as written is the pass of the next row with nobody stepping in between |
| `DurableEnding.RecoveryAmidErasesExit` | crates/workstation-platform/src/durable_runtime.rs:450-475 | with steps of others before every entry of the pass, a run that has ended before the pass comes to its entry ends up lost exactly when the listing shows it deserted and its row, like that of every run shown deserted before it, has room when the pass comes to it; the log keeps the end |
| `DurableEnding.FreshRecoverySparesTheEnded` | crates/workstation-platform/src/durable_runtime.rs:450-475 | conversely, a listing that agrees with the rows never touches a run that has ended |
| `DurableEnding.StaleRecoveryIsReachable` | crates/workstation-platform/src/durable_runtime.rs:450-475 | the erased exit happens: a concrete run from the empty tables, listed while open, ended, then recovered |
| `DurableEnding.ReconcileIsExact` | crates/workstation-platform/src/durable_runtime.rs:395-449 | local reconciliation refuses another revision and a claimant it cannot judge, respects a living one, and otherwise releases a deserted run and notes the workspace, exactly when those events fit; no other run moves |
| `Wire.DecodeFrame` | crates/workstation-core/src/wire.rs:16-62 | the header loop with its limits, duplicate and missing lengths, and body checks decides what the decoding function decides |
| `Wire.RoundTrip` | crates/workstation-core/src/wire.rs:7-62 | decoding an encoded message followed by anything gives the message and exactly its length, whatever bytes the body holds |
| `Wire.PrefixWaits` | crates/workstation-core/src/wire.rs:16-23 | every strict prefix of an encoded message asks for more |
| `Wire.ArrivalMattersOnlyAtTheLimit` | crates/workstation-core/src/wire.rs:16-24 | for any byte stream, every prefix decodes to waiting or to what the whole decodes to, exactly unless the header ends at one of the three lengths around the header limit |
| `Wire.EncoderIsInsensitive` | crates/workstation-core/src/wire.rs:7-15 | streams that start with an encoder-made header are never in that exceptional case |
| `Frames.HeaderMeaning` | crates/workstation-core/src/wire.rs:27-48 | a header announces n exactly when one of its lines is a content length of n, in any case and with white space around it, and every other line is a content type |
| `Frames.LinesMeaning` | crates/workstation-core/src/wire.rs:29-29 | the lines of a header are the texts without a line end that join to it |
| `Frames.FrameIsTaken` | crates/workstation-core/src/wire.rs:16-62 | a frame with a value and a length is taken exactly when the bytes start with such a one: a header within its limit, a length within its limit, and a body that parses as a message of protocol 2.0 |
| `Frames.FrameIsAwaited` | crates/workstation-core/src/wire.rs:16-57 | the decoder waits exactly while the header may still end in time or the announced body is incomplete |
| `Frames.LimitsAreTold` | crates/workstation-core/src/wire.rs:16-51 | a header beyond its limit, ended or not, and a length out of range are refused as such, and nothing else is |
| `Frames.EncoderIsExact` | crates/workstation-core/src/wire.rs:7-15 | a value is refused exactly for a text beyond the limit and otherwise written behind the header that announces its length |
| `External.Running.PumpOnce` | crates/workstation-platform/src/external.rs:295-325 | one poll of the child's pipes moves one arrival into the buffers under the output limits |
| `External.Running.ReadFramed` | crates/workstation-platform/src/external.rs:278-291 | the blocking read over arriving chunks is the framed reading function |
| `External.Running.ReadJson` | crates/workstation-platform/src/external.rs:326-346 | the blocking read over arriving chunks is the line reading function |
| `External.FramedIsChunkFree` | crates/workstation-platform/src/external.rs:278-291 | however the stream is cut into chunks, a framed read returns what decoding the whole stream returns and leaves the rest |
| `External.ConversationRoundTrip` | crates/workstation-platform/src/external.rs:278-291 | any chunking of concatenated encodings yields the original messages in order, and a truncated last one is reported as end of stream, never as a message |
| `External.LinesAreChunkFree` | crates/workstation-platform/src/external.rs:326-346 | line reads are independent of chunking without exception, the length limit and blank lines included |
| `External.LinesRoundTrip` | crates/workstation-platform/src/external.rs:326-346 | any chunking of printed lines yields the original values in order, and a truncated last one is reported as end of stream |
| `External.FramedIsWatched` | crates/workstation-platform/src/external.rs:278-325 | for any stream, orderly or not, a framed read takes no more than both output limits allow, and is ended by a limit or a failed pipe exactly when the last arrival it took broke it |
| `External.LinesAreWatched` | crates/workstation-platform/src/external.rs:295-346 | the same for a line read |
| `WorkspacePolicy.Sandwich` | crates/workstation-core/src/workspace_policy.rs:81-96 | between a path and a string that extends it at a slash everything in order shares the path as a prefix, which is what makes one ordered lookup enough |
| `WorkspacePolicy.IndexAgrees` | crates/workstation-core/src/workspace_policy.rs:81-96 | for every path and every ascending index of normalised paths the indexed lookup is true exactly when some member is equal, an ancestor or a descendant, names such as a-b between a and a/x included |
| `WorkspacePolicy.LookupMeaning` | crates/workstation-core/src/workspace_policy.rs:71-96 | looking a path up in the index of a list agrees with comparing it, character by character, with every path of the list |
| `WorkspacePolicy.AdmitMeaning` | crates/workstation-core/src/workspace_policy.rs:98-130 | a roster is accepted exactly when every actor is well formed, no two are the same and all paths fit the byte budget, in whatever order |
| `WorkspacePolicy.AnswerMeaning` | crates/workstation-core/src/workspace_policy.rs:98-199 | a roster is answered exactly at a valid time, with at most 256 actors that are well formed, different and within four megabytes of paths, and at most 1024 pairs in conflict, and then with one row a pair |
| `WorkspacePolicy.RelativeMeaning` | crates/workstation-core/src/workspace_policy.rs:59-70 | the checks on a path, piece by piece, say that it stays inside its root |
| `WorkspacePolicy.Conflicts` | crates/workstation-core/src/workspace_policy.rs:98-199 | the nested loops over actors and their indexes produce the specified rows, errors and limits |
| `WorkspacePolicy.ConflictsAreOrderFree` | crates/workstation-core/src/workspace_policy.rs:132-199 | rearranging the roster in any way gives the same unordered pairs with the same kind, risk and uncertainty, or a refusal either way |
| `WorkspacePolicy.CausesAreReported` | crates/workstation-core/src/workspace_policy.rs:132-199 | any two live actors of different sessions that share work, a workspace, or a repository with overlapping paths, one branch or an incomplete list get a row of that kind that is right about them |
| `WorkspacePolicy.RowsAreJustified` | crates/workstation-core/src/workspace_policy.rs:132-199 | every row is about two listed live actors of different sessions, earlier one first: its kind is what they share, its paths are those of the first that overlap one of the second, up to 32, and are there exactly if any overlap in a shared repository or workspace, and it is uncertain exactly when one of the two is stale |
| `JournalArchive.Retained.PushBounded` | crates/workstation-platform/src/journal_archive.rs:75-91 | an entry is retained with its size or, if the count or byte budget would be passed, refused before anything is retained |
| `JournalArchive.PushAllMeaning` | crates/workstation-platform/src/journal_archive.rs:75-91 | a batch is kept exactly when both budgets hold for all of it, and then whole and in order |
| `JournalArchive.NameRoundTrip` | crates/workstation-platform/src/journal_archive.rs:249-249 | splitting a step key at its last colon undoes joining run and sequence number, whatever colons the run identifier has |
| `JournalArchive.Journal.EffectStep` | crates/workstation-platform/src/integration_store.rs:236-263 | a step is appended under the next number only to a running execution and within the size limit |
| `JournalArchive.Journal.FinishEffect` | crates/workstation-platform/src/integration_store.rs:264-272 | an execution is finished once, from running, or nothing changes |
| `JournalArchive.Journal.TerminalRecords` | crates/workstation-platform/src/journal_archive.rs:178-257 | the two passes over the listing and over each run's steps collect the specified selection or fail with its fault |
| `JournalHistory.SelectionIsExact` | crates/workstation-platform/src/journal_archive.rs:178-257 | a selection succeeds exactly for a valid cutoff, at most a thousand steps a run and both budgets, and then holds the listed plans and receipts and their steps, all of them and nothing else |
| `JournalArchive.Journal.Commit` | crates/workstation-platform/src/journal_archive.rs:331-367 | the entry loop inside the transaction is the commit function, and a fault anywhere leaves every table as it was |
| `JournalArchive.Journal.ArchiveTerminalJournals` | crates/workstation-platform/src/journal_archive.rs:267-372 | the whole call is selection, approval check, budgets, intent step, file, commit and completion step in that order, with what each failure leaves behind |
| `JournalArchive.FreshTextReadsBack` | crates/workstation-platform/src/journal_archive.rs:98-104 | an unarchived record reads back as written exactly when its payload does not carry the marker key; otherwise the read fails |
| `JournalHistory.CommitsIffCommittable` | crates/workstation-platform/src/journal_archive.rs:349-366 | a pack commits exactly when every entry is unarchived, still has the packed text, may be replaced and no record is named twice; else nothing of it does |
| `JournalHistory.CommitKeepsInv` | crates/workstation-platform/src/journal_archive.rs:331-367 | committing any pack on file keeps the first-written text of every record, in its place or in a pack its marker leads to |
| `JournalHistory.NoMarkerIsArchived` | crates/workstation-platform/src/journal_archive.rs:349-366 | a committed pack holds first-written texts only, never a marker put in place of one, each of a record never archived before |
| `JournalHistory.PerformKeepsInv` | crates/workstation-platform/src/journal_archive.rs:178-372 | every atomic step of writers and archivers, stale selections included, keeps the invariant and takes nothing back |
| `JournalHistory.LogicalHistoryUnchanged` | crates/workstation-platform/src/journal_archive.rs:98-145 | in every reachable state of any interleaving every plan, receipt and step whose own text lacks the marker key reads exactly as first written, and keeps reading so, whatever the others hold; one whose text carries the key reads so exactly once it is archived |
| `JournalRetention.RunningAndIndeterminateRetained` | crates/workstation-platform/src/journal_archive.rs:178-191 | in every reachable state an archived record belongs to a run that succeeded, failed or was cancelled, and every record whose runs are all prepared, running or indeterminate is in no archive and sits where it was written |
| `JournalRetention.SelectionIsFinished` | crates/workstation-platform/src/journal_archive.rs:178-257 | every entry of a successful selection is a record of a listed run of the project that succeeded, failed or was cancelled before the cutoff, at least an hour ago, and whose plan is not archived |
| `JournalRetention.SelectionIsComplete` | crates/workstation-platform/src/journal_archive.rs:178-257 | a successful selection takes every plan, receipt and step of the listed runs under its own name and nothing else, within its numbers and sizes, and it is refused for the cutoff exactly outside the stated ranges |
| `JournalRetention.StepIsExact` | crates/workstation-platform/src/integration_store.rs:236-263 | a step is added exactly to a running execution and within 32 KiB, behind the others and nowhere else |
| `JournalRetention.FinishIsExact` | crates/workstation-platform/src/integration_store.rs:264-272 | an execution ends exactly from running, and then holds the given state, time and receipt |
| `JournalRetention.FinishedRunsAreFrozen` | crates/workstation-platform/src/integration_store.rs:236-272 | once a run is no longer running nothing restarts it, ends it again or adds steps to it |
| `JournalRetention.CorruptFilesNeverMislead` | crates/workstation-platform/src/journal_archive.rs:98-145 | whatever happens to the pack files, a reader of an archived record gets its first-written text or a fault |
| `JournalRetention.ReadIsExact` | crates/workstation-platform/src/journal_archive.rs:98-145 | a record reads as a text exactly when that is what is stored and it is no marker, or when marker, archive row, file name, file size, file digest, pack and its one entry agree and hold that text |
| `JournalRetention.RefusalIsExact` | crates/workstation-platform/src/journal_archive.rs:267-308 | a call is turned away before anything is written exactly for another digest than the approved one, a pack beyond eight megabytes, a 129th file or more than 64 megabytes in all, in this order |
| `JournalRetention.ArchiveStaysWithinBudgets` | crates/workstation-platform/src/journal_archive.rs:306-366 | in every reachable state the archives and their entries keep within their numbers and sizes |
| `JournalRetention.PackIsExact` | crates/workstation-platform/src/journal_archive.rs:331-367 | a pack commits exactly when its name and file are new, its size is allowed and its entries commit |
| `JournalRetention.ReportIsTrue` | crates/workstation-platform/src/journal_archive.rs:267-372 | a call that reports an archive has archived the very records whose digest was approved, all of them, and one that reports nothing changed nothing |
| `JournalHistory.ApprovalBindsSelection` | crates/workstation-platform/src/journal_archive.rs:258-278 | what gets on file is exactly the selection whose digest was approved |
| `JournalHistory.ArchiveCallKeepsInv` | crates/workstation-platform/src/journal_archive.rs:267-372 | the uninterrupted archive call keeps history wherever it stops |
| `Rpc.ProjectionKeepsTheTurn` | crates/workstation-platform/src/rpc.rs:183-203 | the bounded projection of a completion keeps which turn ended and how |
| `Rpc.Driver.TakeFrame` | crates/workstation-platform/src/rpc.rs:73-89 | frames are counted against the limit and acknowledgements of the monitor's interrupts are skipped |
| `Rpc.Driver.SendRequest` | crates/workstation-platform/src/rpc.rs:37-72 | the reply loop with its queueing of early completions is the request function |
| `Rpc.Driver.WaitCodexTurn` | crates/workstation-platform/src/rpc.rs:156-181 | the wait over queue and live stream is the wait function |
| `TurnCorrelation.WaitFindsFirst` | crates/workstation-platform/src/rpc.rs:156-181 | a wait that answers gives the status of the first completion of its turn over queue then stream, everything it passed over was passable, and the notifications among that are counted |
| `TurnCorrelation.WaitEndsAtFirst` | crates/workstation-platform/src/rpc.rs:156-181 | conversely, a reachable first completion within the frame allowance ends the wait with its status, or with its fault |
| `TurnCorrelation.TurnIsCorrelated` | crates/workstation-platform/src/rpc.rs:37-89 | after any number of answered requests a wait that answers gives the status of the first completion of its turn in arrival order over all frames since the start, leaving out those a request heard with an identifier, and everything it passed over live was passable |
| `TurnCorrelation.TurnArrives` | crates/workstation-platform/src/rpc.rs:156-181 | conversely, such a first completion that the stream and the frame allowance reach ends the wait with its status, or with the fault its status raises |
| `TurnCorrelation.AnswerIsFirstArrival` | crates/workstation-platform/src/rpc.rs:51-58 | the answer is the first completion to arrive exactly when that one was not overheard by a request while carrying an identifier |
| `TurnCorrelation.RequestsLoseIdentifiedCompletions` | crates/workstation-platform/src/rpc.rs:51-58 | the same completion frame with an identifier ends a wait but is passed over by a request |
| `TurnCorrelation.IdentifiedCompletionIsLost` | crates/workstation-platform/src/rpc.rs:37-89 | a whole session of the loss: a completion with an identifier arrives before a reply, and the wait reports a later one with another status |
| `TurnCorrelation.MalformedNeighbour` | crates/workstation-platform/src/rpc.rs:183-203 | a completion of another turn with an unknown status fails a request and is passed over by a wait |
| `TurnCorrelation.OwnReply` | crates/workstation-platform/src/rpc.rs:37-72 | the n-th request returns only the reply that carries its own number n, and everything it passed over had a method |
| `Requests.RequestIsExact` | crates/workstation-platform/src/rpc.rs:37-155 | a request succeeds exactly when the first frame without a method is reached within the frame and queue allowances, carries its number and has a result; every other such frame gives its own fault, and what was passed over is then queued in short form, counted and answered in order |
| `Forecast.HorizonBalances` | crates/workstation-core/src/economics.rs:114-141 | capacity times rate is the remaining allowance; against a reset, time to exhaustion plus shortfall equals time to reset plus headroom, at most one of the two is positive, and exhaustion is predicted exactly when it comes first |
| `Forecast.SegmentIsLongest` | crates/workstation-core/src/economics.rs:197-209 | the forecast segment is the longest suffix of comparable, non-decreasing samples with gaps of at most six hours |
| `Forecast.WalkBack` | crates/workstation-core/src/economics.rs:197-209 | the walk back from the latest sample stops where that segment starts |
| `Runways.SegmentIsChain` | crates/workstation-core/src/economics.rs:197-217 | the segment a forecast rests on is the longest chain of readable samples up to the latest one |
| `Runways.RunwayMeaning` | crates/workstation-core/src/economics.rs:114-288 | a forecast shows the latest sample and what is left of its allowance; with a chain of a minute it has six horizons over ten minutes, an hour, six hours, the whole chain, the weighted and the blended rates, each capacity, exhaustion, headroom and shortfall measured from what is left and from the reset, and otherwise none, with the reason |
| `Runways.RefusalMeaning` | crates/workstation-core/src/economics.rs:144-196 | each refusal of a forecast is given for its reason, in the order of the checks, and a forecast is made in spite of a repeated time only where none would be attempted |
| `Forecast.WindowMeaning` | crates/workstation-core/src/economics.rs:218-238 | over each window, elapsed time is the shorter of window and span, and burn is current usage minus the linearly interpolated usage where the window opens |
| `Forecast.MeasureWindow` | crates/workstation-core/src/economics.rs:219-231 | the accumulation over neighbouring samples computes those sums |
| `Forecast.AverageSlope` | crates/workstation-core/src/economics.rs:240-248 | the two running sums give the weighted average of slopes |
| `Forecast.RatesAreAverages` | crates/workstation-core/src/economics.rs:218-269 | window, baseline, weighted and blended rates all lie between the smallest and largest slope of the segment, for any positive weights |
| `Forecast.RatesAreNotNegative` | crates/workstation-core/src/economics.rs:144-288 | every rate of every successful forecast is non-negative, and a forecast has six horizons or none |
| `Forecast.SampleOrderIsIrrelevant` | crates/workstation-core/src/economics.rs:144-196 | rearranging the samples does not change the forecast as long as the samples at the latest time are all forecastable, or all not and alike in window, reset, usage and allowance left |
| `Forecast.DifferingTiesMatter` | crates/workstation-core/src/economics.rs:144-196 | and no longer: two latest samples that are not so are told apart by the order alone |
| `Forecast.Forecast` | crates/workstation-core/src/economics.rs:144-288 | the function as written, with its order of refusals and reasons for withholding, is the specified forecast |
| `Models.CheckModels` | crates/workstation-core/src/economics.rs:384-412 | rows are checked in order against the names seen before them |
| `Models.CheckMeaning` | crates/workstation-core/src/economics.rs:384-412 | a table is accepted exactly when every row has its texts, identity, sound metrics and the permitted licence, and no two rows have one model name |
| `Models.FrontierIsComplete` | crates/workstation-core/src/economics.rs:413-433 | the frontier holds exactly the available models than which no available one is at least as good and somewhere better, every other available model has a better one on it, and it is not empty |
| `Models.EmptyFrontier` | crates/workstation-core/src/economics.rs:413-433 | the frontier is empty exactly when no model is available |
| `Models.HeadIsOnFrontier` | crates/workstation-core/src/economics.rs:858-872 | the head of the best-quality and of the cheapest ranking is on the frontier |
| `Models.SelectionMeaning` | crates/workstation-core/src/economics.rs:844-889 | a selection is made exactly of at most five hundred fit, differently named and comparable rows by one of three criteria, and ranks exactly the models that qualify, in the order of the criterion |
| `Models.FirstFaultIsTold` | crates/workstation-core/src/economics.rs:384-412 | a table is refused for what is first wrong with its first unfit row |
| `Models.RankingIsOrderFree` | crates/workstation-core/src/economics.rs:858-885 | the ranking does not depend on the order in which models are listed |
| `Models.SelectModels` | crates/workstation-core/src/economics.rs:844-889 | the function as written computes the specified selection, with its faults in order |
| `Discovery.CanonicalIsStable` | crates/workstation-core/src/discovery.rs:151-164 | canonical sources are canonical: applying the normalisation twice changes nothing |
| `Recommendations.CanonicalMeaning` | crates/workstation-core/src/discovery.rs:151-164 | two sources have one canonical form exactly when they are the same up to the case of scheme and host and to trailing slashes |
| `Recommendations.CardMeaning` | crates/workstation-core/src/discovery.rs:192-296 | the candidates are exactly the cards that say of an eligible capability what is so: not blocked, licensed, local or free where asked for, on the platform, and not turned down by the last word on it |
| `Recommendations.RecommendationMeaning` | crates/workstation-core/src/discovery.rs:192-315 | a recommendation is at most three candidates in order of rank, no two substitutes, leaving a candidate out only for a substitute or three that come first; it fails exactly for too many entries or two of one identifier |
| `Discovery.NewestMeaning` | crates/workstation-core/src/discovery.rs:221-232 | the chosen feedback is about the topic and none about it is newer, ties going to the greater identifier |
| `Discovery.RecommendationIsOrderFree` | crates/workstation-core/src/discovery.rs:192-315 | rearranging the catalog or feedback with distinct identifiers leaves the result unchanged, faults included |
| `Discovery.RecommendationIsApart` | crates/workstation-core/src/discovery.rs:297-314 | at most three candidates come back, in rank order, no two of one source or one purpose |
| `Discovery.RecommendationIsGreedilyMaximal` | crates/workstation-core/src/discovery.rs:297-314 | each omitted candidate clashes with a kept card ranked before it or is outranked by three kept cards |
| `Discovery.Deduplicate` | crates/workstation-core/src/discovery.rs:298-313 | the loop over the seen sets keeps exactly the greedy selection |
| `Discovery.Recommend` | crates/workstation-core/src/discovery.rs:192-315 | the function as written computes the specified recommendation |
| `UsageImport.GrammarIsExact` | crates/workstation-core/src/usage_import.rs:20-51 | the texts that parse are exactly digits, an optional point with digits and an optional exponent letter with a signed numeral, within the limits, and they are read as those parts and that numeral |
| `UsageImport.DecimalIsExact` | crates/workstation-core/src/usage_import.rs:19-72 | a text is accepted with v exactly when it spells a number that v equals at the scale, v fits 64 bits and the stated intermediates fit 128 bits |
| `UsageImport.PrecisionIsExact` | crates/workstation-core/src/usage_import.rs:61-70 | precision is refused exactly when the text spells a number that no integer equals at the scale while the intermediates fit |
| `UsageImport.FormatIsExact` | crates/workstation-core/src/usage_import.rs:20-51 | a text is refused for its format exactly when it is too long, signed or empty, its power is no 32-bit numeral, or its mantissa is none while the power is small; any other refusal but precision is of range |
| `UsageImport.PrintThenParse` | crates/workstation-core/src/usage_import.rs:19-72 | printing any non-negative 64-bit amount at a scale up to 12 and parsing it gives the amount back |
| `UsageImport.IntermediateOverflow` | crates/workstation-core/src/usage_import.rs:52-67 | acceptance is not complete: zero written with thirty-nine decimals is refused as out of range |
| `UsageImport.SummaryMeaning` | crates/workstation-core/src/usage_import.rs:276-300 | a summary succeeds exactly when all rows are valid, pairwise disjoint and their sum fits, and then the total is the exact sum |
| `UsageImport.SummaryIsOrderFree` | crates/workstation-core/src/usage_import.rs:276-300 | the same rows in any order succeed or fail together, with the same total |
| `UsageImport.DuplicatesAreUnreachable` | crates/workstation-core/src/usage_import.rs:289-291 | no input reaches the duplicate-bucket error |
| `UsageImport.CostSummary` | crates/workstation-core/src/usage_import.rs:276-300 | the sorted neighbour check and the running total compute the specified summary |

## Left out

- `DurableHistory.RecordsAreTheirLogs`: assumes the event entry point is called as the crates call it, never with a claim or a cancellation; the two `UnlessStray` lemmas give the exact condition.
- `DurableSupervision.StopCodeIsStored`: other processes do not report deadlines on this run, which only its own monitor does, and the monitor was installed on a run without a stored deadline.
- `DurableEnding.RecoveryAmidErasesExit`: after the pass has come to the run's entry nobody else moves the transport of that run; whoever does decides it, by `DurableEnding.EndStays`.
- `JournalHistory.LogicalHistoryUnchanged`: assumes runs finished into a final state and archive identifiers that are UUIDs; corruption of a pack file on disk appears only as the errors of hydration.
- `TurnCorrelation.TurnIsCorrelated`: is about one wait after any number of requests; what a second wait sees depends on what the first one consumed.
- `External.FramedIsChunkFree`: streams whose header ends at one of the three lengths around the limit are excluded; `Wire.ArrivalMattersOnlyAtTheLimit` shows that these and only these are sensitive.
- `Discovery.RecommendationIsOrderFree`: feedback identifiers are distinct, as the newest of two reports with one identifier and one time would depend on their order.
- `Recommendations.RecommendationMeaning`: feedback identifiers are distinct, for the same reason.
- `DurableTicks.TickDecides`: about ticks whose store calls succeed; a tick whose store call fails ends the operation with that fault.
- The SQLite engine, SQL text, migrations, backup and restore: each transaction is one step; CHECK constraints on lengths of stored texts are not modelled beyond the explicit ones.
- Clocks: one call reads the time once, where the source reads it at every use inside a call.
- Process identities, job objects, pipes and threads: whether a supervisor is alive and what arrives next are arguments; an arriving stream is finite and then closes, so waiting without end is not modelled.
- Errors raised by the monitor inside a transport poll, and the transport's own timeouts: a fault may stand in place of any arrival.
- The JSON printer and parser and UTF-8 decoding: parameters with the round-trip assumption.
- Which permission option is chosen for a server request, its path checks, and the usage summary of `respond_to_server`: only that the request is answered under its own identifier.
- Approval of effect plans, the baseline and verification contract, `reconcile_provider` and the listing queries of runs: outside the protocol proved here.
- Descriptive fields of run records, cards and forecasts (titles, purposes, labels, the project of a run): left out or carried unread.
- Field validators other than those named in the contracts: preconditions.
- Value density in `pareto`, `plan_fit`, `counterfactual` and the vendor importers of quota samples: straight tables.
- Rounding, NaN and overflow guards of floating point, and the order of negative zero: exact reals have none.
- Counters of 32 and 64 bits that only count attempts (`frames`, `seq`): unbounded, as their limits are checked long before.
