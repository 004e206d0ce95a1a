# vrgo in Dafny

A model of the replica core of vrgo, a Go implementation of Viewstamped
Replication (Liskov and Cowling, "Viewstamped Replication Revisited": section
4.1 normal operation, section 4.2 view change, section 4.3 recovery). The
model covers the small replica state the Go code keeps: the view, op and
commit numbers, the mode, the operation log and the client table. It also
covers every step that updates that state:

- the operation log and the client table with its one-slot undo;
- the primary's pipeline step and the client request admission in front of it;
- the backup's prepare step;
- the view-change ballot with its DoViewChange collection and log reconciliation;
- recovery;
- the mode supervisor;
- the cluster helpers: the configuration fold, the other-ports list and the connection cache.

Files and modules:

| file | module | models |
|---|---|---|
| messages.dfy | `Messages` | the RPC records, the mode names, the emitted-message list |
| oplog.dfy | `OpLog` | `oplog/oplog.go` |
| table.dfy | `Table` | `table/table.go` (the cache is a map) |
| globals.dfy | `Globals` | `globals/globals.go` |
| primary.dfy | `Primary` | `primary/primary.go` |
| execute.dfy | `ClientAdmission` | `primary/request.go` |
| backup.dfy | `Backup` | `backup/backup.go` |
| view.dfy | `View` | `view/view.go` |
| recovery.dfy | `Recovery` | `recovery/recovery.go` |
| monitor.dfy | `Monitor` | `monitor/monitor.go` |

How the Go code is mapped:

- **Mutable objects become classes.** Each Go object that is updated in place is a class whose methods carry `modifies` clauses: the log, the client table, the process globals, the queues and the view-change ballot. Each method is proved against a pure function of the old state, and the protocol properties are lemmas about those functions.
- **Concurrency becomes explicit inputs.** Goroutines and channels are replaced by inputs to the step: whether cancellation won a wait, which backup calls succeeded, the order in which recovery replies arrived, and whether the commit signal arrived.
- **Map iteration order is an input.** It is a sequence `order` that lists each of the map's ids exactly once (`Globals.Enumerates`), so every broadcast provably reaches every other replica once.
- **Messages become returned values.** Outgoing messages and the signals to the supervisor are returned as a list of `Outbound` values.
- **Process exits become outcomes.** `log.Fatalf` paths are `Fatal` values. The type assertion in `Execute` is `NilEntryPanic`. Three index panics are excluded by a `requires` instead, because no call site can reach them: the slice of an empty log in `Undo` (oplog/oplog.go:49), `responses[0]` (recovery/recovery.go:110) and `Args[0]` (view/view.go:213).
- **The supervisor loop is split.** Each turn is `Monitor.Enter`, the non-blocking part of a mode's case, followed by `Monitor.WakeUp`, the branch its wait takes for an event.

Where the code differs from the protocol paper, the model follows the code:

- **StartView has no freshness check.** It adopts only the view number; the log, op number and commit number are unchanged, and a stale StartView lowers the view (`View.StartViewCanLowerView`).
- **The new primary installs on an exact count.** It installs the view only when the number of collected DoViewChange messages equals exactly `len(AllPorts)/2`.
- **Reconciliation ties go to the earliest message.** Among messages with equal latest normal view, the earliest received wins. The op-number tie-break exists only as a comment.
- **The three quorums are computed differently.** The view change uses `len(AllPorts)/2`, the primary uses `len(backups)/2` and recovery uses `len(AllOtherPorts())/2`. Each is modelled as written.
- **Go's remainder truncates.** The new primary id is `view % n` with Go's truncating `%` (`View.GoRem`), so for a negative view the id is in (-n, 0]: negative, naming no replica, unless the view is a multiple of n, which gives replica 0 (`View.NegativeViewPrimaryId`).
- **A duplicate after commit gets an empty result.** A commit replies with the operation's result but never writes it into the client table; the entry stays the provisional one with an empty result, and a duplicate of a committed request is answered with that (`ClientAdmission.ResendAfterCommitGetsEmptyResult`).
- **Re-entering primary mode dials the backups again.** `primary.Init` appends the new connections to the package-level `backups` it already holds, so on the second entry each Prepare goes to every backup twice and the quorum becomes the number of backups (`Primary.ReentryDoublesBackups`). Each entry also replaces the request queue, so requests still queued are dropped and their `Execute` callers wait forever.
- **The ballot stays set after DoViewChange.** Nothing resets it there, so it stays set until the supervisor next enters primary or backup, or a view change times out.

## Model

| member | source | states |
|---|---|---|
| OpLog.OpRequestLog.New | oplog/oplog.go:24-26 | a new log is empty |
| OpLog.OpRequestLog.FromRecords | view/view.go:197 | a log built from a message's records holds exactly those records |
| OpLog.OpRequestLog.AppendRequest | oplog/oplog.go:29-34 | exactly one record (request, opNum) is added at the end, earlier records unchanged, and the error is always nil |
| OpLog.OpRequestLog.ReadLast | oplog/oplog.go:37-45 | empty log: the error case with op number 0; otherwise the last record's request and op number; the log is not changed |
| OpLog.OpRequestLog.Undo | oplog/oplog.go:48-50 | on a non-empty log exactly the last record is removed |
| OpLog.AppendThenUndo | oplog/oplog.go:29-50 | AppendRequest followed by Undo restores the original log |
| Table.ClientTable.New | table/table.go:17-22 | a new table has no entries and no saved records |
| Table.ClientTable.Set | table/table.go:25-32 | the key's value becomes x; its previous value is saved only when the key was present |
| Table.ClientTable.Undo | table/table.go:35-37 | the key's value becomes the saved record (nil when none was saved); saved records unchanged |
| Table.ClientTable.Get | table/table.go:40-42 | returns (value, true) for a present key and reports absence otherwise |
| Table.SetKeepsConsistent | table/table.go:25-32 | Set keeps every saved key a present key |
| Table.UndoKeepsConsistent | table/table.go:35-37 | Undo keeps every saved key a present key |
| Table.SetThenGet | table/table.go:25-42 | after Set(k, x), Get(k) is (x, true) and every other key reads as before |
| Table.SetSavesPrevious | table/table.go:26-29 | Set copies the current value into the saved slot only when the key is present; otherwise the saved slot is untouched |
| Table.UndoKeepsLastRecords | table/table.go:35-37 | Undo never changes the saved records |
| Table.SetUndoRestores | table/table.go:25-37 | if k had value v, Set(k, x) then Undo(k) makes Get(k) return v, other keys unchanged |
| Table.SetUndoOnAbsentLeavesNil | table/table.go:36 | Undo with nothing saved leaves the key present with the nil value, not absent |
| Table.UndoIsOneLevel | table/table.go:26-36 | after Set(a), Set(b), Undo the value is a, and a second Undo gives the same |
| Globals.LoadedPortsMembers | globals/globals.go:115-124 | an id is in AllPorts iff some row names it |
| Globals.LoadedPortsLastRowWins | globals/globals.go:115-124 | later rows overwrite earlier ones: the port is that of the last row with the id |
| Globals.LoadedSelfRow | globals/globals.go:126-131 | the replica's own last row sets Mode and Port; without one they keep the zero values |
| Globals.LoadConfig | globals/globals.go:106-132 | the row loop computes the configuration fold |
| Globals.OtherPortsExcludeOwn | globals/globals.go:136-144 | AllOtherPorts never returns the replica's own port |
| Globals.OtherPortsIncludeOthers | globals/globals.go:136-144 | every visited entry whose port differs contributes its port |
| Globals.OtherIdsMembers | globals/globals.go:138-142 | the ids contributing a port are exactly the visited ids whose port differs |
| Globals.OtherPortsCount | globals/globals.go:136-144 | with no id visited twice, one port per visited id whose port differs |
| Globals.AllOtherPortsCount | globals/globals.go:136-144 | over one iteration of the map: one element per entry whose port differs from Port |
| Globals.Globals.Load | globals/globals.go:65-133 | process start: configuration from the rows, counters zero, no clients; OpLog and ClientTable are nil there, and the model's empty placeholders are replaced by Monitor.Start before any use |
| Globals.OtherPortsFromOrder | globals/globals.go:138-142 | every returned port is the port of a visited entry |
| Globals.OtherPortsAreEveryOther | globals/globals.go:136-144 | over one iteration of the map: a port is returned iff it is a port of the map other than Port |
| Globals.Globals.AllOtherPorts | globals/globals.go:136-144 | over one run of the map's iteration, the loop returns exactly the ports of the map other than Port, one per other entry, in iteration order |
| Globals.Globals.GetOrCreateClient | globals/globals.go:147-157 | a cached hostname returns its client without dialing; a failed dial errors and leaves the cache; a dial inserts the client |
| Primary.RequestQueue.New | primary/primary.go:58-59 | the incoming request queue starts empty |
| Primary.DialAllAppends | primary/primary.go:65-72 | the dial loop succeeds iff every dial does, then keeps the held connections and appends one per port in order; otherwise it stops at the first failed port |
| Primary.ReentryDoublesBackups | primary/primary.go:65-72 | a second entry into primary mode keeps the first entry's connections and appends a new one per port, so it holds two per backup and its quorum is the number of backups |
| Primary.Init | primary/primary.go:58-77 | the request queue is replaced by an empty one, then the backup ports are dialled and appended as DialAll says |
| Primary.RequestQueue.AddIncomingReq | primary/primary.go:177-185 | FIFO push with a fresh completion handle below capacity 5; a full queue takes nothing |
| Primary.SuccessesBounded | primary/primary.go:124-135 | the success count is at most the number of calls, equal iff all succeeded |
| Primary.SuccessesAppend | primary/primary.go:127-133 | a failed backup call adds nothing to the count, a successful one adds one |
| Primary.SmallClusterNeedsNoReplies | primary/primary.go:123 | with at most one backup the quorum is 0 |
| Primary.SuccessesPrefix | primary/primary.go:142-144 | replies seen so far never exceed all replies |
| Primary.WaitForQuorum | primary/primary.go:141-148 | the wait ends ready iff at least len(backups)/2 calls succeeded |
| Primary.ProcessIncomingReq | primary/primary.go:84-174 | one pipeline step: see below |
| ClientAdmission.DecideAsWritten | primary/request.go:16-43 | as written: rejection iff not primary; a panic iff primary and the entry is present but nil; a duplicate answered verbatim iff the entry's RequestNum is at least the request's; otherwise processed |
| ClientAdmission.Decide | primary/request.go:14-48 | rejection by mode with the exact hint; a duplicate iff an entry exists with RequestNum at least the request's, answered verbatim; anything else processed; never panics |
| ClientAdmission.DecideMatchesAsWrittenOffNil | primary/request.go:35-43 | the corrected decision equals the code's except on a nil entry |
| ClientAdmission.CancelledFirstRequestPanicsAsWritten | primary/request.go:39 | a first request undone leaves nil; its resend fails the type assertion |
| ClientAdmission.CancelledFirstRequestIsReprocessed | primary/request.go:35-48 | with nil read as absent, that resend is processed anew |
| ClientAdmission.InFlightResendGetsProvisional | primary/request.go:35-43 | a resend while in flight is answered from the provisional empty-result entry |
| ClientAdmission.ResendAfterCommitGetsEmptyResult | primary/primary.go:105-110 | the committed result never reaches the table, so a resend after commit is answered with the provisional empty result |
| ClientAdmission.Execute | primary/request.go:14-58 | Execute never writes the table; a reply now, or one enqueue of the request with its handle; it uses the corrected decision, so a present nil entry is processed where the code panics at primary/request.go:39 |
| Backup.PrepareQueue.New | backup/backup.go:133-144 | the prepare queue starts empty |
| Backup.PrepareQueue.AddIncomingPrepare | backup/backup.go:106-116 | every Prepare re-arms the view timer to 5 s before it is enqueued FIFO with its own handle |
| Backup.Init | backup/backup.go:133-135 | the prepare queue is replaced by an empty one and the new view timer is installed |
| Backup.GapAgainstLastRecord | backup/backup.go:67-75 | the backup waits iff args.OpNum > lastOp + 1, with lastOp 0 for an empty log |
| Backup.ProcessIncomingPrepare | backup/backup.go:51-103 | one prepare step: see below |
| View.NewPrimaryIdRotates | view/view.go:250 | for views >= 0 the new primary is view mod n, a valid id, rotating with period n |
| View.NegativeViewPrimaryId | view/view.go:250 | for every negative view the id is -((-view) mod n), in (-n, 0], and 0 exactly when n divides the view |
| View.PickLogIndexIsFirstMaximum | view/view.go:187-199 | the adopted log is the first message's with the greatest latest normal view (> -1); none only if all are <= -1 |
| View.TieGoesToEarliest | view/view.go:191-198 | of any two messages with equal latest normal view, the later is never adopted, whatever the op numbers |
| View.MaxCommitIsMaximum | view/view.go:201-210 | the commit number is the largest collected one, floored at 0 |
| View.SameViewNums | view/view.go:212-220 | true iff all collected messages share the first's view number |
| View.MaxNormalViewLog | view/view.go:187-199 | the refreshLog loop computes the choice |
| View.MaxCommitNum | view/view.go:201-210 | the refreshCommitNum loop computes the maximum |
| View.StaleMessagesAreIgnored | view/view.go:54-58 | StartViewChange or DoViewChange with view <= ViewNum: no signal, no change, nothing sent |
| View.DoViewChangeInstall | view/view.go:136-185 | DoViewChange: install only at exactly subquorum agreeing messages; adopted state and messages as listed below |
| View.InstalledStateIsMostAdvanced | view/view.go:161-183 | the installed log is from a message of greatest latest normal view; the commit number bounds all collected |
| View.StartViewChangeKeepsViewMonotone | view/view.go:51-94 | StartViewChange never lowers the view, also when it installs a view locally |
| View.StartViewChangeBallot | view/view.go:60-80 | signal first; a larger proposal resets the counter, is adopted and re-broadcast, then the counter goes up by 1 |
| View.SendDoViewChangeKeepsBallotAndView | view/view.go:249-267 | sending a DoViewChange leaves the counter, the proposal and the sent flag alone and never lowers the view |
| View.DoViewChangeKeepsCounters | view/view.go:136-185 | a DoViewChange changes only the collection of the ballot and never lowers the view |
| View.DoViewChangeSentOnce | view/view.go:84-92 | DoViewChange is sent at most once per ballot and only at counter >= len(AllPorts)/2; the flag is then set |
| View.DoViewChangeTarget | view/view.go:249-276 | the DoViewChange goes to the port of proposed mod n with the log, LatestNormalViewNum = ViewNum, op and commit numbers |
| View.StartViewAdoptsOnlyView | view/view.go:104-110 | StartView signals backup and adopts only the view number |
| View.StartViewCanLowerView | view/view.go:104-110 | StartView with a smaller view number lowers the view |
| View.ClearResetsBallot | view/view.go:114-134 | the counter is zeroed, the collection emptied, the flag cleared, the proposal reset to ViewNum only on request |
| View.InitiateRaisesProposal | view/view.go:223-230 | the proposal goes up by exactly 1 and is sent to every other replica |
| View.EnvOthersAreEveryOtherReplica | globals/globals.go:136-144 | the handlers' broadcast targets are exactly the other replicas' ports |
| View.Ballot.New | view/view.go:40-43 | the ballot starts with zero counters, no messages and the flag clear |
| View.RunDoViewChange | view/view.go:136-185 | the handler computes DoViewChangeStep on the replica state |
| View.InstallView | view/view.go:158-184 | steps 1-6 of the install compute InstallStep on the replica state |
| View.SendDoViewChange | view/view.go:249-276 | the dispatch computes SendDoViewChangeStep, locally when the target is itself |
| View.CountProposal | view/view.go:60-81 | the signal, the adoption and re-broadcast of a larger proposal and the count compute CountStartViewChange |
| View.StartViewChange | view/view.go:51-94 | the handler computes StartViewChangeStep on the replica state |
| View.StartView | view/view.go:104-110 | only the view number is set; completion as backup is signalled |
| View.ClearViewChangeStates | view/view.go:114-134 | the ballot state becomes ClearStep of the old one |
| View.InitiateStartViewChange | view/view.go:223-230 | the ballot and messages are InitiateStep of the old state |
| Recovery.RecoverReply | recovery/recovery.go:23-36 | echoes the nonce with ViewNum, Id, Mode; log and numbers only from a primary, empty/zero otherwise |
| Recovery.Recover | recovery/recovery.go:23-36 | the handler returns RecoverReply of the replica state and changes nothing |
| Recovery.WithModeMembers | recovery/recovery.go:66-74 | replies are sorted by mode; nothing else is kept |
| Recovery.SelectedShape | recovery/recovery.go:85-93 | accepted: one primary reply, then len(AllOtherPorts)/2 backup replies, all received |
| Recovery.CollectResponses | recovery/recovery.go:58-93 | the collector loop computes the selection and is ready iff it exists |
| Recovery.LastPrimaryIsLast | recovery/recovery.go:119-124 | the primary reply used is the last primary-mode one; none iff no primary reply |
| Recovery.CheckNonces | recovery/recovery.go:110-116 | true iff every nonce equals the first |
| Recovery.FindPrimaryResponse | recovery/recovery.go:119-124 | the loop finds the last primary-mode reply |
| Recovery.ApplyRecoveryResps | recovery/recovery.go:108-136 | nonce mismatch or no primary: false, no change; else adopt view, log, op and commit numbers and true |
| Recovery.AdoptedRejects | recovery/recovery.go:108-128 | rejection exactly on nonce mismatch or no primary reply; otherwise a primary reply is adopted |
| Recovery.RepliesToOneRequestAgree | recovery/recovery.go:26 | replies to one request echo its nonce and so agree |
| Recovery.RecoveryAdoptsFirstPrimaryState | recovery/recovery.go:23-136 | round trip: recovery ends with the state of the primary whose reply arrived first |
| Recovery.PerformRecovery | recovery/recovery.go:38-106 | requests to exactly the other replicas' ports; cancellation or too few replies: no change; otherwise applyRecoveryResps |
| Monitor.InitialMode | monitor/monitor.go:37-43 | crash marker: recovery; otherwise the configured mode |
| Monitor.Start | monitor/monitor.go:32-48 | initial mode, and a fresh empty log and client table |
| Monitor.WakeTransitions | monitor/monitor.go:61-112 | the complete transition relation of the waits, both directions |
| Monitor.RoleOnlyAfterViewChange | monitor/monitor.go:97-107 | primary or backup is entered only by a completed view change |
| Monitor.RecoveryIsTerminal | monitor/monitor.go:93-110 | recovery and viewchange-init wait for no event |
| Monitor.Enter | monitor/monitor.go:62-99 | primary and backup clear the ballot with the proposal; primary replaces its queue and dials as Primary.Init, exiting on a failed dial; backup replaces its queue and installs a 5 s view timer; viewchange-init proposes and moves to viewchange; viewchange arms 10 s |
| Monitor.WakeUp | monitor/monitor.go:71-107 | the selected transition; leaving primary or backup cancels the context; a view-change timeout clears the ballot keeping the proposal |
| Monitor.SilentBackupProposesNextView | monitor/monitor.go:78-96 | a backup whose timer fires proposes exactly view + 1 |

`Primary.ProcessIncomingReq` states one of these outcomes:

- Cancellation before a request, or an empty queue: nothing changes.
- Otherwise the queue head is taken. OpNum goes up by exactly 1 and (request, OpNum) is appended. The client's entry becomes {ViewNum, RequestNum, empty result}. The Prepare carries ViewNum, the request, the new OpNum and the old CommitNum.
- Cancellation during the quorum wait undoes all three: OpNum, the log and the table entry.
- A quorum raises CommitNum by exactly 1 and carries the reply {ViewNum, RequestNum, Op}.
- Anything else stalls on that request.

`Backup.ProcessIncomingPrepare` states one of these outcomes:

- Cancellation, or an empty queue: nothing changes.
- A gap blocks until the commit signal.
- Otherwise OpNum is the old local OpNum + 1 whatever `args.OpNum` is, one record is appended, and the client's entry becomes {ViewNum, RequestNum, empty}. The PrepareOk {ViewNum, OpNum, Id} goes on that prepare's own handle.
- ViewNum and CommitNum are outside the method's frame, and `args.ViewNum` is never read.

`View.DoViewChangeInstall` states what an install adopts:

- ViewNum becomes `args.ViewNum`.
- The log is the chosen message's log, which must be non-empty.
- OpNum becomes the op number of that log's last record.
- CommitNum becomes the collected maximum.
- A StartView goes to every other replica, then primary is signalled.

## Left out

- RPC and transport (registration, HTTP serving, dialing, `client.Go`/`Call`): sends are returned as `Outbound` values, and whether a call succeeded is an input.
- Dial failures inside `SendStartViewChange`, `sendDoViewChange`, `sendStartView` and `PerformRecovery` (`log.Fatal`) are not modelled; the connection cache itself is `Globals.Globals.GetOrCreateClient` with the dial result as an input.
- Goroutines, channels and mutexes: every handler runs sequentially. The outcome of each race is an input: cancellation, replies, arrival order, the commit signal.
- View.StartView: `ViewChangeDone` is unbuffered (view/view.go:38) and its only receiver is the supervisor's viewchange wait (monitor/monitor.go:99-101). In the code the handler blocks on the send at view/view.go:106 and sets ViewNum only after the supervisor takes the signal in viewchange mode. The model sets the view at once and returns the signal as `ViewChangeDone("backup")`. So it does not show a handler parked while the supervisor is in backup or primary mode, nor that the parked signal later completes an unrelated view change. The install's signal at view/view.go:183 (`View.InstallView`) parks the same way.
- The buffered `StartViewChangeChan` and its draining in `ClearViewChangeStates`: the signal is an emitted `SignalViewChange`. A full buffer, which would block the sender, is not modelled.
- Timers: their expiry is an event, and their durations are constants.
- Primary.RequestQueue.AddIncomingReq: a sender blocking on a full queue is modelled as nothing enqueued.
- Backup.PrepareQueue.AddIncomingPrepare: a sender blocking on a full queue is modelled as nothing enqueued.
- Primary.ProcessIncomingReq: a stalled quorum wait is an outcome. A later continuation by replies that arrive afterwards is not modelled.
- Backup.ProcessIncomingPrepare: the commit signal that releases a gap is an input. Only `DummyCommitService` (backup/backup.go:146-149) sends it, and nothing calls that.
- `log.Fatalf` paths are `Fatal` outcomes and the `Execute` type assertion is `NilEntryPanic`; the process exit itself is not modelled. The index panics in `Undo` (oplog/oplog.go:49), `applyRecoveryResps` (recovery/recovery.go:110) and `sameViewNums` (view/view.go:213) are excluded by a `requires`, because every call site has a non-empty log, response list or DoViewChange collection.
- Integers are unbounded: Go's 64-bit `int` overflow of the counters is not modelled.
- File I/O: reading and writing the crash marker is an input, and reading the configuration gives parsed rows. A malformed row or a failed `strconv.Atoi` exits the process in the code and is not modelled.
- Logging, flags and the go-cache library: the cache is a map, always used without expiration.
- The slices shared between the log and the messages built from it (aliasing of Go slice backing arrays): logs are values.
- Each handler reads the map iteration order `order` once. In the code each `AllOtherPorts()` call may iterate in a different order.
- Primary.Init and Backup.Init: the RPC registrations and the goroutines they start are not modelled. The requests or Prepares dropped with a replaced queue are not tracked, so the model does not show that their callers wait forever.
- ClientAdmission.Execute: it runs the corrected `Decide`, so for a present nil entry it processes the request where the code panics at primary/request.go:39 (see Findings).
- The backup's `BackupReply.Prepare` RPC, the `DummyCommitService` stub, `client/client.go`, `server/`, `main.go`, `src/main.go`, `basic/basic.go` and `view/startviewchange.go` are not part of this model.
- The recovery mode's transition to a role: the code's case is empty and never calls `PerformRecovery`.

## Findings

| source | as written | input that shows it | evidently intended | confidence | as-written member | corrected member |
|---|---|---|---|---|---|---|
| primary/request.go:39 | `ClientTable.Undo` stores nil when nothing was saved (table/table.go:36); `Execute` then type-asserts `res.(vrrpc.Response)` on that present nil entry and panics | a client's first request is cancelled during the primary's quorum wait (primary/primary.go:150-156); later, with this replica primary again, the client sends a request | a nil entry treated like no entry, so the request is processed | high (not executed) | ClientAdmission.CancelledFirstRequestPanicsAsWritten | ClientAdmission.CancelledFirstRequestIsReprocessed |

`ClientAdmission.DecideAsWritten` models the code as written, and
`ClientAdmission.Decide` is the corrected decision that `ClientAdmission.Execute`
uses.
