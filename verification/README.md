# Verified model of the Proxmox node agent

The agent runs on a Proxmox host, takes commands from a hub and manages simulation VMs, their USB dongles,
their tags, the host's crontab and the agent's own updates. This project models the parts of it that keep
state over time or edit documents in place, and proves what they promise over every input, every run and
every interleaving.

| file | what it models |
|---|---|
| `LongOps.dfy` | long operations: a command is accepted at once, runs in the background, and is recognised when it is delivered again |
| `Handlers.dfy` | the control flow of the ten long operations: which of their runs report a result |
| `TeardownLocks.dfy` | who may tear down a VM and when: global permits, batch permits, per-VM locks |
| `SimGuard.dfy`, `DeleteVms.dfy` | the guard in front of every VM command; the batch teardown and its bookkeeping |
| `GuestWatchdog.dfy` | the timed ladder that resets and power-cycles silent guests |
| `UpdateSwap.dfy` | the self-update: snapshot, swap by renames with a crash possible after every step, restore |
| `ManagedCrontab.dfy` | the hub-managed block inside root's crontab |
| `EnvStore.dfy` | the `.env` file and the install identity bound to a machine |
| `ConfigMerge.dfy` | pushed configuration and its deep merge |
| `Signing.dfy` | the canonical form messages are signed over |
| `Quarantine.dfy` | the strike ladder of USB buses |
| `UsbState.dfy`, `TeardownLedger.dfy` | the two assignment maps; failure counters, orphans and released buses |
| `SimTags.dfy` | the semicolon strings that hold a VM's tags |
| `Cadence.dfy` | the ceiling on fast telemetry |
| `BulkRouting.dfy` | which agent carries out which item of a bulk action |
| `Text.dfy`, `Options.dfy` | the string operations the editors rest on; a missing value |

Where the original changes state, a class does the same here, and each of its methods is tied to a function
of the old state; the properties are lemmas about those functions. Where a promise turned out to hold only
under a condition, the lemma is an equivalence and names the condition. Everything the original gets from
outside (subprocesses, the network, the clock, the file system's failures) is a parameter or an event that
may come out any way.

Facts about the code that the proofs bring out, some of them against its own comments:

- A desired crontab line that strips to the END marker breaks put-put and the read-back, and the operator's
  lines unless BEGIN lines hide whatever follows it; without one, all three hold for every crontab, however mangled
  its blocks are. The module comment promises preservation without this condition.
- A long operation that has reported success is reported failed as well when the sending of its result, or what
  comes after it, is cut off by a cancellation or an exception; the failure is then what a redelivery is answered.
- When crontab and target are both blank but different texts, an apply writes nothing and the status keeps
  reporting drift.
- A container reclone (`clone_lxc`), a fleet reclone, a manual provisioning pass, a reseed and every teardown of the
  provisioning loop or of a template refresh can be at work on a VM together with any other teardown of it: none of
  them takes the per-VM lock.
- A teardown looks its bus up before it waits for the hypervisor. If the VM has lost that bus when it ends and the
  bus serves another VM by then, that VM is left in one of the two assignment maps only.
- The temporary names of the update carry the process id, so what an aborted run left behind is cleared only by a
  process with the same id; the comment there says it is cleaned.
- A release that turns a file into a directory leaves the old file behind under its temporary name.
- The update trusts a snapshot by its agent.py alone. One that lost another file, because copying it failed, passes,
  and the restore then deletes the source tree and gives back one without that file.
- A watchdog pass that is abandoned, or whose save fails, loses its records, so the next one may act within the
  cooldown.
- A kept `.env` line without its newline swallows the next key written.
- The machine's fingerprint is the first id that can be read of three. On a machine whose ids differ, a boot that
  cannot read the machine-id but the product UUID takes its own `.env` for a clone's and replaces the identity.
- A fingerprint left in `.env` without a UUID, at a boot whose own fingerprint cannot be read, gives a UUID
  that the next boot replaces that reads another one.
- A soft reset is not repeated within a silence exactly when grace plus cooldown reaches the hard limit.
- The repair of the dongle maps makes them one-to-one only when every VM of the forward map is served by
  some bus; its comment promises it always.
- A wrong bus hint for a VM that has no bus takes another VM's bus out of one of the two maps.
- A wanted tag with a semicolon is written again on every sweep and can leave a tag of another kind.
- `apply_sim_tags` lists the whole cluster, not this host's VMs as its comment says; a VM elsewhere is an
  error of that sweep rather than skipped.
- A spell with simulation switched off does not end an active run: the ceiling on fast telemetry goes on counting
  from the first active tick before it.
- Without a readable list of protected VMs nothing from the floor on is protected.
- The bulk index and the per-item scan differ when some agent other than the first has an empty cluster
  name.

## Model

| member | source | states |
|---|---|---|
| LongOps.LongOpAgent.HandleLongOp | agent/src/cs_commands.py:98-166 | a delivery prunes expired ids and either re-acknowledges or records a new task: new state and reply are `Deliver` and `ReplyTo` of the old state |
| LongOps.LongOpAgent.SendTerminal | agent/src/cs_sim.py:106-128 | the result, completed or failed with its message, is emitted as it came and recorded on the id's entry if it still has one |
| LongOps.NextKeepsInv | agent/src/cs_sim.py:1183-1218 | every event (delivery, first step, report, return with or without a result, exception, cancellation, clock tick) keeps the table equal to what the history of tasks and results says |
| LongOps.AfterKeepsInv | agent/src/cs_commands.py:117-166 | the same over all runs |
| LongOps.LiveTasksAreApart | agent/src/cs_commands.py:117-166 | in every interleaving, two tasks of one id that are live together were spawned more than 600 s apart |
| LongOps.DeliveryIsDecidedByHistory | agent/src/cs_commands.py:117-166 | in every reachable state a delivery starts a task if and only if the history says so: none spawned, the latest one expired, or done without any result since; otherwise no task changes and the answer is ACCEPTED or the last result emitted for the id |
| LongOps.EventIsReported | agent/src/cs_sim.py:106-128 | one event: a report sends up exactly the outcome and message that the handler gave, an exception and the cancellation of a running task (agent/src/cs_sim.py:1205-1218) a failure, nothing else anything, each for the task's own action and id; only a delivery starts a task, with its own id and action, which never change |
| LongOps.OneEvent | agent/src/cs_sim.py:1183-1218 | how far one more event brings a task: it starts once; running it can come back, which ends it, or be left, which it reports before it ends; a cancellation ends it at once before its start or while it reports |
| LongOps.ResultsAreOutcomes | agent/src/cs_sim.py:116-122 | over all runs the result on record since the latest task of an id was started is what the last of those events said |
| LongOps.DeliveryIsAnswered | agent/src/cs_commands.py:106-166 | in every reachable state, by the events alone: refused while simulation is off; within the TTL ACCEPTED while the latest task runs, then the outcome and message of the last event that reported on the id since; else a new task |
| LongOps.FirstDelivery | agent/src/cs_commands.py:106-166 | an id without a task is accepted and starts one; with simulation off nothing changes |
| LongOps.DeliveryPrunes | agent/src/cs_commands.py:134-137 | no entry past its time stays in the table |
| LongOps.FailureIsAnsweredAsFailure | agent/src/cs_sim.py:1215-1218 | a teardown left by an exception is answered as failed, with its message |
| LongOps.RerunIffEndedSilently | agent/src/cs_commands.py:138-165 | whatever the handlers do, within the TTL a command runs again if and only if its latest task was cancelled before its first step or came back without a result, and no earlier task of it has reported since |
| LongOps.RerunIffNeverStarted | agent/src/cs_commands.py:138-165 | with handlers that come back as the agent's ten do, every task that took its first step and is over has reported, and within the TTL a command runs again if and only if its latest task was cancelled before its first step and no earlier task of it has reported since |
| LongOps.EveryOtherEndReports | agent/src/cs_sim.py:1196-1218 | a task that took its first step and ended by an exception, a refusal of the guard or a cancellation has emitted a result, one that never started has not; a handler that comes back is the subject of Handlers.HandlerReportsOnce |
| Handlers.HandlerReportsOnce | agent/src/cs_sim.py:308-1141 | in every run, whichever branches are taken and whatever raises or is cancelled, a handler of any of the ten long operations that comes back has reported exactly one result, and one that is left has reported at most one |
| Handlers.HandlerCanReport | agent/src/cs_sim.py:308-1141 | each of them can come back having reported completed, and having reported failed |
| Handlers.ReportsRuns | agent/src/cs_sim.py:308-1141 | code is sound for this whenever every path to a way back passes a report and none passes two, by a check on its structure |
| Handlers.TaskReports | agent/src/cs_sim.py:1183-1218 | a task that took its first step reports on every ending: what its handler reported and, if that was left by an exception or a cancellation, a failure after it; so once, or twice if and only if the handler was left after it had reported; an unknown action is reported failed, and a cancellation goes on |
| Handlers.BatchesNeedNoPermit | agent/src/cs_sim.py:1197-1204 | the two batch operations run their handler at once, any other waits for the permit first and holds it to the handler's end |
| Handlers.ReportedTwice | agent/src/cs_sim.py:1205-1210 | a teardown reported completed and then failed |
| TeardownLocks.OneInsidePerVm | agent/src/cs_sim.py:63-78 | in every interleaving at most one operation is in the locked section of a VM |
| TeardownLocks.PermitsAreBounded | agent/src/cs_sim.py:1174-1204 | never three operations with a handler are between their permit and their end, nor three workers between the permit of their batch and the end of their locked section (agent/src/cs_sim.py:388-415) |
| TeardownLocks.LetInIff | agent/src/cs_sim.py:1197-1204 | in every reachable state a waiting operation is let in if and only if fewer than two others have the permit of its sort: single operations share one (agent/src/cs_sim.py:1174), the workers of a batch theirs (agent/src/cs_sim.py:384-396), a fleet reclone and the loops need none |
| TeardownLocks.GoesOnIff | agent/src/cs_sim.py:63-78 | once let in, a single teardown or a worker waits only for another one at work on its VM under the lock, and no other operation for anything |
| TeardownLocks.NextKeepsInv | agent/src/cs_sim.py:385-421 | arrivals, steps and cancellations keep permits plus holders constant and the lock table true |
| TeardownLocks.NeverStuck | agent/src/cs_sim.py:283-305 | no reachable state is a deadlock: the holder of a VM lock never waits for a permit |
| TeardownLocks.RunsAreBounded | agent/src/cs_sim.py:1183-1218 | a run without arrivals is no longer than the work left |
| TeardownLocks.EverythingEnds | agent/src/cs_sim.py:1183-1218 | from every reachable state letting operations go on ends with all of them over |
| TeardownLocks.LockKeepsApart | agent/src/cs_sim.py:283-305 | in no reachable state are two operations that take the lock at work on one VM |
| TeardownLocks.MeetIff | agent/src/cs_sim.py:839-897 | two sorts of operation can be at work on one VM together if and only if at least one of them takes no VM lock: clone_lxc, provision_unassigned (agent/src/cs_sim.py:917), reseed (agent/src/cs_sim.py:1093), a fleet reclone (agent/src/cs_sim.py:770-792), a teardown of the provisioning loop (agent/src/usb_provision.py:3325) or of a template refresh (agent/src/template_ops.py:515-517) |
| TeardownLocks.BringIn | agent/src/cs_sim.py:1183-1204 | from any state with a permit left and the lock free an operation of any sort can arrive and get to work |
| DeleteVms.CollectTargets | agent/src/cs_sim.py:357-372 | the validation loop yields the distinct valid VMs in order and the refused ids |
| SimGuard.GuardedIff | agent/src/cs_guard.py:46-113 | with the ids a host resolves a VM passes the guard if and only if it is a number from 90000 on that a readable list does not name; without one, 1001 is refused as protected |
| DeleteVms.TargetsAreTheValidVms | agent/src/cs_guard.py:73-101 | the targets are exactly the listed ids that are numbers, unprotected and from 90000 on, each once |
| DeleteVms.TargetsKeepOrder | agent/src/cs_sim.py:361-370 | and come in the order in which they are first listed |
| DeleteVms.InvalidAreTheOthers | agent/src/cs_sim.py:361-366 | the refused ids are the other ones, as often as they are listed |
| DeleteVms.InvalidKeepOrder | agent/src/cs_sim.py:361-366 | in the order in which they are listed |
| DeleteVms.BatchTally.Count | agent/src/cs_sim.py:410-413 | one worker's update of the shared counters |
| DeleteVms.RunKeepsBooks | agent/src/cs_sim.py:392-421 | in every interleaving of the workers with each other and with everything else the agent runs, each worker is uncounted up to its permit, counted once after it, or cancelled before |
| DeleteVms.RunIsTheAgents | agent/src/cs_sim.py:392-421 | the bookkeeping only watches: operations, permits and locks are those of the same events without it |
| DeleteVms.EveryStateAddsUp | agent/src/cs_sim.py:385-421 | in every reachable state no VM is counted twice, a target is counted exactly when its worker has given its permit back, and the counter is the refused ids plus those |
| DeleteVms.ReportedAsItCameOut | agent/src/cs_sim.py:395-413 | in every reachable state a VM is among the deleted exactly when its worker left the locked section with success, among the failed exactly when it left it without |
| DeleteVms.OverBatchAddsUp | agent/src/cs_sim.py:385-421 | when all workers are over, successes, failures and the VMs of cancelled workers are together the targets, each once; the counter is the total if and only if none was cancelled |
| DeleteVms.BatchAddsUp | agent/src/cs_sim.py:385-436 | when all workers of a batch that was not cancelled are over, successes and failures are together a permutation of the distinct valid VMs, and deleted plus failed is the total |
| DeleteVms.PercentsRiseToHundred | agent/src/cs_sim.py:409-418 | in every reachable state the percentages sent so far never fall; the last is 100 if and only if every worker has counted |
| DeleteVms.PercentsAreShares | agent/src/cs_sim.py:411-413 | one percentage for each VM counted: the whole part of the share of the refused ids and the VMs counted by then |
| DeleteVms.FailedIffNothingDeleted | agent/src/cs_sim.py:423-436 | a batch that names a VM and was not cancelled is reported failed if and only if no worker succeeded |
| GuestWatchdog.Watchdog.RunPass | agent/src/guest_watchdog.py:194-394 | one pass: the new records and what was found for each checked VM; a pass without a listing, an abandoned one (agent/src/agent.py:1967-1975) or one whose save fails (agent/src/guest_watchdog.py:108-110) changes no record |
| GuestWatchdog.Watchdog.CheckVm | agent/src/guest_watchdog.py:254-386 | one VM down the ladder: the updated record and the outcome |
| GuestWatchdog.PassChecksIff | agent/src/guest_watchdog.py:238-252 | a VM gets an outcome if and only if it is in the fleet, above the floor, not protected, not busy and no template; any other VM of the fleet keeps its record, one that is gone loses it (agent/src/guest_watchdog.py:388-392) |
| GuestWatchdog.RecordIsHistory | agent/src/guest_watchdog.py:254-386 | over all sequences of passes the saved times and the streak of hung pings are the last heartbeat, the last action carried out and the hung pings since, as the saved passes saw them |
| GuestWatchdog.ActsIff | agent/src/guest_watchdog.py:295-386 | over all sequences of passes, by the history alone: a pass carries out an action if and only if it gets to the VM, the VM is silent, its commands work, no action was done within the cooldown, and it was never seen healthy (start), is silent past the hard limit (power cycle) or past the grace and not the limit (reset) |
| GuestWatchdog.LeftAlone | agent/src/guest_watchdog.py:238-252 | no pass acts on a VM that is busy, protected, a template, at or below the floor, not on the host, or that answers |
| GuestWatchdog.ActionsAreCooldownApart | agent/src/guest_watchdog.py:295-304 | over all sequences of completed, unsaved and abandoned passes, after an action of a completed pass the next one on that VM comes no sooner than the cooldown |
| GuestWatchdog.CooldownHoldsIff | agent/src/agent.py:1967-1975 | after a pass that acted, the cooldown holds over all continuations if and only if that pass is completed and saved (agent/src/guest_watchdog.py:108-110) |
| GuestWatchdog.AbandonedPassBreaksCooldown | agent/src/agent.py:1967-1975 | an abandoned and a completed pass that power-cycle a VM twice within the cooldown |
| GuestWatchdog.LaterActionsArePowerCycles | agent/src/guest_watchdog.py:295-386 | with grace + cooldown >= hard, whatever follows a recorded action in one silence is a power cycle, abandoned passes in between included |
| GuestWatchdog.OneResetIff | agent/src/guest_watchdog.py:295-386 | no reset follows a recorded reset in one silence if and only if grace + cooldown >= hard |
| GuestWatchdog.TwoResets | agent/src/guest_watchdog.py:331-386 | the two passes that show it when it is smaller |
| GuestWatchdog.ActsOnceGraceIsOver | agent/src/guest_watchdog.py:295-386 | a silent, checked VM whose commands work is acted on within max(grace, cooldown) + one gap |
| GuestWatchdog.RecoveredInTime | agent/src/guest_watchdog.py:295-386 | and is power-cycled within max(grace, cooldown) + cooldown + two gaps of its last heartbeat |
| UpdateSwap.Installation.Rename | agent/src/agent.py:1697-1704 | a rename moves a tree onto nothing, a file onto a file, a directory onto an empty one, and otherwise changes nothing |
| UpdateSwap.Installation.Rmtree | agent/src/agent.py:1700 | a deletion whose errors are ignored: any partial trees, any remains, nothing at all for what is no directory |
| UpdateSwap.Installation.Clear | agent/src/agent.py:1686-1693 | leftovers of an aborted run are deleted, or stay when that fails |
| UpdateSwap.Installation.SwapTree | agent/src/agent.py:1695-1700 | copy, old tree aside, new tree in, old tree dropped, with every state in between |
| UpdateSwap.Installation.SwapPlain | agent/src/agent.py:1702-1704 | copy and replace of a file, with every state in between |
| UpdateSwap.Installation.SwapOne | agent/src/agent.py:1680-1704 | one entry of the release, step by step: every state the directory passes through is that of `SwapItem` |
| UpdateSwap.Installation.Swap | agent/src/agent.py:1679-1704 | the loop over the entries, stopped by the first failure |
| UpdateSwap.Installation.ApplyUpdate | agent/src/agent.py:1549-1704 | whatever the snapshot came to: an installed commit, a version marked bad or a snapshot without a whole agent.py leave everything as it is; otherwise that snapshot is the backup and the swap begins |
| UpdateSwap.VerdictIff | agent/src/agent.py:1622-1656 | when an update goes which way, for each way if and only if: the swap begins exactly when the commit is new (agent/src/agent.py:1585-1586), the version is not marked bad and the snapshot holds an agent.py, possibly through a link, with the run method in its text |
| UpdateSwap.Installation.RestoreSnapshot | agent/src/update_recovery.py:445-488 | a restore touches the source tree only, reports whether the copy went through, and ends in `Rollback` when the failed tree could be deleted |
| UpdateSwap.SwapDirIsSafe | agent/src/agent.py:1686-1700 | in every state of a directory's swap its path holds the whole old tree, the whole new one, or is absent with both complete under the temporary names |
| UpdateSwap.SwapFileIsSafe | agent/src/agent.py:1686-1704 | in every state of a file's swap its path holds the old or the new file, and a directory is never replaced by a file |
| UpdateSwap.SwapFileIsSafeIff | agent/src/agent.py:1686-1704 | this fails exactly when clearing left a directory under the temporary name and nothing is in the way of its rename |
| UpdateSwap.CleanSwapIff | agent/src/agent.py:1686-1704 | when leftovers can be cleared, an entry of files and directories goes in, a directory always, a file if and only if no directory is in its place; the only temporary name left behind is that of a file replaced by a directory |
| UpdateSwap.DirSwapStates | agent/src/agent.py:1695-1700 | with nothing left over, every state of a directory's swap in order: the copies as they grow, the whole copy beside the old tree, the old tree aside with nothing in its place, the new tree in its place, the old one as it is deleted |
| UpdateSwap.NewDirSwapStates | agent/src/agent.py:1695-1700 | where nothing is in its place yet: the copies, the whole copy, the tree in its place |
| UpdateSwap.FileSwapStates | agent/src/agent.py:1702-1704 | and of a file's: the copies, the whole copy, the file in its place |
| UpdateSwap.LeftoversAre | agent/src/agent.py:1686-1693 | what clearing leaves under the temporary names: of a tree what its deletion left, a file that could not be removed, else nothing |
| UpdateSwap.StuckOldTreeStops | agent/src/agent.py:1697-1698 | a tree under the old tree's temporary name that cannot be cleared stops the entry, whose path stays as it was |
| UpdateSwap.CleanReleaseIff | agent/src/agent.py:1679-1704 | when leftovers can be cleared, a whole release goes in with every entry in its place if and only if each entry is `.env` or `venv`, or holds files and directories alone and is no file in the place of a directory |
| UpdateSwap.EveryCrashIsSafe | agent/src/agent.py:1669-1704 | after a crash at any step of the whole swap, with any partial copies and deletions, every item is safe and no other name has changed, provided no entry is named like another's temporary name and no directory is left under a file's (see SwapFileIsSafeIff); a swap that went through has every item in place |
| UpdateSwap.KeptIsNotTouched | agent/src/agent.py:1677-1681 | `.env` and `venv` are among the names never touched |
| UpdateSwap.ItemIsWellNamed | agent/src/agent.py:1682-1685 | the temporary names differ from the item's, from each other, from `.env`, `venv` and `src` |
| UpdateSwap.ListedItemsAreApart | agent/src/agent.py:1682-1685 | two entries get in each other's way only if one is named like the other's temporary name |
| UpdateSwap.StaleLeftoversStay | agent/src/agent.py:1676-1693 | leftovers of an aborted run stay through every update of a process with another id |
| UpdateSwap.RestoreUndoesSnapshotIff | agent/src/update_recovery.py:175-236 | restoring a snapshot gives a directory tree back if and only if it holds regular files and directories alone |
| UpdateSwap.RollbackAfterAnyCrashIff | agent/src/update_recovery.py:228-233 | a crash at any step of the swap (under the conditions of EveryCrashIsSafe), then a completed restore (agent/src/update_recovery.py:445-488), with any snapshot that copying the tree can leave: the source tree is what was captured, a tree of regular files and directories is the one before the update if and only if the snapshot is that whole tree, `.env` and `venv` are untouched |
| UpdateSwap.WholeSnapshotRollsBack | agent/src/update_recovery.py:445-488 | with the snapshot that a copy without failures takes, such a tree comes back after a crash at any step |
| UpdateSwap.TrustedSnapshotLosesAFile | agent/src/agent.py:1650-1656 | for every entry but agent.py there is a snapshot without it that passes the gate, and a restore from it after a crash at any step loses the entry |
| ManagedCrontab.Fence.SkipBlock | agent/src/managed_crontab.py:54-59 | the inner loop lands behind the first END line, or behind the end |
| ManagedCrontab.Fence.MarkersByText | agent/src/managed_crontab.py:54-57 | a line is a marker if and only if it is the marker with white space around it, or none |
| ManagedCrontab.Fence.StripBlock | agent/src/managed_crontab.py:40-68 | the index loop cuts out every managed block |
| ManagedCrontab.Fence.ReconcileBlock | agent/src/managed_crontab.py:71-98 | the text written is `Reconcile` of the existing text |
| ManagedCrontab.Fence.ReconcileByLines | agent/src/managed_crontab.py:71-98 | the text equals the line-by-line form: the operator's lines, a blank one, the fenced desired lines |
| ManagedCrontab.Fence.ReconciledLines | agent/src/managed_crontab.py:71-98 | splitting the written text gives exactly those lines |
| ManagedCrontab.Fence.BaseSurvives | agent/src/managed_crontab.py:40-98 | when no desired line is an END line, the operator's lines survive the writing as they are, blank ones included |
| ManagedCrontab.Fence.HiddenEndIff | agent/src/managed_crontab.py:82-85 | an END line survives the cleaning if and only if some desired line strips to it |
| ManagedCrontab.Fence.PutPutIff | agent/src/managed_crontab.py:71-98 | writing `d1` then any other text is writing the other alone, over every crontab, if and only if no line of `d1` strips to the END marker |
| ManagedCrontab.Fence.HiddenEndDamages | agent/src/managed_crontab.py:54-59 | with such a line a crontab of one blank line does not come back |
| ManagedCrontab.Fence.OperatorLinesKeptIff | agent/src/managed_crontab.py:40-98 | the non-blank lines outside managed blocks keep content and order, for mangled, repeated and unterminated blocks, if and only if no desired line strips to the END marker or BEGIN lines hide all that follows the first that does |
| ManagedCrontab.Fence.EndThenBeginIsHarmless | agent/src/managed_crontab.py:54-59 | an END line followed by a BEGIN line touches none of them |
| ManagedCrontab.Fence.ReadBackIff | agent/src/managed_crontab.py:80-98 | the block read back is exactly the cleaned desired lines if and only if none of them is an END line |
| ManagedCrontab.Fence.ManagedLinesInOrderIff | agent/src/managed_crontab.py:80-98 | read back position by position, the block holds the desired lines that are not blank, in the order given, each without trailing white space, if and only if none of them strips to the END marker |
| ManagedCrontab.ManagedIsProper | agent/src/managed_crontab.py:36-37 | the agent's markers are two different one-line texts, so all of this holds for them |
| ManagedCrontab.RootCrontab.Apply | agent/src/managed_crontab.py:137-165 | what an apply leaves, reports and returns, also when the crontab program rejects the text or fails to remove it |
| ManagedCrontab.ApplyReachesSyncIff | agent/src/managed_crontab.py:137-188 | after an apply of a text that hides no END line the status reads in sync, except when crontab and target are blank but different |
| ManagedCrontab.SecondApplyWritesNothing | agent/src/managed_crontab.py:149-151 | applying the same text again never writes, when it hides no END line |
| EnvStore.AgentEnv.EnvGet | agent/src/agent.py:816-830 | the first line that assigns the key |
| EnvStore.AgentEnv.EnvUpsert | agent/src/agent.py:832-844 | old assignments removed, new ones appended |
| EnvStore.AgentEnv.SaveSecret | agent/src/agent.py:682-699 | a provisioned secret is one such rewrite |
| EnvStore.AgentEnv.ClearSecret | agent/src/agent.py:701-722 | a cleared secret rewrites only an existing file |
| EnvStore.AgentEnv.MachineFingerprint | agent/src/agent.py:797-814 | the first id that can be read and is not empty, in the order of the three files |
| EnvStore.FingerprintFacts | agent/src/agent.py:797-814 | the fingerprint a boot sees is "" or one of the machine's ids, and any of them can be it |
| EnvStore.FingerprintIsFirst | agent/src/agent.py:803-814 | it is the id in the first file that can be read and has one: no readable file before it has an id; "" exactly when no readable file has one |
| EnvStore.AgentEnv.EnsureInstallUuid | agent/src/agent.py:846-892 | the file after a boot that can read some of the ids and the identity returned, also when the file cannot be opened for writing |
| EnvStore.GetAfterUpsert | agent/src/agent.py:816-844 | in a newline-terminated file updated keys read as written, without outer white space, and every other key as before |
| EnvStore.WriteReadsBackIff | agent/src/agent.py:816-844 | in any file, a key just written reads back (without outer white space) if and only if every line that stays is newline-terminated |
| EnvStore.ForeignLinesKept | agent/src/agent.py:682-722 | over every sequence of boots, saves and clears the lines of other keys keep content and order |
| EnvStore.StepFacts | agent/src/agent.py:846-892 | what one event does to the identity and its machine binding, whichever ids a boot can read |
| EnvStore.MintedLines | agent/src/agent.py:874-888 | a boot that mints ends the file with the line of the identity and then that of its binding |
| EnvStore.StableIff | agent/src/agent.py:846-892 | a stored identity survives every lifetime on a machine, whichever of its ids each boot can read, if and only if the ids it has and the stored fingerprint, as far as there is one, are all the same |
| EnvStore.OtherReadingMints | agent/src/agent.py:867-876 | a boot that reads another id of the same machine than the one bound replaces the identity, and the next boot that reads the bound one replaces it again |
| EnvStore.UnreadableMachineIdMints | agent/src/agent.py:797-814 | with the machine-id unreadable at one boot and a product UUID that differs, the machine's own identity is replaced |
| EnvStore.FirstMintIsStableIff | agent/src/agent.py:881-888 | the first minted identity is kept for good if and only if the machine's ids are all the same and, when that boot could read none, so is a fingerprint left over in the file |
| EnvStore.CloneGetsItsOwnIdentity | agent/src/agent.py:864-877 | a file bound to another fingerprint than the one read gets a fresh identity, kept for good if and only if the machine's ids are all the same |
| ConfigMerge.DeepMergeConfig | agent/src/agent.py:378-402 | the copying loop, in any key order, computes the merge |
| ConfigMerge.AgentConfig.UpdateConfig | agent/src/agent.py:2477-2488 | a push replaces the configuration by the merge |
| ConfigMerge.PushTwiceIsPushOnce | agent/src/agent.py:378-402 | a push delivered twice equals the push once |
| ConfigMerge.PushesCommuteIffAgree | agent/src/agent.py:378-402 | two pushes commute over every base if and only if they say the same wherever both set a value |
| ConfigMerge.KeepsPathIffUntouched | agent/src/agent.py:378-402 | a push keeps the value at a path over every base if and only if it does not touch the path |
| ConfigMerge.PushedValueWins | agent/src/agent.py:394-400 | a pushed scalar or list is what is read back |
| ConfigMerge.UntouchedOverAllPushes | agent/src/agent.py:378-402 | over any sequence of pushes an untouched path keeps its value |
| Signing.CanonicalIffSame | agent/src/security_utils.py:28-37 | canonical forms are equal if and only if the messages are equal up to key order at every level |
| Signing.CanonicalIsSame | agent/src/security_utils.py:28-37 | the canonical form is a message equal up to key order |
| Signing.CanonicalIsOrdered | agent/src/security_utils.py:28-37 | and its keys rise at every level |
| Signing.CanonicalizeIsIdempotent | agent/src/security_utils.py:28-37 | canonicalisation is idempotent |
| Signing.Signer.SignIgnoresOrder | agent/src/security_utils.py:39-48 | signatures do not depend on key order at any level |
| Signing.Signer.ReorderedIsAccepted | agent/src/security_utils.py:50-61 | any reordering of a signed message is accepted |
| Signing.Signer.SignaturesAgreeIff | agent/src/security_utils.py:39-48 | with a digest that tells secrets and texts apart, two signatures agree if and only if the secrets are equal and the messages are, up to key order and apart from their `signature` entries |
| Signing.Signer.AcceptedIffSigned | agent/src/security_utils.py:50-61 | with such a digest a message that carries the signature of another is accepted if and only if the secret is the same and the two are equal in that sense |
| Signing.Signer.VerdictIff | agent/src/security_utils.py:50-61 | a message is accepted exactly when its `signature` entry is the text of its own signature, and a signature that is present but no text is an error |
| Quarantine.Store.QuarantineBus | agent/src/usb_quarantine.py:227-269 | a fault opens an episode or changes nothing |
| Quarantine.Store.ClearQuarantine | agent/src/usb_quarantine.py:104-128 | one bus or all of them are forgotten |
| Quarantine.Store.Recover | agent/src/usb_provision.py:3112-3135 | the sweep resets what is due, keeps strikes and skips permanent buses |
| Quarantine.StrikesAreEpisodes | agent/src/usb_quarantine.py:42-56 | over every run strikes are the episodes since the last clear, at most five, permanent exactly from the fifth on, sidelined exactly during an episode or for good; the episodes are read off the history without a limit |
| Quarantine.BusesAreIndependent | agent/src/usb_quarantine.py:227-269 | what is stored for a bus depends on its own events and the sweeps alone |
| Quarantine.RepeatsChangeNothing | agent/src/usb_quarantine.py:231-247 | repeats inside an episode change nothing |
| Quarantine.PermanenceTakesHours | agent/src/usb_quarantine.py:44-56 | strikes are an hour apart, so a permanent bus has been failing for at least four |
| UsbState.Store.ClearAssignment | agent/src/usb_state_store.py:160-175 | the VM's bus, or else the hint, is released |
| UsbState.ClearIs | agent/src/usb_state_store.py:160-169 | over any two maps, key by key: the VM loses its entry, and the bus that leaves the reverse map is the VM's own, or else the hint |
| UsbState.Store.SetAssignment | agent/src/usb_state_store.py:259-297 | both maps after an assignment |
| UsbState.AssignIs | agent/src/usb_state_store.py:271-285 | over any two maps, key by key: VM and bus point to each other, the VM the bus served before and the bus the VM had before lose their entries, and nothing else changes |
| UsbState.Store.Group | agent/src/usb_state_store.py:332-335 | the buses of each VM in the order of the reverse map |
| UsbState.KeptIsNewest | agent/src/usb_state_store.py:347-348 | a VM whose forward entry names none of its buses keeps the one listed last |
| UsbState.Settled | agent/src/usb_state_store.py:341-363 | one VM of the repair: all its buses but the kept one leave the reverse map |
| UsbState.Store.ReconcileBusMap | agent/src/usb_state_store.py:314-368 | the two nested loops compute the repaired maps |
| UsbState.ClearKeepsMatchedIff | agent/src/usb_state_store.py:160-175 | clearing keeps the maps one-to-one if and only if the VM had a bus or the hint is nobody's |
| UsbState.AssignKeepsMatchedIff | agent/src/usb_state_store.py:259-297 | assigning keeps them one-to-one if and only if the bus has a name, and only the bus's former VM loses anything |
| UsbState.ReconcileKeepsEveryVm | agent/src/usb_state_store.py:314-363 | the repair drops no VM, leaves each one bus, the named one if it is among its own |
| UsbState.ReconcileIsCleanIff | agent/src/usb_state_store.py:314-363 | the repaired maps are one-to-one if and only if every VM of the forward map was served by some bus |
| UsbState.MatchedNeedsNoRepair | agent/src/usb_state_store.py:314-363 | one-to-one maps are left as they are |
| TeardownLedger.Host.EndDestroy | agent/src/cs_sim.py:222-277 | all four stores and the report when an attempt ends gone, destroyed or failed, with the bus it resolved before |
| TeardownLedger.Host.BeginDestroy | agent/src/cs_sim.py:209-223 | the guards, then the caller's bus or the one on record |
| TeardownLedger.FlightsWereResolved | agent/src/cs_sim.py:222-277 | every attempt in flight works with what the maps said when it looked |
| TeardownLedger.FlightsAreOpen | agent/src/cs_sim.py:222-277 | in every possible run the attempts in flight are those begun and neither ended nor dropped |
| TeardownLedger.Host.RecordDestroyFail | agent/src/usb_quarantine.py:300-314 | the counter, and at three the orphan entry |
| TeardownLedger.Host.ClearDestroyFails | agent/src/usb_quarantine.py:317-322 | one VM's counter is forgotten |
| TeardownLedger.Host.AddOrphan | agent/src/usb_state_store.py:83-95 | at most one entry per VM, the new one last |
| TeardownLedger.Host.RemoveOrphan | agent/src/usb_state_store.py:98-103 | the entries of the other VMs in their order |
| TeardownLedger.CounterIsFailuresModThree | agent/src/usb_quarantine.py:300-322 | over every run the stored counter is the number of failures since the last success, modulo three |
| TeardownLedger.OrphanedEveryThird | agent/src/usb_quarantine.py:300-314 | an attempt reports an orphan if and only if it is a third failure in a row |
| TeardownLedger.ReportIsHistory | agent/src/cs_sim.py:229-277 | what an attempt reports, by the history: that the VM was gone, that it was destroyed, or which failure in a row it was and whether that makes an orphan |
| TeardownLedger.RegistryIsHistory | agent/src/usb_state_store.py:83-103 | over every run the registry lists exactly the VMs orphaned since they were last destroyed, gone or provisioned again |
| TeardownLedger.NewOrphanIsLast | agent/src/usb_state_store.py:83-95 | a new orphan comes last, with the bus of the attempt, behind the entries of the other VMs |
| TeardownLedger.OthersKeepOrder | agent/src/usb_state_store.py:98-103 | taking a VM out of the registry keeps the order of the rest |
| TeardownLedger.ExcludedIsHistory | agent/src/cs_sim.py:234-236 | over every run a bus is excluded exactly when some attempt asked for it and released that bus: by success (agent/src/cs_sim.py:261-262), by finding the VM gone or as a third failure in a row (agent/src/cs_sim.py:270-272) |
| TeardownLedger.StaysMatchedIff | agent/src/cs_sim.py:222-272 | one event keeps the assignments one-to-one if and only if it is fair: when an attempt settles its VM still has a bus or the bus it resolved serves nobody, and assignments name their bus |
| TeardownLedger.MatchedThroughoutIff | agent/src/cs_sim.py:222-272 | over every run of overlapping attempts and assignments the maps are one-to-one all the way if and only if every event is fair at its turn |
| TeardownLedger.StaleBusSplitsTheMaps | agent/src/cs_sim.py:222-259 | for any two VMs and bus, a run without hints in which two attempts on a VM overlap, the bus is handed on, and the second attempt splits the maps |
| TeardownLedger.UndisturbedIsFair | agent/src/cs_sim.py:222-272 | an attempt that looks its bus up is fair when nobody else settles or moves its VM or gives its bus away while it is in flight |
| TeardownLedger.NothingMentionsTheDead | agent/src/cs_sim.py:229-265 | over every fair run, however attempts overlap, once an attempt ends in success or already gone no counter, orphan entry or assignment mentions the VM |
| TeardownLedger.OrphanReleasesItsBus | agent/src/cs_sim.py:266-272 | over every fair run an orphan has no bus, and the bus it had is free |
| TeardownLedger.OtherVmsAreUntouched | agent/src/cs_sim.py:222-277 | other VMs keep counter, orphan entry and bus, and after a fair event the bus knows them still |
| TeardownLedger.WrongHintSplitsTheMaps | agent/src/usb_state_store.py:160-169 | for any two VMs and bus, a foreign hint leaves a VM in one map only |
| SimTags.Host.SetTags | agent/src/pve_cmds.py:574-583 | blank tags dropped, the rest stripped and joined |
| SimTags.StoredHasNoGaps | agent/src/pve_cmds.py:579-583 | the stored string splits into the tags that are not blank, stripped, with no gaps between them |
| SimTags.Host.ApplySimTags | agent/src/pve_cmds.py:643-704 | the whole sweep: every VM's stored string, the reported updates in order, the errors |
| SimTags.Host.RetagTenant | agent/src/pve_cmds.py:586-636 | the whole retag, with VMs whose write fails left alone |
| SimTags.ReadUndoesStoreIff | agent/src/pve_cmds.py:574-583 | splitting undoes joining if and only if no tag has a semicolon |
| SimTags.SortedEqualIff | agent/src/pve_cmds.py:691-693 | comparing sorted lists compares them as multisets |
| SimTags.SkipsIff | agent/src/pve_cmds.py:684-693 | a VM is skipped if and only if its simulation tags are the wanted ones in any order |
| SimTags.WantedFacts | agent/src/pve_cmds.py:687-689 | the wanted tags are the named simulation tags, stripped, sorted, each once |
| SimTags.HandledIff | agent/src/pve_cmds.py:678-699 | a handled VM carries exactly the wanted simulation tags, and a second sweep skips it, each if and only if no wanted tag has a semicolon; its other tags then keep their order |
| SimTags.HandledByText | agent/src/pve_cmds.py:684-689 | tag by tag: one whose lower-case text begins with "sim-" is on a handled VM exactly when the request named it, any other exactly when it was there before |
| SimTags.SkippedIsUntouched | agent/src/pve_cmds.py:691-693 | a VM whose simulation tags are the wanted ones in any order keeps its stored string to the letter |
| SimTags.HostAfterSweep | agent/src/pve_cmds.py:678-699 | a host after a sweep, VM by VM and tag by tag: VMs not named and VMs whose write fails stay as they are; on any other a simulation tag is there exactly when the request names it for that VM, any other tag exactly when it was there before |
| SimTags.UpdatesIff | agent/src/pve_cmds.py:678-699 | a VM is reported as updated if and only if it is listed, named, its simulation tags are not the wanted ones and the write succeeds, with its new tags |
| SimTags.UpdatesKeepOrder | agent/src/pve_cmds.py:678-699 | in the order of the request |
| SimTags.SemicolonLeaks | agent/src/pve_cmds.py:678-699 | a wanted tag with a semicolon leaves a tag of another kind |
| SimTags.SecondSweepWritesNothingIff | agent/src/pve_cmds.py:643-704 | a repeated sweep over a host writes nothing if and only if no wanted tag of a listed VM has a semicolon |
| SimTags.RetagKeepsTheOthers | agent/src/pve_cmds.py:614-631 | a retag leaves all other tags and their order |
| SimTags.HostAfterRetag | agent/src/pve_cmds.py:596-631 | a host after a retag, VM by VM: nothing happens without two different names, to a VM whose write fails or to one without the old tag; any other loses the old tag and has the new one once, in its place or last |
| SimTags.RetagRemovesOldIff | agent/src/pve_cmds.py:614-631 | the old tag is gone if and only if no copy of it is stored with white space around it |
| Cadence.Telemetry.Step | agent/src/agent.py:3577-3652 | the three cadence fields and the pause after one tick |
| Cadence.StateIsHistory | agent/src/agent.py:3601-3644 | over every run the fields are the first active tick since the last idle one, and whether some active tick was overdue |
| Cadence.PauseIsHistory | agent/src/agent.py:3577-3652 | the pause after every tick by the history alone: an active one three seconds or past the ceiling the back-off; any other three seconds within fifteen seconds of a change, unless the ceiling was reached and no idle tick came since, and else a minute |
| Cadence.NoFastTickOnceOverdue | agent/src/agent.py:3623-3652 | once the ceiling is reached no tick before the next idle one is faster than the back-off (of at most a minute), in a change window or not |
| Cadence.FastIffWithinCeiling | agent/src/agent.py:3601-3652 | after any history an active tick is fast if and only if it comes within the ceiling of the first active tick since the last idle one, change or no change; else it gets the back-off |
| Cadence.FastTicksAreBounded | agent/src/agent.py:3601-3652 | in any unbroken run of active ticks, whatever came before, at most MAX/3 + 1 are fast, for every ceiling and every back-off other than the fast pause itself |
| Cadence.OffDoesNotReset | agent/src/agent.py:3593-3644 | active at 0, switched off at 300, active at 700: the first tick of the second run already gets the back-off |
| BulkRouting.BuildIndex | src/proxmox_spoke.py:1219-1224 | the index holds each named cluster's first agent |
| BulkRouting.Group | src/proxmox_spoke.py:1225-1233 | each agent's group is its items in the given order |
| BulkRouting.RouteVmBulk | src/proxmox_spoke.py:1207-1260 | no agents is an error; otherwise each item gives exactly one row, from its agent, in group order |
| BulkRouting.IndexIsScan | src/proxmox_spoke.py:1039-1050 | for a named cluster the index holds what the per-item scan finds |
| BulkRouting.ClusterIsBeforeSlash | src/proxmox_spoke.py:1047 | the cluster of an id is what stands before its first slash |
| BulkRouting.RouteIs | src/proxmox_spoke.py:1225-1233 | an item goes to the agent it names; else to the first agent of the cluster before its slash; else, and without a slash, to the agent connected first |
| BulkRouting.RoutesAgreeIff | src/proxmox_spoke.py:1039-1057 | for one item index and scan pick the same agent unless its cluster part is empty and another agent than the default is first with an empty name |
| BulkRouting.AlwaysAgreeIff | src/proxmox_spoke.py:1039-1057 | they agree on all items if and only if no agent has an empty cluster name or the first such agent is the default |
| BulkRouting.FaithfulMeansOnceEach | src/proxmox_spoke.py:1235-1260 | rows that are right per agent are the items' rows, each exactly once |

## Left out

- Subprocess, WebSocket, HTTP and file system effects are outcomes given as parameters; messages, logs and
  telemetry payloads are not modelled.
- HMAC-SHA256 (section 2 of RFC 2104) and JSON text are one unknown digest of the canonical form; a float is a
  mantissa and an exponent, without infinities and not-a-number.
- Signing.Signer.AcceptedIffSigned: that the digest tells every two inputs apart is a hypothesis.
- LongOps.RerunIffEndedSilently: a handler that comes back without a result is always possible there; that the
  agent's own ones never do is LongOps.RerunIffNeverStarted.
- Handlers.HandlerReportsOnce: conditions are left open and a step may go through, raise or be cancelled; what the
  steps do is in the other modules. A process that exits in the middle of update_agent is not a run.
- TeardownLocks.NeverStuck: permits and locks are values of a transition system in which any waiter may be
  next; the first-in-first-out order of the event loop's locks, and fairness, are not modelled.
- TeardownLocks.MeetIff: the fleet reclone's own concurrency limit is not modelled, nor is the order in which a
  provisioning pass takes its VMs.
- DeleteVms.PercentsRiseToHundred: percentages are whole-number quotients; the rounding of the original's
  division is not modelled.
- GuestWatchdog.Watchdog.RunPass: the texts of errors and the order of the summary lists are not modelled;
  the templates' check is taken to answer, and a VM in whose recovery a pass is abandoned counts as not reached.
- UpdateSwap.Installation.ApplyUpdate: the pull, the pending manifest, the copies of VERSION and of the commit
  marker, the package installation and the restart are not modelled.
- UpdateSwap.EveryCrashIsSafe: symbolic links at the top level of the install directory that point to
  directories or to nothing count as plain entries.
- UpdateSwap.Installation.RestoreSnapshot: what a copy makes of the remains of an incomplete deletion is left open;
  ownership is not modelled.
- UpdateSwap.Installation.SwapOne: an entry of the release is the tree read through its links.
- EnvStore.AgentEnv.EnsureInstallUuid: a write that fails half way and carriage returns are not modelled.
- EnvStore.StableIff: the ids of a machine, where they can be read, stay what they are over its lifetime.
- UpdateSwap.RollbackAfterAnyCrashIff: a second update within the same second, which adds to the backup directory of
  the first, is not modelled.
- SimTags.Host.ApplySimTags: a listing that gives no text for a VM's tags is not modelled.
- UsbState.Store.ReconcileBusMap: the list of pruned VMs and the per-bus side records (missing since, image,
  health, pending reboot) are not modelled.
- TeardownLedger.Host.EndDestroy: the recovery counters of a dongle, the expiry of queued guest commands, the
  pruning of vanished VMs and the provisioning loop's own copy of the maps are not modelled.
- Quarantine.Store.Recover: the clock is in whole seconds.
- Cadence.Telemetry.Step: the clock is a real number; a tick that fails altogether (and waits ten seconds) is
  not part of a run.
- TeardownLedger.ExcludedIsHistory: the end of an exclusion, by time or by unplugging, is not modelled.
- The bad-version registry is a set that gates `ApplyUpdate`, empty when it cannot be read; its pruning by version order, the remaining command
  handlers and the resource gate are not modelled.
