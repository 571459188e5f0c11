# Verified models of the lobby's stateful cores

This project models, in Dafny, the parts of the repository where state changes over time and where a
mistake would lose something: a job, a wake-up, a setting, a line of text. It proves what those parts
are for, over every run or every input.

Redis, SQLite and git appear as maps, sets and a commit graph whose single commands are atomic. What
the code mutates in place is a class or an array here; what it computes is a function. A method is
proved against a function or a relation, and the lemmas are about that.

| files | what they model |
|---|---|
| `WqKeys`, `WqOperations`, `WqQueue`, `WqRuns`, `WqTiming` | the work queue with one call as one step: conservation, at-most-once resolution, order, claim timing |
| `WqCommands`, `WqRefreshRace`, `WqStranded`, `WqWaiter`, `WqAnswers`, `WqWakeups` | the work queue with one Redis command as one step, under any interleaving: isolation of partitions, when a job ends up in two places or in none, what a wait answers, no lost wake-up and when a waiter can be woken no more |
| `IndexFollow` | how lobby processes agree on a commit of the index |
| `ApxBounce`, `ApxRegistry` | bounce settings, the connection registry and the routing of bounces |
| `ApxDataPackage`, `ApxHandlerIds` | the datapackage cache that rooms share, and the identifiers they listen on |
| `ApxRestart`, `ApxSpheres` | admin overrides across restarts, and the cached sphere pages |
| `DiffWords`, `DiffRender` | word changes within a line, and merging them with syntax tokens |
| `DiffMatching`, `DiffFiles`, `DiffLines` | greedy matching of lines and of files, line numbers, change blocks, hidden context |
| `ItemPool`, `SlotNames`, `IndexPathCodec` | item pool depletion, slot file names, the tilde escape |

`dafny verify dfyconfig.toml` checks all of it.

## Where the code does not do what it or its documentation says

Each of these is modelled as the code has it, with a lemma that shows the failing family and the
exact condition.

- Merging word changes is documented to join changes separated by whitespace only
  (`apdiff-viewer/src/diff/word_diff.rs:140-146`). The scan never stops, so a run extends to the last
  change of its type in the line. `DiffWords.ConsolidatedShape` says what comes out, and
  `DiffWords.EqualStaysExactlyOutside` which equal words stay Equal. No text is lost either way.
- An override for a slot that the room does not have, which turns on what is on by default, is
  written as the absence of a row and is not rebuilt (`ApxRestart.AdminRefines`).
- `UpdateTags` on a client that was kicked puts it back into the tag index, where bounces find it,
  while its slot does not list it any more: the indexes agree afterwards exactly when the client was
  registered (`ApxRegistry.ConnectionRegistry.UpdateTags`).
- Refreshing a claim reads and then writes. With the expiry checker in between, a job ends up waiting
  and claimed at once (a run in `WqRefreshRace.RefreshRacesWithChecker`). That is so exactly when a pass
  that found a claim of the job too old put it back and it was not taken out since
  (`WqRefreshRace.RefreshDoublesExactly`), so never for a job whose claims are within the timeout
  whenever they are listed (`WqRefreshRace.InTimeNeverDoubled`).
- A pass removes whatever claim is stored, not the one it found too old. If another worker claims the
  job between the pass's `ZADD` and its `HDEL`, the job ends up with its description and nothing else,
  for good (a run in `WqStranded.FreshClaimIsRemoved`, `WqStranded.LostForGood`).
  `WqStranded.StrandsExactly` says exactly when.
- A waiter can be left with nobody to wake it in three ways, each shown on a run: it subscribes after
  the result was cleaned up and the status key expired (`WqWakeups.ExpiredStatusIsMissed`); the job is
  cancelled, which sends no message (`WqWakeups.CancelledIsMissed`); or the job is stranded as above
  (`WqWakeups.StrandedIsMissed`). A blocked waiter can be woken, by any run with any new calls, exactly
  when it has the message, a resolver is past its checks, or there is a description and either a
  resolver about to read it or a claim held or still to be had
  (`WqWakeups.BlockedWaitsForGoodExactly`). A look at the status key begins such a wait exactly when
  none of this holds and no resolver wrote the status in the last 60 seconds
  (`WqWakeups.LosesWakeupExactly`).
- A process joining the others can overwrite a newer announcement that is made between its read and
  its write (a run in `IndexFollow.StaleJoinOverwrites`). `IndexFollow.JoinWriteGoesBackExactly` and
  `IndexFollow.FollowWriteGoesBackExactly` say exactly when, for the two ways in which joining writes,
  and `IndexFollow.JoinGoesBackOnlyWithTheBranch` when no other call comes in between.
- Comparing the sizes of location sets misses a swap (`ApxSpheres.SwappedLocationsAreMissed`). A clean
  entry is wrong after a poll exactly when it was not invalidated and a location listed for its slot
  changed state (`ApxSpheres.HostedRoom.RefreshCheckedLocations`), which growing sets rule out.
- A comment at `apx/api.go:278` says that alternative names are reset on a restart. They are restored.
- The buffer that `buildResponse` sets aside is exact for one game or more, and one byte short for none.

## Model

| member | source | states |
|---|---|---|
| WqKeys.CodesRoundTrip | wq/src/lib.rs:172-203 | priorities and statuses are read back as what was stored, and no other number is read as one |
| WqKeys.PendingInjective | wq/src/lib.rs:148-153 | two well-named partitions never share a sorted set |
| WqKeys.RequestsMeetExactlyInOnePartition | wq/src/lib.rs:134-153 | two accepted requests use the same sorted set exactly when they normalise to the same partition, also when one names the default partition |
| WqKeys.PendingDisjoint | wq/src/builder.rs:45-56 | no partition's sorted set is stored under the key of claims, partitions, a job, a result, a resolved status or a counter |
| WqQueue.WorkQueue.EnqueueJobIn | wq/src/lib.rs:840-886 | an accepted job is added under its normalised partition and the partition is recorded; an invalid partition changes nothing |
| WqQueue.WorkQueue.PopMin | wq/src/lib.rs:774-790 | takes the member with the smallest score and identifier, or nothing exactly when the set is empty |
| WqQueue.WorkQueue.ClaimJobIn | wq/src/lib.rs:757-825 | ends as the abstract claim does: hands out the first job that is not late, cancels every late one before it, and claims it for the worker |
| WqQueue.WorkQueue.CancelJob | wq/src/lib.rs:890-911 | a cancelled job leaves the pending set of its partition, the claims and the descriptions |
| WqQueue.WorkQueue.ReclaimJob | wq/src/lib.rs:440-461 | refreshes the claim of its owner, and fails without a change for anyone else |
| WqQueue.WorkQueue.ResolveJob | wq/src/lib.rs:463-551 | each error in order without a change, and otherwise claim, result, status, counter and cleanup as the callback decides |
| WqQueue.WorkQueue.DeleteJobResult | wq/src/lib.rs:735-747 | removes the result and the description |
| WqQueue.WorkQueue.ReclaimPass | wq/src/lib.rs:301-366 | the loop over a listing of claims puts back exactly the expired ones, in the partition and with the priority of the claim |
| WqQueue.WorkQueue.GetJobStatus | wq/src/lib.rs:555-583 | the result's status first, then a claim, then a description |
| WqQueue.WorkQueue.GetStats | wq/src/lib.rs:914-955 | the scheduled count, summed over the recorded partitions, is the number of pending jobs, given that the partitions in use are recorded (which every run keeps) |
| WqRuns.StartInv | wq/src/builder.rs:34-66 | a queue that was just built satisfies the invariant that runs start from |
| WqRuns.StepKeeps | wq/src/lib.rs:301-955 | every call keeps the queue's invariant: one place per job, descriptions for live jobs, counters equal to outcomes, recorded partitions |
| WqRuns.Conservation | wq/src/lib.rs:440-955 | at any point of any run an enqueued job is in exactly one of pending in one partition, claimed, resolved, cancelled, and no other job is anywhere |
| WqRuns.AtMostOnce | wq/src/lib.rs:463-551 | after one successful resolution no other succeeds for the job, whoever held it in between, and it is never handed out again |
| WqRuns.StaysResolved | wq/src/lib.rs:463-551 | a resolved job stays resolved with the same status for the rest of the run |
| WqRuns.StatsCountResolvedJobs | wq/src/lib.rs:914-955 | succeeded, failed and errored add up to the number of jobs resolved |
| WqRuns.PartitionsCoverPending | wq/src/lib.rs:840-886 | every partition with a pending job is recorded |
| WqRuns.HandsOutInOrder | wq/src/lib.rs:757-825 | a job handed out was enqueued for the partition asked for; whatever precedes it by priority and age was past the deadline it was enqueued with and is cancelled, requeued jobs included |
| WqRuns.HandsOutInTime | wq/src/lib.rs:783-825 | over any run, a job is handed out no later than the deadline it was enqueued with, with the parameters it was enqueued with |
| WqRuns.CancelsExactlyTheLate | wq/src/lib.rs:783-815 | a claim cancels exactly the late jobs that come before the one handed out; nothing is handed out exactly when all that waits is late |
| WqRuns.ClaimCancelsExactly | wq/src/lib.rs:757-825 | over any run, in terms of what was enqueued: a claim cancels a job if and only if it waits past its deadline ahead of the one handed out, and hands one out if and only if one waits within its deadline |
| WqRuns.ResultIsKept | wq/src/lib.rs:463-551 | from a successful resolution until the result is deleted, the status and result handed in are stored if and only if the callback asked for no cleanup and did not fail |
| WqRuns.StatusIsReadable | wq/src/lib.rs:521-540 | from a successful resolution until it expires, the short-lived status is the one the job ended with, the internal error of a failed callback included |
| WqRuns.LeavesNothingBehind | wq/src/lib.rs:463-911 | a live job that is cancelled, a deleted result and a resolution with cleanup leave no description, result, claim or pending entry at any later point of a run |
| WqRuns.PassMoves | wq/src/lib.rs:301-366 | a pass moves exactly the expired claims to the pending jobs of their partition with their enqueued priority |
| WqRuns.HandedIsClaimed | wq/src/lib.rs:783-815 | a job handed out was pending and within the deadline of its description, comes with its parameters, and is claimed by the asker with its priority and partition |
| WqTiming.ClaimStays | wq/src/claim.rs:37-49 | no call but the owner's resolution, a cancellation or a pass that finds the claim too old ends a claim |
| WqTiming.RefreshedClaimIsKept | wq/src/lib.rs:301-366 | over any run, a claim refreshed at least every timeout is never taken away |
| WqTiming.ResolvesExactly | wq/src/lib.rs:463-551 | over any run, a resolution succeeds if and only if the worker holds the claim and the status ends a job |
| WqTiming.WorkerEndsItsJob | wq/src/claim.rs:13-49 | a worker that was handed a job and refreshes its claim in time resolves it, whatever others do, unless it is cancelled, and what it hands in is kept |
| WqTiming.AbandonedClaimComesBack | wq/src/lib.rs:301-378 | an abandoned claim is pending again within one and a half timeouts when passes are instantaneous and half a timeout apart |
| WqCommands.StepIsolated | wq/src/lib.rs:301-912 | any one command of any call in flight keeps records, snapshots and sorted sets on the partition and priority the job was enqueued with |
| WqCommands.PartitionsStayApart | wq/src/lib.rs:757-886 | in every interleaving of commands, members, claims and handed-out jobs carry the partition and priority they were enqueued with |
| WqCommands.HandedAsRequested | wq/src/lib.rs:132-146 | in every interleaving, a job is handed only to a worker whose request named the partition in the words it was enqueued with, or both meant the default one |
| WqRefreshRace.StepWaiting | wq/src/lib.rs:301-912 | of all commands, only an enqueuer's and a pass's `ZADD` put a job into its sorted set, and only a claim or a cancellation in its partition takes it out |
| WqRefreshRace.WaitingExactly | wq/src/lib.rs:331-353 | once enqueued, a job waits exactly when it did and was not taken out, or a pass put it back and it was not taken out since |
| WqRefreshRace.ListedAsTooOld | wq/src/lib.rs:331-337 | what a pass has yet to put back was a stored claim that it found too old when it listed the claims |
| WqRefreshRace.RefreshDoublesExactly | wq/src/lib.rs:440-461 | in every interleaving, a refresh leaves a job both claimed and waiting if and only if a pass that found a claim of it too old put it back and it was not taken out again; if it was not waiting at the read, between read and write |
| WqRefreshRace.InTimeNeverDoubled | wq/src/lib.rs:301-366 | a job whose claims are within the timeout at every listing is never claimed and waiting at once |
| WqRefreshRace.RefreshRacesWithChecker | wq/src/lib.rs:440-461 | a run from the empty queue that ends with a refresh and a job both claimed and waiting |
| WqStranded.StrandsExactly | wq/src/lib.rs:338-353 | in every interleaving, between a pass's `ZADD` and `HDEL` for a job: it waits afterwards unless taken out since; it is left with its description and nothing else if and only if the description is there, it was taken out and not put back again, and no other call has it in hand |
| WqStranded.LostForGood | wq/src/lib.rs:301-366 | a job that neither waits nor is claimed nor in any call's hands stays so over any run |
| WqStranded.RunListsOnce | wq/src/lib.rs:318-331 | at any point of a run what a pass has listed has one claim for each job |
| WqStranded.FreshClaimIsRemoved | wq/src/lib.rs:338-353 | a run from the empty queue in which a pass removes the claim of a worker that has just been handed the job, and strands it |
| WqWaiter.StepKeeps | wq/src/lib.rs:488-723 | every command of resolver or waiter keeps: what is written or sent is a settled status, and a blocked waiter has no message it missed |
| WqWaiter.NoLostWakeup | wq/src/lib.rs:605-723 | in every interleaving, a blocked waiter has the message, or the publish is still to come, or the resolver wrote its status a full 60 seconds before the waiter looked |
| WqWaiter.PublishWakes | wq/src/lib.rs:521-540 | publishing wakes a blocked waiter and makes it return the status published |
| WqWaiter.ReturnsFinalStatus | wq/src/lib.rs:605-723 | any status returned was settled by a resolver; with one resolver it is its final status |
| WqAnswers.StoredResultIsReturned | wq/src/lib.rs:605-723 | over any run, while a result is stored from the beginning of a wait on, the waiter never blocks, and after six steps of its own it has returned a status that was stored and that a resolver settled |
| WqAnswers.UndisturbedWait | wq/src/lib.rs:555-723 | what a wait that nobody disturbs comes to: the stored result, else the status key while it lasts, else blocking when the job is known, else not found |
| WqAnswers.UndisturbedResolve | wq/src/lib.rs:463-551 | what a resolution that nobody disturbs comes to: claim ended, subscribed waiters told, status written for 60 seconds, and the result left or cleaned up; or nothing changed without the claim or the description |
| WqAnswers.ReturnsWhatWasHandedIn | wq/src/lib.rs:463-723 | over any run, a status that a wait returns was handed in to some resolution, or is the internal error of its failed callback |
| WqWakeups.LooksInVainExactly | wq/src/lib.rs:585-603 | over any run, a look at the status key ends in blocking if and only if no resolver wrote it within the last 60 seconds |
| WqWakeups.NothingWakes | wq/src/lib.rs:675-715 | when no message can be sent any more, a waiter blocked without one stays so over any run, with any new calls in it |
| WqWakeups.WaitsForGoodExactly | wq/src/lib.rs:463-551 | a blocked waiter can still be woken if and only if it has the message, a resolver is past its checks, there is a description with a resolver about to read it or a claim held or to be had before the deadline, or the job is yet to be enqueued |
| WqWakeups.BlockedWaitsForGoodExactly | wq/src/lib.rs:605-723 | the same over any run, where a blocked waiter's job has been enqueued |
| WqWakeups.LosesWakeupExactly | wq/src/lib.rs:605-723 | over any run, a look is the beginning of waiting for good if and only if no message came, none can be sent any more, and no resolver wrote the status within the last 60 seconds |
| WqWakeups.ExpiredStatusIsMissed | wq/src/lib.rs:585-603 | a run in which a waiter sees the job, a resolver publishes and cleans up, 60 seconds pass, and the waiter blocks for good |
| WqWakeups.CancelledIsMissed | wq/src/lib.rs:890-911 | a run in which the job of an ordinary blocked waiter is cancelled, and nothing can wake the waiter |
| WqWakeups.StrandedIsMissed | wq/src/lib.rs:338-353 | a run in which a pass takes another worker's claim, and nothing can wake the waiter although the job has its description |
| IndexFollow.StepKeeps | lobby/src/index_manager.rs:261-364 | every step of every process keeps: having seen an announcement means being on it, unless an update is unannounced |
| IndexFollow.QuietMeansAgreement | lobby/src/index_manager.rs:324-351 | when no `follow_once` would act, each process without an unannounced update holds the announced commit |
| IndexFollow.FollowingProgresses | lobby/src/index_manager.rs:324-351 | every step of following that does anything, interleaved in any way, strictly decreases a measure, and looks that find nothing do not increase it |
| IndexFollow.FollowingConverges | lobby/src/index_manager.rs:324-364 | from any reachable state, with looks that find nothing allowed at any time, following does something a bounded number of times, and ends in agreement |
| IndexFollow.RefreshReachesEveryone | lobby/src/index_manager.rs:261-351 | after a process loads the head of the branch and announces it, following in any interleaving ends with every process on that commit, but for others with an update they did not announce |
| IndexFollow.FollowOnceDecreases | lobby/src/index_manager.rs:324-351 | an effective call decreases (announced commit missing, processes not on it) |
| IndexFollow.JoinGoesBackOnlyWithTheBranch | lobby/src/index_manager.rs:353-364 | joining replaces the announcement by an ancestor of it if and only if the commit cannot be fetched and the branch is at an ancestor |
| IndexFollow.JoinWriteGoesBackExactly | lobby/src/index_manager.rs:353-364 | in every interleaving, what a joining process decided to announce takes the announcement back if and only if others announced in between and the last of these has the joining commit as an ancestor |
| IndexFollow.FollowWriteGoesBackExactly | lobby/src/index_manager.rs:324-351 | the same for the announcement made when the wanted commit cannot be loaded; it also goes back when nobody announced since and the branch is at an ancestor |
| IndexFollow.StaleJoinOverwrites | lobby/src/index_manager.rs:353-364 | a run in which another process announces in between and joining overwrites the newer announcement |
| ApxBounce.BounceInfoStore.ExcludeByTag | apx/bounce.go:122-129 | adds exactly the pair to the exclusions |
| ApxBounce.BounceInfoStore.UnexcludeByTag | apx/bounce.go:131-138 | removes exactly the pair and keeps no empty entry |
| ApxBounce.BounceInfoStore.CanSendDeathlink | apx/bounce.go:147-156 | lets a deathlink through when the throttle has passed, and remembers only those let through |
| ApxBounce.DeathlinksAreThrottled | apx/bounce.go:147-156 | those let through are a throttle apart, and each one that is not is close to one that was |
| ApxRegistry.ConnectionRegistry.Register | apx/server.go:267-284 | adds the client to all indexes, which stay in agreement |
| ApxRegistry.ConnectionRegistry.UpdateTags | apx/server.go:286-301 | replaces a client's tags, repeated ones included, in table and tag index; all indexes agree afterwards if and only if the client was registered |
| ApxRegistry.ConnectionRegistry.Kick | apx/server.go:309-330 | takes out and cancels exactly the clients of the slot |
| ApxRegistry.ConnectionRegistry.Unregister | apx/server.go:332-367 | takes out one client and nothing else; does nothing for a client already kicked |
| ApxRegistry.ConnectionRegistry.ConnectedSlotCount | apx/server.go:303-307 | the number of slots with a live client |
| ApxRegistry.OfSlot | apx/server.go:267-367 | under the agreement a slot's list holds each of its live clients once and nobody else |
| ApxRegistry.TaggingAKickedClientBreaksAgreement | apx/server.go:286-301 | giving tags to a client keeps the slot index in agreement if and only if the client is registered |
| ApxRegistry.ConnectionRegistry.Targets | apx/server.go:397-518 | the loops over tags, games and slots collect, once each, exactly the clients on one side of the sender that match and are not limited |
| ApxRegistry.ConnectionRegistry.BroadcastBounceFromSlot | apx/server.go:369-395 | own-slot and other-slot targets are free of repeats, disjoint, and equal to a scan of all live clients |
| ApxDataPackage.GameKeyInjective | apx/datapackage.go:99-104 | without colons in checksums a key determines checksum and game |
| ApxDataPackage.ColonsCollide | apx/datapackage.go:99-104 | two packages that share a key when a checksum has a colon |
| ApxDataPackage.GlobalDataPackageCache.GetOrAdd | apx/datapackage.go:99-140 | one more hold on the key, the cached wrapper or a new one on the cached datapackage of its checksum, both counts exact again |
| ApxDataPackage.GlobalDataPackageCache.Release | apx/datapackage.go:142-159 | gives up one hold for each key listed and keeps both counts exact |
| ApxDataPackage.GlobalDataPackageCache.NothingHeldNothingCached | apx/datapackage.go:142-159 | with nothing held both maps are empty |
| ApxDataPackage.HoldNew | apx/datapackage.go:110-140 | caching a new wrapper keeps each count equal to the holds and users it stands for |
| ApxDataPackage.LetGoLast | apx/datapackage.go:145-158 | dropping the last hold removes the wrapper, and the datapackage with its last wrapper |
| ApxDataPackage.HeldIsTotal | apx/datapackage.go:161-193 | the keys held are those of the unreleased stores, with multiplicity, after every operation |
| ApxDataPackage.AllReleasedNothingHeld | apx/api.go:90-102 | when every store is released nothing is held |
| ApxDataPackage.HeldOverRun | apx/datapackage.go:161-193 | over any run of any number of rooms, each released at most once, the keys held are those of the stores not yet released, and none once all are |
| ApxDataPackage.ServeRooms | apx/datapackage.go:99-193 | over any such run the real cache counts, for each key, how often unreleased stores hold it, and for each datapackage its wrappers; both maps are empty once all stores are released |
| ApxDataPackage.DataPackageStore.AddDataPackage | apx/datapackage.go:161-179 | the store holds one key more, has the cached wrapper's datapackage and encoded name for the game, and what it copied stays consistent |
| ApxDataPackage.DataPackageStore.BuildResponse | apx/datapackage.go:360-391 | the response, an error exactly for an unknown game, and the size set aside: its length except for no games |
| ApxDataPackage.EachGameIsSent | apx/datapackage.go:376-389 | at its place in the response each game has its encoded name, a colon and its datapackage, with a comma before the next one and nothing after the last |
| ApxHandlerIds.ScanVisitsEveryId | apx/api.go:1906-1934 | the wrapping scan from any start visits every identifier of the range exactly once |
| ApxHandlerIds.RoomRegistry.FindIds | apx/api.go:1896-1940 | usable preferred identifiers are kept; two distinct free ones are found if and only if two are free |
| ApxHandlerIds.RoomRegistry.AllocateAndRegisterHandlerPair | apx/api.go:1893-1950 | succeeds exactly when two are free, registers two distinct free ones, and changes nothing on failure |
| ApxHandlerIds.RoomRegistry.Remove | apx/api.go:90-102 | both identifiers are free again |
| ApxRestart.AdminRefines | apx/api.go:1097-1282 | memory stays what a restart would rebuild after an admin operation if and only if the operation is not one that turns on a default for a foreign slot |
| ApxRestart.MemoryIsDefaultXorRow | apx/api.go:584-628 | for a slot of the room a flagged feature is its default, flipped by a row |
| ApxRestart.ReflaggingResetsOneFeature | apx/api.go:471-490 | changing a flag resets that feature to the new default and leaves the others |
| ApxRestart.RunKeeps | apx/api.go:437-650 | over any run of operations, stops and starts memory is what the rows rebuild |
| ApxRestart.RestartRestoresMemory | apx/api.go:584-650 | stop and start with unchanged flags bring back the very same state |
| ApxRestart.AppliesAsAsked | apx/api.go:1097-1282 | an operation does what it asks and nothing else: the setting of its slot, tag or name is as asked, the count one higher, and every other slot, tag, name and field as before; exactly one memory is like that |
| ApxRestart.LastAskedHolds | apx/api.go:1097-1282 | over any run of operations, stops and starts, what was last asked about a slot, tag or name is the case, unless a start changed the flag of just that feature |
| ApxRestart.DeathsAreKnown | apx/api.go:630-640 | the death count of a slot in memory is the number of its deaths in the whole run, restarts included |
| ApxRestart.LoadAltConnectNames | apx/db.go:246-263 | the loop over the rows builds the map they stand for |
| ApxRestart.HostedRoom.constructor | apx/api.go:437-554 | starting a stopped room drops the rows that new flags make stale and rebuilds memory from the rest |
| ApxRestart.HostedRoom.MakeFresh | apx/api.go:882-893 | the defaults of a room under its flags |
| ApxRestart.HostedRoom.RestoreTagExclusions | apx/api.go:584-600 | the loop lays the tag rows over the defaults, with the deathlink tag flipped when the flag says so |
| ApxRestart.HostedRoom.RestoreFullFeed | apx/api.go:614-628 | the loop lays the full-feed rows over the default |
| ApxRestart.HostedRoom.HandleFullFeedUser | apx/api.go:1097-1143 | memory and rows change as the operation says; the slot has the full feed exactly as asked and every other slot as before |
| ApxRestart.HostedRoom.HandleBounceExclusions | apx/api.go:1154-1205 | the pair is excluded exactly as asked and every other pair as before; the row is written flipped for the deathlink tag when that is the default |
| ApxRestart.HostedRoom.HandleSlotBounceExclusions | apx/api.go:1217-1246 | the slot is limited to itself exactly as asked and every other slot as before, in memory and rows |
| ApxRestart.HostedRoom.HandleDeathlinkProbability | apx/api.go:1248-1282 | sets memory and row to a value between 0 and 1, and changes nothing for any other |
| ApxRestart.HostedRoom.HandleAltConnectName | apx/api.go:1509-1563 | refuses names that are taken or slots that are not there; otherwise the name stands for what was asked, every other name for what it did, in memory and rows |
| ApxRestart.HostedRoom.LogDeath | apx/db.go:272-279 | the count of the slot is one higher and every other as before, in memory and in the rows |
| ApxSpheres.SizesTellGrowth | apx/api.go:1635-1682 | when sets only grow, a slot changes exactly when its size does |
| ApxSpheres.PagesAgreeExactly | apx/api.go:1307-1339 | two sets give a slot the same page if and only if every location listed for the slot is in both or in neither |
| ApxSpheres.PageIs | apx/api.go:1307-1339 | the page has a result for each sphere that lists the slot, in order; each entry has its location, the game's name for it and whether it is checked, with the number of entries and of checked ones |
| ApxSpheres.PageIsOnly | apx/api.go:1307-1339 | no other page is like that |
| ApxSpheres.SwappedLocationsAreMissed | apx/api.go:1635-1682 | a swap of two locations keeps the size and changes the page |
| ApxSpheres.HostedRoom.RefreshCheckedLocations | apx/api.go:1635-1682 | invalidates the slots whose set changed in size; a right clean entry is wrong afterwards if and only if it was not invalidated and a listed location changed state, which growth rules out; finished slots stay finished under growth |
| ApxSpheres.HostedRoom.HandleSpheresForSlot | apx/api.go:1284-1353 | answers, cached or not, with the one page that has a right result for each sphere listing the slot, and with the 404 cases |
| ApxSpheres.HostedRoom.HandleIncompleteSphere1 | apx/api.go:1417-1454 | the answer is the slots not done with sphere 1, slots it does not mention included, if and only if every slot marked as finished still is |
| ApxSpheres.HostedRoom.IsSphere1Incomplete | apx/api.go:1586-1593 | some location is unchecked |
| DiffWords.WordsAreMaximalRuns | apdiff-viewer/src/diff/word_diff.rs:10-36 | words spell the line, none is empty, each is all whitespace or none, neighbours differ |
| DiffWords.SideTiles | apdiff-viewer/src/diff/word_diff.rs:81-138 | for any edit script the segments of a side tile its line |
| DiffWords.SegmentsOfSides | apdiff-viewer/src/diff/word_diff.rs:81-138 | walking the script once gives the two sides independently |
| DiffWords.ConsolidationRunsToTheLast | apdiff-viewer/src/diff/word_diff.rs:191-220 | the end found is after the last segment of the type, whatever is between |
| DiffWords.ConsolidateTiles | apdiff-viewer/src/diff/word_diff.rs:146-188 | merging changes keeps a tiling a tiling of the same line |
| DiffWords.ConsolidatedShape | apdiff-viewer/src/diff/word_diff.rs:146-188 | everything between the first and the last change becomes one segment, the rest stays |
| DiffWords.EqualStaysExactlyOutside | apdiff-viewer/src/diff/word_diff.rs:140-220 | an equal word stays Equal if and only if it is outside the first and last change |
| DiffWords.EqualWordStaysExactlyOutside | apdiff-viewer/src/diff/word_diff.rs:10-220 | from two lines to what is shown: for a script over their words, an equal word of either side is shown as Equal if and only if it is outside the first and last change of its line |
| DiffWords.ConsolidatedAt | apdiff-viewer/src/diff/word_diff.rs:146-220 | after merging a character is changed exactly when it is between the first and the last change of its line, with the type of its side |
| DiffWords.ChangedCharactersExactly | apdiff-viewer/src/diff/word_diff.rs:10-220 | from two lines to what is shown: for a script over their words a character of either line is shown as deleted or inserted, by its side, if and only if it is between the first and last change, which every character of a changed word is |
| DiffWords.WordChangesTile | apdiff-viewer/src/diff/word_diff.rs:38-56 | both sides of a word diff tile their lines, long lines included |
| DiffRender.RenderMultiTokenSegment | apdiff-viewer/src/diff/mod.rs:86-128 | the loop over tokens emits the pieces of a change in order, each escaped and in its token's style |
| DiffRender.ChangeLabels | apdiff-viewer/src/diff/mod.rs:53-128 | a change emits its own text, each character in the style of the token covering it, in all three cases |
| DiffRender.MergeLabelsEveryCharacter | apdiff-viewer/src/diff/mod.rs:41-128 | over two tilings the output is the line, each character with its token's style and its segment's change type |
| DiffRender.EscapeIsUndone | apdiff-viewer/src/diff/mod.rs:74-84 | reading HTML back undoes the escaping of any text, in whatever style and change it stands |
| DiffRender.MergeShowsLine | apdiff-viewer/src/diff/mod.rs:41-137 | read back from HTML, a merged line is the line, each character in its token's style and inserted, deleted or neither as its segment says |
| DiffRender.WordDiffShowsBothLines | apdiff-viewer/src/diff/mod.rs:41-137 | from any edit script to HTML, both lines are shown unchanged, in their tokens' styles and with their segments' changes |
| DiffRender.HtmlMarksChangesExactly | apdiff-viewer/src/diff/word_diff.rs:38-220 | from two lines to HTML: each character is shown in its token's style, and as deleted or inserted if and only if it is between the first and last change of its line |
| DiffMatching.SortDownSorts | apdiff-viewer/src/diff/mod.rs:700-705 | the sort orders by similarity and has the same candidates |
| DiffMatching.SortDownIsStable | apdiff-viewer/src/diff/mod.rs:700-705 | the sort loses and repeats nothing, and equally similar candidates keep their order |
| DiffMatching.GreedyChooses | apdiff-viewer/src/diff/mod.rs:705-731 | greedy choice is injective, above the threshold, and every candidate left out is blocked by one at least as similar |
| DiffMatching.SimilarLengths | apdiff-viewer/src/diff/mod.rs:733-740 | lengths are similar exactly when neither is more than twice the other |
| DiffMatching.CandidatesAre | apdiff-viewer/src/diff/mod.rs:612-698 | the candidates are exactly the pairs that are compared and similar enough, windowed in large blocks |
| DiffMatching.LineMatchesAreBlocking | apdiff-viewer/src/diff/mod.rs:612-731 | line matches share no line, are similar enough, and each similar pair left out lost a line to a pair at least as similar |
| DiffMatching.SimilarityIs | apdiff-viewer/src/diff/mod.rs:742-759 | similarity is between 0 and 1, the part of the longer line that no edit touches, 1 for equal lines within the length limit only, and 0 beyond the limit |
| DiffMatching.FewerEditsMoreAlike | apdiff-viewer/src/diff/mod.rs:742-759 | at the same longer length lines are more alike if and only if fewer edits are between them |
| DiffMatching.EqualLinesAreMatched | apdiff-viewer/src/diff/mod.rs:612-759 | a deleted line that is compared with an equal added one is matched to an equal line, or the added one is |
| DiffMatching.LeftOutForFewerEdits | apdiff-viewer/src/diff/mod.rs:612-759 | a compared pair with edits to less than three quarters of its longer line is matched, or lost a line to a pair with no more edits in proportion |
| DiffFiles.ExactRenames | apdiff-viewer/src/diff/compute.rs:104-120 | renames of equal content are a matching and leave no two equal files unmatched |
| DiffFiles.SimilarPairs | apdiff-viewer/src/diff/compute.rs:122-147 | exactly the remaining text pairs at or above the threshold |
| DiffFiles.PickGreedily | apdiff-viewer/src/diff/compute.rs:149-157 | the loop chooses greedily among the sorted pairs |
| DiffFiles.DetectRenames | apdiff-viewer/src/diff/compute.rs:94-160 | exact renames first and maximal, then similar ones, no file in two renames, every similar pair left out blocked |
| DiffFiles.FilePairs | apdiff-viewer/src/diff/compute.rs:19-92 | common and unmatched paths stand opposite themselves and renamed ones opposite their match; every old path is on the old side of exactly one pair and every new path on the new side of exactly one |
| DiffLines.BuildDiffLines | apdiff-viewer/src/diff/compute.rs:243-271 | each line has its type, its text without line ending, and as number how many lines of its side precede it, plus one |
| DiffLines.NumbersAreExact | apdiff-viewer/src/diff/compute.rs:251-271 | each number from 1 to the length of a text is on exactly one line of the diff, and no other number is |
| DiffLines.NumberedLineShows | apdiff-viewer/src/diff/compute.rs:251-271 | a line with number n of a side shows line n of that side's text without exactly its line ending, and is context, deleted or added by which numbers it has |
| DiffLines.FindChangeBlocks | apdiff-viewer/src/diff/mod.rs:583-610 | blocks are maximal, in order and apart, and cover every deleted line |
| DiffLines.HighlightBlock | apdiff-viewer/src/diff/mod.rs:563-579 | matched lines of a block get the word changes of their pair, no other line changes, and twice as many lines change as there are matches |
| DiffLines.ApplyWordHighlighting | apdiff-viewer/src/diff/mod.rs:559-581 | over all blocks each match shows its word changes, each line gets them at most once, and no other line or field changes |
| DiffLines.CollapseContextRegions | apdiff-viewer/src/diff/compute.rs:313-345 | in place, exactly the hidden lines are collapsed, and the first of each stretch carries its count |
| DiffLines.HiddenIsFarFromChanges | apdiff-viewer/src/diff/compute.rs:313-345 | a context line is hidden if and only if its run is over 20 lines and every line within three of it is context |
| DiffLines.CountsAddUp | apdiff-viewer/src/diff/compute.rs:331-343 | up to the end of any run the counts add up to the lines hidden |
| ItemPool.ExactCopiesGo | ap-worker/checker.py:258-268 | of every item exactly the smaller of requested and available copies is removed, and the rest is still wanted |
| ItemPool.NothingWantedNothingTaken | ap-worker/checker.py:263-265 | once nothing is wanted the rest of the pool stays as it is, which makes stopping early sound |
| ItemPool.TakeFromPool | ap-worker/checker.py:257-268 | the loop with its early stop keeps what the plain pass over the whole pool keeps |
| ItemPool.PlayerLosesWhatWasFound | ap-worker/checker.py:258-268 | a player loses as many items as requests of theirs were met |
| ItemPool.CreateFillers | ap-worker/checker.py:252-256 | one filler for each item requested by the player |
| ItemPool.RemoveFillers | ap-worker/checker.py:275-277 | the list popped from is never empty, the item popped is always there to remove, and exactly that many fillers of that player go |
| ItemPool.TakeBack | ap-worker/checker.py:271-277 | each player is left with a filler for each request that was met |
| ItemPool.Replenish | ap-worker/checker.py:243-279 | the length assertion holds, every player's count is unchanged, and the pool is fillers followed by what was kept |
| SlotNames.DecimalInjective | lobby/src/generation.rs:58 | two suffixes are never written alike |
| SlotNames.TakenSuffixes | lobby/src/generation.rs:57-63 | suffixes found taken account for as many distinct names in use |
| SlotNames.NextName | lobby/src/generation.rs:51-64 | the search ends within as many tries as there are names and finds the first free suffix |
| SlotNames.NamesAreSafe | lobby/src/db/yaml.rs:420-428 | a file name has no forbidden character and is no hidden file, unless the player name is empty |
| SlotNames.OnlyUnsafeChanges | lobby/src/db/yaml.rs:420-428 | only forbidden characters and a leading dot are replaced, so exactly the harmless names are kept as they are, and doing it again changes nothing |
| SlotNames.SortSlotsSorts | lobby/src/generation.rs:69 | sorting by lower-case name orders the slots and keeps them |
| SlotNames.GetSlots | lobby/src/generation.rs:45-72 | each YAML gets its name in order of the list, file names differ ignoring case, and the result is a sorted permutation |
| SlotNames.LowerEachKeepsSuffixes | lobby/src/generation.rs:56-65 | lower-casing character by character meets what is asked of lower-casing |
| IndexPathCodec.EncodeIndexComponent | apdiff-viewer/src/tc.rs:12-22 | the loop encodes every byte, and decoding gives the text back |
| IndexPathCodec.DecodeIndexComponent | apdiff-viewer/src/tc.rs:24-42 | the loop decodes step by step, with tildes that are no escape left alone |
| IndexPathCodec.RoundTrip | apdiff-viewer/src/tc.rs:12-42 | decoding undoes encoding for every string |
| IndexPathCodec.EncodedIsSafe | apdiff-viewer/src/tc.rs:12-22 | encoded text has only letters, digits, underscores, dashes and tildes |
| IndexPathCodec.EncodedTextIsCanonical | apdiff-viewer/src/tc.rs:12-42 | encoding what was decoded gives the text back if and only if it is what an encoder writes |
| IndexPathCodec.IndexPathInjective | apdiff-viewer/src/tc.rs:44-48 | under one prefix two paths are equal exactly when world and version are |

## Left out

- HTTP and WebSocket handlers, JSON, YAML and TOML encoding, OAuth, templates, metrics and logging: plumbing.
- Redis, SQLite, Postgres and git: failures of I/O, connections that drop, expiry of anything but the resolved status.
- Clocks: one clock per model, in whole seconds for the status key; clocks of different machines that disagree are not modelled.
- Wait durations in `claim_job_in` and `wait_for_job`: that they may return early or late is allowed by the model, and that they use the whole timeout is not claimed.
- `process_orphaned_job_results` and `start_reclaim_checker` as loops: the first is not part of this model, the second is a run of passes.
- Random draws: identifiers, scan starts and job identifiers are parameters; the chance that a deathlink is dropped is not modelled.
- WqRuns.HandsOutInOrder: job identifiers are numbers that increase with creation, as section 5.7 of RFC 9562 says of version 7; two drawn in one millisecond by two processes are ordered as drawn.
- WqTiming.AbandonedClaimComesBack: passes are instantaneous and at most half a timeout apart, and a pass comes after the timeout.
- WqWaiter.ReturnsFinalStatus: one job at a time, and the connection lives.
- WqWakeups.WaitsForGoodExactly: workers and passes are taken to go on, so a claim that is held counts as one that its owner may resolve by, and a job that waits counts as claimable until its deadline; the commands of one enqueueing are one step there.
- WqCommands.PartitionsStayApart: conservation and order are not claimed with commands as steps.
- WqQueue.WorkQueue.ReclaimPass: the listing is taken once and passes do not overlap with other calls; `WqCommands` covers overlapping ones.
- IndexFollow.FollowingConverges: the calls of one process do not interleave with one another, a fetch sees the branch as it is at that moment, and refreshes have stopped.
- ApxRegistry.ConnectionRegistry.UpdateTags: what later calls do once a client that was kicked is back in the tag index is not described.
- ApxRegistry: a client is its identity with the slot and game it registered with; sending, timeouts and message encoding are not modelled.
- ApxDataPackage: the full-game response, prefetching and the item and location name tables are not modelled.
- ApxHandlerIds: handlers are told apart by identity; locking is taken to make each call atomic, and several rooms starting at once are calls one after the other.
- ApxRestart.RunKeeps: SQL succeeds, the room had no rows when it was first uploaded, and each operation survives in the sense of `ApxRestart.Survives`; rooms that fail half way through a start are not modelled.
- ApxRestart.AdminRefines: probabilities are real numbers.
- ApxSpheres.HostedRoom.HandleSpheresForSlot: handlers and polls are atomic, and the JSON of a page is the page.
- DiffWords.WordChangesTile: offsets count characters, not bytes; the word-level edit script is any one that spells both lines.
- DiffMatching.LineMatchesAreBlocking: similarities are real numbers computed from a given edit distance, with lengths in UTF-8 bytes as in the source; rounding is not modelled. What is used of the distance is that it is 0 for equal lines only and no more than the longer line has characters.
- DiffFiles.DetectRenames: the similarity of two texts is any function to real numbers.
- DiffLines.BuildDiffLines: annotations and syntax tokens of a line are not modelled, and line numbers are unbounded.
- DiffRender.MergeShowsLine: style attributes are taken to have no closing angle bracket, as the colours and weights written have none.
- `diff_single_file_renamed`, the order of the finished diffs, and line endings: what is shown for a pair of files once it is chosen is a case distinction on which of the two exist and are text, with no state.
- ItemPool.Replenish: two items are equal when name and player are, fillers belong to the player whose world made them, and requests are not negative; the generator is not part of this model.
- SlotNames.GetSlots: lower-casing is any function that keeps a suffix and does not look past the underscore before it.
- IndexPathCodec.DecodeIndexComponent: works on bytes; replacing bytes that are no UTF-8 is not modelled, and what was encoded from a string has none.
