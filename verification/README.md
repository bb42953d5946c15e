# Verified models of the Alita Robot moderation core

Alita Robot is a Telegram group-management bot. This project models the stateful protocols at the centre of its
moderation modules in Dafny and proves what they promise for every run, every interleaving and every input.

`dafny verify dfyconfig.toml` checks everything. One file is one module.

## What is modelled

**Antiflood** (`Antiflood`, `FloodRace`, `FloodSlices`). `Antiflood.Update` is the loop body of the lock-free
counter. Its meaning is given by a ledger of bursts that has no counter, no reset and no sentinel user id, only
lists of calls. `FloodRace` runs any number of calls and cleaner sweeps as interleaved loads, swaps and
compare-and-deletes, and shows that the completed calls behave as if run one after the other. `FloodSlices` is the
same loop body over real backing arrays: it has no `modifies` clause, so no published entry is written again.

**Captcha** (`CaptchaLifecycle`, `CaptchaClash`, `CaptchaSafety`, `CaptchaLoss`, `CaptchaCareless`, `CaptchaFlows`,
`CaptchaRemute`, `CaptchaShutdown`, `MathCaptcha`, `Shuffle`). The lifecycle of one member over any number of memberships is a state
machine of single database and Telegram calls: SendCaptcha, the claims, the failure actions, restoring permissions,
`/captcha off`, the unmute workers, leaving, rejoining, and crashes. The promise is that a member muted by the captcha
always has a row, or a process still bound to restore them after a refused timed mute. It is false of the code in
general, and the exact condition is proved. `CaptchaClash.Clash` looks only at what is in flight now:

- nothing protects the member: there is no attempt, or a SendCaptcha or leftMember still in flight can delete it; and
- either a mute stands while a `DeleteMutedUser` or a worker's delete is about to remove the schedule without an
  unmute, or a mute can still land after its schedule is gone. The latter needs two processes: a SendCaptcha, a timed
  mute or an out-of-date worker that has yet to mute, beside one that can delete the schedule; or an up-to-date worker
  beside one process that can move the schedule and one that can then delete it, which a timed mute does alone.
  (A member already forgotten counts as a clash too.)

A process bound to restore after a refused mute is abandoned if it is killed, or if its unmute fails and the store
that should then schedule another one (`CreateMutedUser`) fails too. In every reachable state, the calls of processes
in flight can lose the member if and only if the state clashes, whatever crashes and fails short of abandoning such a
process. So abandoning one, like a claim, a SendCaptcha, a worker's read, a `/captcha off` sweep or a rejoin, is
harmless exactly when the state after it does not clash. `CaptchaFlows` says what each flow does when nothing
interferes, for every outcome of its calls.

**AI spam checks** (`DrainProtocol`, `Breaker`, `SenderHistory`). The queue with its shutdown drain as a state
machine; the circuit breaker as a class over its map; the Redis history script as a class whose two keys are proved
to answer like an unbounded log.

**Anti-raid** (`AntiRaid`, `RaidTimes`, `JoinWindow`, `RaidDuration`, `Numerals`). The raid state under
compare-and-delete, compare-and-replace, SETNX and TTL, every clock reading a step of its own and every read allowed
to fail; the seconds that the commands write; the join window; the duration syntax with machine integers, and exactly
which inputs it accepts.

**Locale lookup** (`LetterCase`, `DotPaths`, `LocaleTree`, `LocaleIndex`, `LocaleAgreement`, `LocaleCase`). The walk
and the index builder as methods that visit maps in any order, the exact conditions under which they agree, and what
a query means whatever its case.

**Text for moderation** (`EntityText`, `MatchText`, `Whitespace`). UTF-16 extraction (sections 2.1 and 2.2 of
RFC 2781) and the match text.

**Pending tokens** (`PendingTokens`). Imports and resets waiting for a confirmation.

`Runs`, `Options`, `Sets`, `Int64` and `UnixTime` are shared helpers. Runs are event sequences: `Next(s, e)` is the
state after event `e`, or `None` if `e` is impossible in `s`. Clocks, random numbers, tokens and the outcome of Telegram
and database calls are parameters or events.

## Where the code is narrower than its comments

- Antiflood: an entry that has been idle for more than 60 seconds blocks every call on its key, which spins until
  the cleaner's 600-second rule removes the entry (`FloodRace.IdleEntryBlocksEveryCall`,
  `FloodRace.BusyWaitIsReachable`).
- Captcha: starts that clash do occur, one by one after otherwise careful runs (`CaptchaCareless`). One process runs one
  unmute loop under a sync.Once, so two workers on one member (`CaptchaCareless.SecondWorker`) are those of two
  replicas of the bot.
- Drain: the guarantee is lost if two drains overlap, because the first one to return clears the flag of both
  (`DrainProtocol.OverlappingDrainsAdmitChecks`). The bot itself drains once, on shutdown.
- Sender history: a comment says that a redelivered message is counted once. Later answers do count it once, but
  its own answer counts it twice as long as at most 200 ids are on record (`SenderHistory.RedeliveryCountsTwice`).
- Anti-raid: in the second in which a raid expires it is still active, yet an enable may already delete it
  (`AntiRaid.LastSecondIsContested`, `AntiRaid.LastSecondIsReachable`). And a change of duration that began before a
  raid was disabled can bring it back, because its failed replacement is followed by an enable
  (`AntiRaid.DisabledRaidReturns`).
- Locale index: a comment says that a miss is a miss. Entries below an empty top-level key are indexed under another
  path, and the long s (U+017F) and the dotted capital I (U+0130) fold and lower differently
  (`LocaleAgreement.AgreesExactlyWhenEmptyKeyIsBare`, `LocaleAgreement.AgreesExactlyOnTheseQueries`).

## Model

| member | source | states |
|---|---|---|
| Antiflood.BurstsPartitionHits | alita/modules/antiflood.go:176-239 | the ended bursts and the open one, laid end to end, are exactly the completed calls of the key in order: none lost, doubled or moved |
| Antiflood.UpdateReports | alita/modules/antiflood.go:186-226 | one pass over an entry that sums up the open burst punishes exactly when the burst outgrows the limit of the call, reports its user, length and clock and the longest suffix of its ids that the limits allow, and leaves an entry of this clock that sums up the new open burst |
| Antiflood.EntrySummarisesOpenBurst | alita/modules/antiflood.go:186-226 | after any history, limits changing freely, counter, ids, reset and user-id sentinel together describe the open burst of the ledger, and no id was dropped that every limit so far left room for |
| Antiflood.RoomIsWhatFits | alita/modules/antiflood.go:208-211 | the number of ids kept is the largest that no limit seen since forbids |
| Antiflood.EntryIsAsOldAsLastCall | alita/modules/antiflood.go:207-226 | an entry is stored exactly if the last thing that happened to its key was a call, punished or not, and it carries the clock of that call |
| Antiflood.CallReportsBurst | alita/modules/antiflood.go:197-226 | each completed call reports the burst its own message belongs to |
| Antiflood.TracksWholeBurst | alita/modules/antiflood.go:208-211 | under a fixed limit nothing is trimmed: the entry tracks the ids of the whole open burst |
| Antiflood.PunishesEveryLimitPlusOne | alita/modules/antiflood.go:206-226 | with a fixed limit L and no idle drop the k-th completed call punishes if and only if L + 1 divides k, and is handed exactly the last L + 1 message ids |
| FloodRace.CompletedCallsAreSequential | alita/modules/antiflood.go:183-239 | in every interleaving of calls and sweeps the completed calls returned what they would return one after the other, each once, and the map holds what that sequential run stores |
| FloodRace.EachMessageAccountedOnce | alita/modules/antiflood.go:72-85 | the message of a completed call is once in a handed-over burst, a dropped burst or the open burst that the map's entry counts; an unfinished call is in none |
| FloodRace.PunisherHoldsItsBurst | alita/modules/antiflood.go:206-238 | a caller told to punish, whatever it raced with, holds the burst its own message closed |
| FloodRace.ConcurrentCallsPunishEveryLimitPlusOne | alita/modules/antiflood.go:183-239 | the every-(L+1)-th rule in every interleaving |
| FloodRace.PublishedEntriesNeverChange | alita/modules/antiflood.go:221-233 | a published entry keeps its contents in every continuation |
| FloodRace.UninterferedPassCompletesIff | alita/modules/antiflood.go:183-239 | an uninterfered pass completes if and only if the key is absent or its entry at most 60 s old; otherwise it leaves the whole state as it was |
| FloodRace.CallsWithinAMinuteComplete | alita/modules/antiflood.go:186-239 | in every interleaving the stored entry is as old as the last completed call of its key, so an uninterfered pass completes if and only if nothing is stored or at most 60 s have passed since that call |
| FloodRace.SweepDropsExactlyStaleEntries | alita/modules/antiflood.go:72-85 | left alone, a sweep deletes an entry if and only if the last completed call of its key is over 600 s old, and changes nothing otherwise |
| FloodRace.InterferenceIsProgress | alita/modules/antiflood.go:216-237 | in every interleaving a pass that loaded no entry, or one at most 60 s old, goes round again only if since its load another call on the key completed or a sweep deleted the entry; a pass that loaded an entry does so exactly then |
| FloodRace.IdleEntryBlocksEveryCall | alita/modules/antiflood.go:189-192 | while no sweep finds an idle entry older than 600 s, no call that finds it idle completes, however the loop is scheduled |
| FloodRace.BusyWaitIsReachable | alita/modules/antiflood.go:228-230 | such an entry does occur, for every key |
| FloodSlices.Append | alita/modules/antiflood.go:208 | append in place or into a larger array, never into a third array |
| FloodSlices.Track | alita/modules/antiflood.go:197-211 | the ids with one more message, trimmed, in a fresh array |
| FloodSlices.PrepareUpdate | alita/modules/antiflood.go:184-233 | the loop body over slices equals the value-level Update and writes to no array that existed before; compare-and-swap is chosen exactly for a live loaded entry |
| CaptchaLoss.LostExactlyWhenClashing | alita/modules/captcha.go:1097-1407 | in every state that any run reaches, over any number of memberships, the calls of processes already in flight can end with the member muted, nothing on record and nobody bound to restore, if and only if the state clashes; the calls may crash and fail in any way but the two that abandon a process after a refused mute, its killing and its failed store |
| CaptchaSafety.CarefulRunsAreSafe | alita/modules/captcha.go:1097-1407 | in every run whose starts avoid clashes the member is never forgotten, whatever else crashes, fails, is refused or comes late; the killing, or the failed store, of a process after a refused mute counts among the starts |
| CaptchaLoss.CarelessStartsLose | alita/modules/captcha.go:1097-1407 | any start, killing or failed store that makes a clash leaves a state from which the member can be lost with no further start |
| CaptchaSafety.ClashWasThere | alita/db/captcha/repository.go:337-427 | no call of a process in flight makes a clash, except the failed store of a process after a refused mute |
| CaptchaLoss.ClashLoses | alita/modules/captcha.go:1368-1407 | from every clash there is such a losing continuation, whatever else is in flight |
| CaptchaClash.RowsAlwaysKnown | alita/db/captcha/repository.go:612-656 | in every run a stored schedule is the one an unmute worker has read, or a later one |
| CaptchaCareless.SecondSend | alita/modules/captcha.go:1097-1113 | after a careful run, a second SendCaptcha for a muted member clashes |
| CaptchaCareless.EarlyClaim | alita/modules/captcha.go:294-304 | so does a release before the first restriction has landed |
| CaptchaCareless.ReadBeforeTimedMute | alita/modules/captcha.go:1379-1383 | so does a worker's read of a schedule whose own mute is overdue and yet to land |
| CaptchaCareless.ReadBesideTimedMute | alita/modules/captcha.go:1978-1990 | so does a worker's read while a timed mute, which may be refused, is under way |
| CaptchaCareless.SweepBesideTimedMute | alita/modules/captcha.go:546-583 | so does a /captcha off sweep between a timed mute's schedule and the mute |
| CaptchaCareless.SecondWorker | alita/modules/captcha.go:2006-2023 | so does a second worker's read beside one that is out of date |
| CaptchaCareless.KilledAfterRefusal | alita/modules/captcha.go:1383-1384 | so does killing a process between dropping a refused mute's schedule and restoring |
| CaptchaCareless.StoreFailsAfterRefusal | alita/modules/captcha.go:1403-1404 | so does, with nothing killed, a store that fails after the refused mute and the failed unmute |
| CaptchaCareless.RejoinBeforeCleanup | alita/modules/greetings.go:685-711 | so does a rejoin, still restricted, before leftMember has deleted the rows |
| CaptchaCareless.RefusalIsCovered | alita/modules/captcha.go:1300-1312 | a refused timed mute whose process lives on is a careful run that ends with the member free |
| CaptchaFlows.RestoreAlone | alita/modules/captcha.go:1195-1201 | alone, a claim leaves an unmute due at once; the restore then deletes it only after a successful unmute, and after any other outcome leaves one due at once, or what was there if the store fails |
| CaptchaFlows.SweepAlone | alita/modules/captcha.go:577-582 | the same for a member that /captcha off finds scheduled |
| CaptchaFlows.ReleaseAlone | alita/modules/captcha.go:294-304 | a release takes a permanent error for done and leaves the due schedule after any other |
| CaptchaFlows.RemoveAlone | alita/modules/captcha.go:1314-1319 | a kicked or banned member is gone, with nothing on record |
| CaptchaFlows.FailedRemovalAlone | alita/modules/captcha.go:1304-1312 | a failed ban restores; a failed kick unbans first |
| CaptchaFlows.TimedMuteAlone | alita/modules/captcha.go:1378-1387 | a timed mute leaves the member muted, with an unmute in exactly 24 hours |
| CaptchaFlows.UnstoredTimedMuteAlone | alita/modules/captcha.go:1380-1382 | if that unmute cannot be stored the member is restored |
| CaptchaFlows.RefusedTimedMuteAlone | alita/modules/captcha.go:1383-1385 | if Telegram refuses the mute its schedule goes, or stays if that fails, and the member is restored |
| CaptchaFlows.SendAlone | alita/modules/captcha.go:1097-1113 | SendCaptcha leaves an attempt and a muted member, or neither |
| CaptchaFlows.WorkerAlone | alita/modules/captcha.go:1990-2016 | a pass over a due schedule unmutes and deletes it, and keeps it only after a transient error |
| CaptchaFlows.OvertakenWorkerAlone | alita/modules/captcha.go:2006-2023 | a pass whose schedule was moved meanwhile leaves the new one as it is and mutes again exactly for a later one |
| CaptchaFlows.LeaveAlone | alita/modules/greetings.go:691-711 | leaving deletes both rows, the attempt only if it could be read and deleted |
| CaptchaFlows.ClaimedAtMostOnce | alita/db/captcha/repository.go:381-427 | in every run an attempt is claimed at most once: between two claims a SendCaptcha creates a new one |
| CaptchaRemute.ScheduledMemberEndsMuted | alita/modules/captcha.go:1990-2023 | any number of timed mutes and unmute passes, interleaved without faults: when all have finished, a member with an unmute still scheduled is muted |
| CaptchaShutdown.StoppedForGood | alita/modules/captcha.go:174-200 | once any StopCaptchaLifecycle has returned no task runs, then or in any continuation |
| CaptchaShutdown.WaitsOnlyForCancelledTasks | alita/modules/captcha.go:138-183 | in every run, whatever a stop waits for has a cancelled context, the WaitGroup counts just those tasks, and no task can be added |
| CaptchaShutdown.StopCanReturn | alita/modules/captcha.go:174-183 | a waiting stop returns once the running tasks have ended |
| CaptchaShutdown.TasksRunBetweenStartAndStop | alita/modules/captcha.go:138-183 | in every run a task is started exactly if the workers have been started and no stop has begun, and is otherwise ignored |
| CaptchaShutdown.StopGoesThrough | alita/modules/captcha.go:174-200 | a stop begun in any state of any run can go through, and ends with no task running |
| MathCaptcha.QuestionAsksForAnswer | alita/modules/captcha.go:844-852 | working out the displayed text of a question gives the expected answer |
| MathCaptcha.ExactlyAskable | alita/modules/captcha.go:769-820 | three draws make a sum of two numbers up to 50, a difference of at least 0 or a product of two numbers up to 12, and each of these questions is made by some draws |
| MathCaptcha.TextKnown | alita/modules/captcha.go:828-834 | a decoy's text is among the options exactly when its offset was used before |
| MathCaptcha.ChooseOptions | alita/modules/captcha.go:822-836 | the rejection loop yields the answer and the first three distinct positive decoys within ten of it that are drawn, and fails exactly when the draws hold fewer than three |
| MathCaptcha.NineDecoysSuit | alita/modules/captcha.go:777-836 | for every question that can be asked at least nine decoys are acceptable, and one is left whatever was chosen |
| MathCaptcha.GenerateMathCaptcha | alita/modules/captcha.go:769-842 | asks the question that the first three draws make, with four pairwise distinct options that contain its answer; fails only when the entropy has run out |
| Shuffle.ShuffleInPlace | alita/modules/captcha.go:323-332 | in place, nothing lost, also when the entropy runs out; otherwise the ordering that the picks determine |
| Shuffle.PicksAreDetermined | alita/modules/captcha.go:323-332 | different picks give different orderings of distinct entries |
| Shuffle.EveryOrderingIsReached | alita/modules/captcha.go:323-332 | every ordering comes from some picks, so uniform picks make all orderings equally likely |
| DrainProtocol.InFlightIsExact | alita/modules/aispam.go:393-435 | in every run the WaitGroup counts exactly the callers before their hand-off, the queued checks and the running ones |
| DrainProtocol.DrainWaitsForEveryCheck | alita/modules/aispam.go:443-458 | when a drain's Wait sees zero, every accepted check has finished and every other call was shed |
| DrainProtocol.ReturnsOnlyAfterZero | alita/modules/aispam.go:443-458 | in every run a drain that has returned saw, before, a moment at which no check was queued or running |
| DrainProtocol.NothingStartsAfterDrain | alita/modules/aispam.go:415-421 | from then until the flag is cleared nothing is queued or running, and no step can accept a check, for a drain that no other drain disturbs |
| DrainProtocol.RunOrShed | alita/modules/aispam.go:409-435 | in every run a call that was once queued is never shed, and one that was refused, found the queue full or was shed never runs |
| DrainProtocol.EnqueueAlone | alita/modules/aispam.go:409-435 | a call alone queues its check exactly if no drain has set the flag and fewer than 256 are queued, and is otherwise shed without trace in the counter |
| DrainProtocol.FirstComeFirstServed | alita/modules/aispam.go:393-404 | in every run checks start in the order in which they were queued |
| DrainProtocol.DrainCanReturn | alita/modules/aispam.go:443-458 | in every run callers and workers alone can bring a waiting drain to return |
| DrainProtocol.OverlappingDrainsAdmitChecks | alita/modules/aispam.go:444-445 | with two overlapping drains a check is accepted while the second has yet to return |
| DrainProtocol.SpoiledDrainAdmitsChecks | alita/modules/aispam.go:409-445 | in every run an unreturned drain that finds the flag clear was spoiled by another, and a check can be in the queue before it returns |
| Breaker.Breakers.RecordFailure | alita/modules/aispam.go:490-519 | the method computes the step that the run lemmas speak of, over its whole table |
| Breaker.EntriesWellFormed | alita/modules/aispam.go:497-518 | in every run un-notified entries hold one to four failures, and the map never outgrows its cap |
| Breaker.ConsecutiveTripsAreSpaced | alita/modules/aispam.go:505-518 | consecutive trips of a chat with no success between are a cooldown apart, with exactly five failures at or after the end of the pause |
| Breaker.FifthFailureTripsAgain | alita/modules/aispam.go:505-518 | after a trip with no success since, the next trip is exactly the fifth failure at or after the end of the pause |
| Breaker.FirstTripIsFifthFailure | alita/modules/aispam.go:495-518 | from the start of the run, or from a success of the chat, the first trip is exactly its fifth failure that finds the chat known or room in the table |
| Breaker.FirstTripTakesFive | alita/modules/aispam.go:495-518 | so it takes at least five failures, and exactly five while the table has room |
| Breaker.PausedExactlyDuringCooldown | alita/modules/aispam.go:475-519 | checks are paused if and only if the chat tripped less than a cooldown ago with no success since |
| SenderHistory.WindowCounts | alita/modules/aispam.go:544-545 | dropping the expired scores leaves the ids of the last hour of the unbounded log, up to saturation at 200 |
| SenderHistory.WindowTrims | alita/modules/aispam.go:546-547 | dropping the lowest rank of an overfull window loses no id that could ever be counted below saturation |
| SenderHistory.OnRead | alita/modules/aispam.go:543-548 | neither key's time to live ever hides what the unbounded log would answer |
| SenderHistory.SenderWindow.Observe | alita/modules/aispam.go:573-610 | the answer is 1 + min(200, ids of the last hour) and the newest five, or all if fewer, of the non-empty texts since the last gap of over an hour, as on the unbounded log |
| SenderHistory.RedeliveryCountsTwice | alita/modules/aispam.go:543-560 | the answer is the number of distinct ids, this one included, capped at 201, except exactly when this id is already on record among at most 200; then it is one too many |
| SenderHistory.AnswerIsExact | alita/modules/aispam.go:573-610 | the two cases, and no others, in which the answer is the uncapped number of distinct ids |
| AntiRaid.OnlyDisableEndsAFutureRaid | alita/modules/antiraid.go:51-69 | in every run the one step that removes a raid whose expiry lies in the future is disableRaid; only setRaidDuration changes it, keeping its start |
| AntiRaid.FutureRaidStands | alita/modules/antiraid.go:177-186 | left alone, the raid stands unchanged until its expiry whatever expiry checks, enables and times to live do |
| AntiRaid.ReturnsExactlyByCommandsInFlight | alita/modules/antiraid.go:405-427 | while no raid is stored, as after disableRaid, one can come back with no new command if and only if an enable, or a setRaidDuration that can still come to enable, is in flight |
| AntiRaid.DisabledRaidReturns | alita/modules/antiraid.go:405-427 | a run in which a setRaidDuration begun before disableRaid leaves a state where this is possible |
| AntiRaid.EnablesAreSeparated | alita/modules/antiraid.go:326-354 | between two successful enables the state was removed, by a disable or at or after the expiry it then had |
| AntiRaid.StartSurvivesReplacement | alita/modules/antiraid.go:401-418 | in every run, until its removal, a raid keeps the start it was enabled with |
| RaidTimes.EveryRaidIsTimed | alita/modules/antiraid.go:326-427 | in every run each raid ever enabled or changed ends just the seconds its command asked for after a second that the process read between its begin and its write; an enabled raid starts in that second, a changed one keeps its start; its key lives until 30 s after the expiry, or 30 s, from a moment in between |
| RaidTimes.EnableAlone | alita/modules/antiraid.go:326-354 | alone, enableRaid leaves a raid with an expiry in the future as it is and otherwise installs one from now, kept until 30 s after its expiry |
| RaidTimes.SetDurationAlone | alita/modules/antiraid.go:401-428 | alone, setRaidDuration makes the active raid end the given time from now and keeps its start, and enables one where none is active |
| RaidTimes.CheckAlone | alita/modules/antiraid.go:306-324 | alone, an expiry check removes a raid that is over and changes nothing else |
| RaidTimes.KeyOutlivesRaid | alita/modules/antiraid.go:177-186 | the key of a raid written alone can go by itself from 30 s after the expiry on, and no earlier |
| RaidTimes.FailedReadFindsNothing | alita/modules/antiraid.go:336-339 | a failed read has the effect of finding nothing stored |
| RaidTimes.FailedWriteEnds | alita/modules/antiraid.go:340-350 | a failed write ends its command and leaves the raid as it is |
| RaidTimes.CommandsTakeWhatParses | alita/modules/antiraid.go:326-329 | the commands accept exactly the durations that parseDuration can return |
| RaidTimes.FiveRounds | alita/modules/antiraid.go:405-427 | whoever interferes, setRaidDuration starts at most five rounds, and gives up without an error of Redis only in the fifth |
| AntiRaid.LastSecondIsContested | alita/modules/antiraid.go:336-342 | a delete that an enable decided on hits a raid that isRaidActive calls active if and only if it is the raid's last second |
| AntiRaid.LastSecondIsReachable | alita/modules/antiraid.go:306-324 | a run in which this happens |
| JoinWindow.DeadlineHidesNothing | alita/modules/antiraid.go:70-75 | a key past its deadline held no join that the window would still count |
| JoinWindow.TheLogShowsThrough | alita/modules/antiraid.go:70-75 | neither trimming nor the time to live shows in the window of the full log |
| JoinWindow.JoinTracker.Track | alita/modules/antiraid.go:131-146 | the number of joins in the last sixty seconds since the last clear, this one included |
| JoinWindow.JoinTracker.Clear | alita/modules/antiraid.go:148-155 | starts a new log |
| RaidDuration.ParseDuration | alita/modules/antiraid.go:864-903 | for every input string the guarded product stays within int64, and exactly the durations of 1 second to 366 days are accepted |
| RaidDuration.AcceptsExactly | alita/modules/antiraid.go:864-903 | an input means a number of seconds if and only if it is, up to white space, an optional plus sign, a numeral and one of s, m, h, d, w in either case, and the product is 1 second to 366 days |
| RaidDuration.MeaningInAnyCase | alita/modules/antiraid.go:865 | inputs that differ in case mean the same |
| RaidDuration.ParseOfFormat | alita/modules/antiraid.go:905-919 | parsing a formatted duration gives its seconds back, for every one from 1 second to 366 days |
| RaidDuration.FormatUsesLargestUnit | alita/modules/antiraid.go:905-919 | the display counts in the largest unit that divides the duration |
| RaidDuration.FormatIsNormalForm | alita/modules/antiraid.go:864-919 | two inputs are displayed alike exactly when they mean the same |
| Numerals.ItoaIsCanonical | alita/modules/captcha.go:822 | a number is written with a sign only if it is negative, and without leading zeros |
| Numerals.ParseOfItoa | alita/modules/antiraid.go:875-878 | decimal numerals read back as the number written, over all of int64 |
| DotPaths.SplitInjective | alita/i18n/loader.go:171 | a dotted key is determined by its segments |
| DotPaths.SplitConcat | alita/i18n/loader.go:136-139 | splitting a composed path gives the segments of its parts |
| DotPaths.SplitEach | alita/i18n/loader.go:166-187 | lowering or folding a query may be done before or after splitting it |
| LetterCase.LowerIsFold | alita/i18n/loader.go:196-199 | lowering and folding a query agree exactly when it holds neither the long s nor the dotted I |
| LetterCase.SameLower | alita/i18n/loader.go:154 | two strings have the same lower case exactly if they differ only in capitals against the letters 32 places later, the Kelvin sign against k, and the dotted I against i |
| LetterCase.SameFold | alita/i18n/loader.go:196-199 | the same for EqualFold, with the long s against s in place of the dotted I |
| LetterCase.LowerIsLower | alita/i18n/loader.go:154 | lowering leaves no capital, and in ASCII changes nothing but case |
| LocaleTree.ToLookupSlice | alita/i18n/loader.go:226-241 | the strings of a sequence, or the fields of a printed scalar |
| Whitespace.FieldsAreTheWords | alita/i18n/loader.go:240 | a string is its fields, which are words, with nothing but white space around and some between them |
| LocaleTree.HasCaseCollidingKeys | alita/i18n/loader.go:116-129 | true exactly if somewhere in the tree two keys of one map differ only in case, whatever the iteration order |
| LocaleTree.LookupSegment | alita/i18n/loader.go:191-201 | an exact key wins; otherwise some key equal up to case, or none exists |
| LocaleTree.SegmentIsUnique | alita/i18n/loader.go:191-201 | without collisions every scan order finds the same entry |
| LocaleTree.Lookup | alita/i18n/loader.go:166-187 | without collisions the walk finds what descending by folded segments finds |
| LocaleIndex.LookupIndex.Add | alita/i18n/loader.go:150-160 | writes the lowered path, scalar always and slice for a sequence, and nothing for a null |
| LocaleIndex.LookupIndex.AddMap | alita/i18n/loader.go:131-145 | in every visiting order each reachable value is recorded under its own path and no other key changes |
| LocaleIndex.EntryStep | alita/i18n/loader.go:131-145 | recording one entry and all below it accounts for exactly one key more |
| LocaleIndex.EmptyKeyStep | alita/i18n/loader.go:136-139 | a bare empty top-level key does no harm although its children are visited as top-level ones |
| LocaleAgreement.BuildLookupIndex | alita/i18n/loader.go:102-112 | no index exactly for colliding locales; otherwise an index that records the locale |
| LocaleCase.AnswersByPath | alita/i18n/loader.go:246-268 | every index of a good locale answers a query with the value under the keys that spell it up to case, and with nothing if there are none |
| LocaleCase.CaseNeverMatters | alita/i18n/loader.go:246-268 | queries that differ only in the case of ASCII letters are answered alike, by any index and by the walk |
| LocaleCase.FoundInAnyCase | alita/i18n/loader.go:131-201 | every value under keys without dots is found by its joined path, in any case, by either way; a text as it is, a sequence item by item, a null as nothing |
| LocaleAgreement.Translator.LookupString | alita/i18n/loader.go:246-251 | answers from the index if there is one, else as the walk |
| LocaleAgreement.Translator.LookupStringSlice | alita/i18n/loader.go:256-268 | the same for slices, nil told from empty |
| LocaleAgreement.IndexIsWalk | alita/i18n/loader.go:206-268 | for every collision-free locale with a bare empty key, every index built and every query without the two characters, index and walk agree on scalars and slices |
| LocaleAgreement.EntryBelowEmptyKeyIsLost | alita/i18n/loader.go:136-139 | an indexable entry below the empty top-level key is never found under its own path |
| LocaleAgreement.AgreesExactlyWhenEmptyKeyIsBare | alita/i18n/loader.go:102-160 | the index serves all such queries if and only if the empty top-level key has nothing indexable below it |
| LocaleAgreement.AgreesOnBothOrNeither | alita/i18n/loader.go:246-268 | index and walk also agree on a query that holds both of the two characters |
| LocaleAgreement.LocaleThatDiffers | alita/i18n/loader.go:196-199 | for every query that holds just one of the two characters, does not start with a dot and is otherwise within reach of ASCII, a good locale is built whose index answers wrongly |
| LocaleAgreement.AgreesExactlyOnTheseQueries | alita/i18n/loader.go:246-268 | every good locale and every index built from it agree on a query if and only if it is not one of those |
| EntityText.DecodeEncode | alita/modules/moderation_input.go:84-88 | no text is changed by encoding and decoding it |
| EntityText.DecodeConcat | alita/modules/moderation_input.go:84-88 | decoding may be done piecewise wherever no pair is cut |
| EntityText.DecodeClipScalar | alita/modules/moderation_input.go:106-117 | what the switch contributes for one scalar value, itself, a replacement or nothing, is the decoded part of its code units that lies in the range |
| EntityText.WrittenIsSliced | alita/modules/moderation_input.go:101-118 | what the loop has written is the decoded slice of what it has passed |
| EntityText.ExtractEntityText | alita/modules/moderation_input.go:89-126 | for every text, offset and length, overflow of their sum included, the single pass equals encode, slice, decode |
| EntityText.WholeTextIsAnEntity | alita/modules/moderation_input.go:89-126 | the entity that spans the whole text is the text |
| Whitespace.TrimCutsOnlySpace | alita/modules/moderation_input.go:20-21 | trimming cuts white space off both ends, all of it and nothing else |
| Whitespace.TrimOfPadded | alita/modules/moderation_input.go:20-21 | and what is padded with white space is trimmed to what was padded |
| MatchText.TrimSpace | alita/modules/moderation_input.go:35 | the two-ended loop trims |
| MatchText.ExtractEntityURLs | alita/modules/moderation_input.go:59-82 | the explicit links and the texts of url entities, in order |
| MatchText.UrlsAreTheLinks | alita/modules/moderation_input.go:59-82 | these are exactly the links that the entities stand for, in the order of the entities |
| MatchText.DistinctMembers | alita/modules/moderation_input.go:34-44 | the parts are exactly the non-empty trimmed candidates, each once |
| MatchText.DistinctInFirstOccurrenceOrder | alita/modules/moderation_input.go:34-44 | they come in the order of their first occurrence |
| MatchText.JoinLaysOut | alita/modules/moderation_input.go:56 | the joined text is its parts one after the other, single newlines between them, and nothing else |
| MatchText.Parts.AppendUnique | alita/modules/moderation_input.go:34-44 | the seen map and the parts slice grow together |
| MatchText.BuildModerationMatchText | alita/modules/moderation_input.go:12-57 | both the fast path and the general path yield the join of the distinct trimmed candidates |
| PendingTokens.PendingTable.ConsumePending | alita/modules/backup.go:94-110 | hands out the payload for the right token in time; removes the entry then and when it has expired, and otherwise leaves the table alone |
| PendingTokens.PendingTable.DiscardPending | alita/modules/backup.go:151-154 | cancelling consumes |
| PendingTokens.CleanupExpiredPending | alita/modules/backup.go:156-170 | removes exactly the expired entries of both tables |
| PendingTokens.RedeemsExactlyTheNewest | alita/modules/backup.go:77-170 | in every run a confirmation or cancellation succeeds if and only if its token is that of the chat's newest request, under ten minutes old and unused; wrong tokens and cleanups make no difference |
| PendingTokens.TableIsExact | alita/modules/backup.go:77-170 | after every run the table holds for each chat exactly its newest request, if that is unused and no cleanup or attempt has come after its expiry |
| PendingTokens.CleanupLeavesNothingExpired | alita/modules/backup.go:156-170 | a cleanup leaves nothing expired behind and everything else as it was |
| PendingTokens.RedeemsWhatWasStored | alita/modules/backup.go:133-149 | a success hands out what that very request stored |
| PendingTokens.TokenSucceedsOnce | alita/modules/backup.go:94-154 | a token succeeds at most once across confirming and cancelling |

## Left out

- Telegram calls, replies, keyboards, logging, metrics, translations shown to users: they appear as steps that succeed or fail. A Telegram or database call that reports an error is taken to have had no effect: one that took effect and then timed out is not modelled.
- GORM and PostgreSQL themselves: each repository call of the captcha flow is one atomic step with the effect its transaction has.
- CaptchaLoss.LostExactlyWhenClashing: one member of one chat; refreshing a captcha, counting wrong answers, stored messages and the start-up recovery's scan order are not modelled, since they change neither row nor restriction.
- The fallback branches without Redis: only the Redis branches of the anti-raid module are modelled. There disableRaid reports an expired raid as disabled, which its in-memory twin does not.
- AntiRaid.OnlyDisableEndsAFutureRaid: clearing the join window at the end of enableRaid is not a step of this machine; the window has its own model. Stored bytes are equal exactly when the states are, which is what the marshaller provides.
- JoinWindow.JoinTracker.Track: the second that scores a join and the clock that runs the script are read at one instant, on one monotone clock.
- SenderHistory.SenderWindow.Observe: one monotone clock; an unavailable Redis, which answers "no history", is not modelled.
- DrainProtocol.DrainWaitsForEveryCheck: the 30-second timeout of the drain and panics in workers are not modelled.
- Breaker.Breakers.RecordFailure: the zero time that marks "not paused" is an Option.
- LocaleAgreement.IndexIsWalk: keys are ASCII, queries are not restricted; fmt.Sprint of a composite value is an arbitrary string carried by the value.
- EntityText.ExtractEntityText: strings are sequences of scalar values; a byte that is not valid UTF-8 reads as U+FFFD, as Go's range loop has it.
- RaidDuration.ParseDuration: no character outside ASCII lowers to a digit, sign or unit, so lowering follows `LetterCase`. Strings of invalid UTF-8 are not modelled.
- MathCaptcha.GenerateMathCaptcha: crypto/rand is a stream of numbers reduced to the bound, which may end; the image and text captchas are not modelled.
- PendingTokens.TokenSucceedsOnce: tokens are assumed fresh; 64 random bits are not modelled.
- The semaphore around antiflood's admin check, the limiter and the caches of the users module, parseModuleArgs, permission gates and settings commands are not modelled.
- FloodRace.UninterferedPassCompletesIff: a call whose every pass is interfered with is not promised to complete, only that others do meanwhile (`FloodRace.InterferenceIsProgress`), and not even that once the entry is idle (`FloodRace.IdleEntryBlocksEveryCall`).
