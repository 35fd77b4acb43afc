# soft-kvm: the decision and coordination protocol, modelled and proved

soft-kvm moves the screens and Easy-Switch devices of a desk to the computer its user has just
turned to. Every host runs an agent. A *decider* on each host takes one observation and the time,
and answers with decisions and the time of its next call. One *coordinator* holds who owns the desk and the
last take of every name, and each host follows it with a long poll. A serial *worker* carries out
what the decider decides.

This project models that protocol and proves what it is for. No host acts on an older take after a
newer one, nor gives away what is on its record at that seq. A job ends in bounded time when it is
answered and called in time, and what it handled survives a restart. A write loop is slowed and then
paused. No wake-up is lost, and a host whose watcher is parked and whose decider is idle has caught up
with the coordinator, as far as the state it has shows who is live.

## How it is organised

Each part has the pure state and its transitions, the object that updates its fields in place and is
proved to do exactly those transitions, and the theorems over whole runs of the transitions.

| file | what it holds |
|---|---|
| `State.dfy` | the wire types; the printed form of an assignment key |
| `Limiter.dfy` | the policy knobs; the rate limiter, against one that keeps every attempt |
| `Jobs.dfy` | tasks, the job in flight and what it records; `Job`, the object |
| `Decider.dfy` | the decider's state and its loop, which ends for every state |
| `DeciderObject.dfy` | `Decider`, the object |
| `Duplicates.dfy` | why the loop needs each key listed once |
| `Invariant.dfy` | what holds between observations; one issue at a time, each allowed |
| `Waking.dfy` | the returned wake is exact; idle means nothing left; the wakes run out |
| `Runs.dfy` | runs: observations at times that never go back |
| `Provenance.dfy` | where the work a decider issues comes from |
| `Breaker.dfy` | the rate limit over runs |
| `Counting.dfy` | the same told from the answers to the writes alone |
| `Claiming.dfy` | when a claim is made |
| `Switching.dfy` | what an idle decider runs and gives away |
| `Restart.dfy` | what agent.json holds, over runs |
| `Tasks.dfy`, `Ending.dfy` | the life of a task; a job ends, whatever else is observed |
| `TaskLaw.dfy` | what one observation makes of each task in flight |
| `Receipts.dfy` | a device is done only on a receipt |
| `Server.dfy` | the coordinator's state, one step a handler; the order states are listed in |
| `ServerObject.dfy` | `Server`, the object |
| `History.dfy` | runs of the coordinator: who owned, what was recorded, how states compare |
| `Granting.dfy` | what the coordinator grants, refuses and lists, told from the requests alone |
| `Cluster.dfy` | one coordinator and any number of hosts, interleaved in any order |
| `Worker.dfy`, `AgentLoop.dfy` | the worker; the loop, its channels and the worker, interleaved |
| `Splitting.dfy`, `Declaring.dfy` | the command splitter; printed declarations, through a shell and the splitter |
| `Naming.dfy`, `Presence.dfy` | device names; attach edges |

What the theorems assume:

- Times are integers and never go back; Go's zero time is `None`. Settle, retry spacing, cooldown,
  breaker window, breaker pause and arrival window are positive, the breaker trips at one attempt or
  more, and no configured command is empty: `Config.Valid`, which `main.go:475-482` and the splitter
  guarantee.
- A state lists each key once and every key is valid: `ValidState`. The coordinator guarantees it
  (`Cluster.SnapshotIsKnown`), and without it the decider's loop need not end (`Duplicates.NeverEnds`).
- Across hosts: one coordinator, whose state file is not reset or rewound, and saves that succeed.

Two claims of the source hold only under a condition, which is proved exact here. Printing and parsing
a key are inverse exactly for valid keys. A printed screen declaration splits back into itself exactly
when its name is not empty and quoting spells none of its characters out: a tab in a
name comes back as the two characters `\t` (`Declaring.TabComesBackSpelled`).

The coordinator matches a reported arrival by name and seq, whatever the kind, where its comment
(`server/server.go:316-319`) speaks of devices: a screen its assignee reports reads arrived
(`Granting.ScreenCanBeReported`).

## Model

| member | source | states |
|---|---|---|
| State.ParsePrinted | state/state.go:30-40 | Printing then parsing gives the key back if and only if the key is valid, whatever its name holds, "/" included |
| State.PrintParsed | state/state.go:32-40 | A string that parses is the printed form of the valid key it gives; one that does not is no valid key's |
| State.PrintInjective | state/state.go:30 | Valid keys that print alike are the same key |
| State.AssignmentsByKey | model/decider.go:654-660 | The index built by the loop is the assignments by key, the last listed winning |
| RateLimiting.RateLimiter.Count | model/decider.go:232-248 | In place: attempts beyond the longer of window and cooldown go, now is added, and the breaker trips on BreakerMax within the window |
| RateLimiting.PrunedAnswersAlike | model/decider.go:178-248 | The limiter that throws attempts away gives the same cooldown end, pause end, limit and trip decision as one that keeps every attempt |
| RateLimiting.CountRefines | model/decider.go:232-248 | Counting an attempt keeps the pruned limiter and the full history together |
| Breaker.RateLimitHolds | model/decider.go:214-248 | Over any run: counted give-aways of a name are a cooldown apart; with the pause no shorter than the window, any BreakerMax + 1 of them span at least the window; the limiter answers as the full history does |
| Breaker.PausesHold | model/decider.go:864-867 | Over any run: nothing is given away, first issue or retry, while the pause of the last trip lasts |
| Breaker.FirstIssueIsApart | model/decider.go:214-248 | Over any run the first issue of a give-away comes a cooldown after the job last counted for its name ended and, with the pause no shorter than the window, a whole window more after the one BreakerMax before it: no interval that long meets more than BreakerMax + 1 jobs writing one name |
| Breaker.DecideKeepsTracked | model/decider.go:980-983 | One observation counts exactly the names a job that ends tried to move, each past its cooldown |
| Counting.TriesAreCounted | model/decider.go:514-537 | Over any run, from the observations: a name counts for the limiter when a job ends if and only if an answer to one of that job's issues of it lacked it or held anything but "not here" |
| Counting.TriesAreApart | model/decider.go:214-248 | Over any run the times at which jobs that wrote a name ended, told from the answers, are a cooldown apart; with the pause no shorter than the window, any BreakerMax + 1 of them span at least the window |
| Counting.LimitedWhileResting | model/decider.go:195-228 | Over any run the limiter holds a name back if and only if its last write is within the cooldown or some name's BreakerMax writes within the window are within the pause |
| Counting.FirstIssuesAreRested | model/decider.go:864-867 | Over any run nothing is given away for the first time while its name rests so |
| Counting.NothingGivenInPause | model/decider.go:864-867 | Over any run nothing at all, retries included, is given away within the pause of BreakerMax writes of any name within the window |
| Counting.HeldOnlyToRest | model/decider.go:848-870 | Over any run, with no job in flight, an assignment of another host is on record at its seq, or its assignee not live, or its name rests |
| Claiming.ClaimsAnswerAttaches | model/decider.go:756-767 | Over any run each claim names this host and answers the last attach, Settle or more after it, with no claim since; and every decision from then on that leaves no job in flight finds that attach claimed exactly once |
| Switching.OwnershipChangeRuns | model/decider.go:791-830 | With no job in flight: a newest state naming this host under an activation not on record runs exactly the -A commands, one for one, a built-in take under that activation and any other argv as it is; one that shows its ownership gone runs the -D argvs; any other runs nothing; with nothing to run the change goes on record at once |
| Switching.OwnershipChangeAfterJob | model/decider.go:938-960 | The same in the decision that ends a job, against the record that job leaves |
| Switching.GivesAllThereIs | model/decider.go:848-893 | With no job in flight and no ownership change, what is given away is all the newest state lists for other live hosts at seqs not on record, not arrived and not held by the limiter, and nothing else |
| Switching.FirstStateIsAdopted | model/decider.go:735-752 | A host without a record takes the first state as dealt with, owner, activation and every seq; it runs and gives nothing, then or when shown that state again |
| Jobs.Job.Issue | model/decider.go:424-459 | Marks exactly the tasks due as issued and lists them in one decision, none when nothing is due |
| Jobs.Job.Expire | model/decider.go:462-469 | Fails exactly the awaited devices whose window closed |
| Jobs.Job.ReportRun | model/decider.go:493-508 | The i-th issued command takes the i-th result, a missing one is a failure; false exactly when none is issued |
| Jobs.Job.ReportGiveAway | model/decider.go:514-543 | Each issued give-away takes its result: a screen sent is done, a device sent awaits arrival, a marked one that is not done is dropped; it counts as tried unless the answer is not here; false exactly when none is issued |
| Jobs.Job.ApplyState | model/decider.go:548-610 | Drops what the newest state has made pointless, takes stopped give-aways out of the record, finishes devices shown arrived |
| Deciding.ReconcileFacts | model/decider.go:848-893 | The job built gives away exactly the pending assignments to give now and records those and the already arrived, each key once |
| Deciding.FreshJobIsUpToDate | model/decider.go:545-547 | The newest state takes nothing away from a job just built from it |
| Deciding.FreshJobEndsForward | model/decider.go:787-791 | Ending the job built from a state closes its ownership edge, or leaves that as it was and fewer of its assignments unhandled |
| Deciding.RecordingHandles | model/decider.go:874-893 | Recording the seqs of a give-away job makes nothing pending again and, unless there are none, handles an assignment that was pending |
| Deciding.TurnDecreases | model/decider.go:938-960 | Every turn of the loop but the last lowers a lexicographic measure: older job, open edge, unhandled assignments, due claim, job to build; so advanceTime ends for every state and time |
| Duplicates.NeverEnds | model/decider.go:938-960 | Shown one arrived device of another host at two seqs, which the coordinator never answers, the loop records one seq, then the other, and has no last turn |
| DeciderObject.Decider.FromRecord | model/decider.go:691-712 | A decider is rebuilt from agent.json, or refused exactly when a key of it does not parse |
| DeciderObject.Decider.Decide | model/decider.go:718-732 | The object's new state, its decisions and its wake are those of the transition function |
| DeciderObject.Decider.AdvanceTime | model/decider.go:938-960 | The loop over the mutable fields ends and does what the recursive specification does |
| DeciderInvariant.OneIssueAtATime | model/decider.go:421-459 | While a task is issued nothing is issued; otherwise what is outstanding afterwards is exactly the one issue decided, and every command and give-away of it, retries included, is what the newest state calls for |
| Provenance.DecidedIsAllowed | model/decider.go:968-979 | Each give-away decided is listed by the newest state at its seq, not arrived if a device, for another live host, not handled; each take carries that state's activation, this host its owner |
| Waking.WakeIsExact | model/decider.go:996-1014 | The wake is none or later than now, and at any time before it, with nothing observed, the decider decides nothing, changes nothing and returns the same wake |
| Waking.SeeingAgainChangesNothing | model/decider.go:787-791 | Shown its newest state again before the wake, the decider decides nothing and stays as it is |
| Waking.IdleMeansNothingLeft | model/decider.go:791-807 | With no job after an observation: no ownership edge open, no claim due, and each other-host assignment handled at its seq, or its assignee not live, or held until a time no earlier than the wake |
| Waking.WakeDescends | model/decider.go:473-488 | Each wake taken with nothing else observed brings the decider strictly closer to having none |
| Waking.FollowWakes | model/decider.go:994-1014 | Following the wakes alone reaches, in finitely many steps, a decider with no wake |
| TaskLife.JobLife | model/decider.go:968-992 | Over one observation a job stays in flight, its done and dropped tasks final, a task issued again only after a failure, within 1 + SwitchRetries and RetrySpacing later; or it ends and records exactly the give-aways not stopped for a host no longer live |
| TaskLife.NeverStuck | model/decider.go:471-488 | A job in flight with nothing issued always has a wake ahead |
| Ending.EveryStepCosts | model/decider.go:968-979 | Whatever a job in flight observes, each answer it accepts and each issue it makes uses up some of what it can still do, and nothing gives any back |
| Ending.BoundedSteps | model/decider.go:399-459 | Over any run, states, attaches and late results included, a job in flight makes and accepts at most 2 * (1 + SwitchRetries) - 1 issues and answers a task |
| Ending.BeganIs | model/decider.go:718-732 | The decider the bounds on a job in flight start from is the one the run's first k observations lead to |
| Ending.OverOrIssued | model/decider.go:962-979 | Over any run, a decision at least the arrival window and the retry spacing after a job's last issue and last answer finds it over or leaves an issue outstanding |
| Ending.EndsInTime | model/decider.go:471-488 | Over any run in which results come within a given wait and the decider is called within a given lag of its wakes, a job in flight ends within a bounded time, one span for each step it could take and one more |
| TaskLife.DriveToEnd | model/decider.go:399-459 | The case with nothing observed but answers: whatever the results and however late, answers and wakes alone bring a job to its end in finitely many steps |
| TaskLaw.JobLaw | model/decider.go:968-992 | One observation of a job in flight, from the answer, the newest state and the clock: where every task stands; the job ends if and only if each is done, dropped or failed with all 1 + SwitchRetries tries made, then saves its record less what it abandoned and notifies if and only if a give-away of this host's failed; else exactly the failed tasks with a try left and RetrySpacing past are issued, once no result is awaited |
| TaskLaw.CommandGoes | model/decider.go:267-290 | A command reported stands done on success, else dropped if it stopped mattering or was marked, else failed; a failed one is dropped exactly when the owner or activation moved on, or, for a deactivation, the ownership came back |
| TaskLaw.GiveAwayGoes | model/decider.go:514-610 | A give-away stands as its answer, its being listed at its seq, its assignee live, its receipt and its window say, and is left unrecorded exactly when it is listed, open and its assignee not live |
| Receipts.DoneOnReceipt | model/decider.go:514-543 | A device task done after an observation was done before, or was reported not here, or is shown arrived |
| Receipts.DevicesAreDoneOnReceipt | model/decider.go:598-610 | Over any run a done device task has its receipt among the observations: a send, a closed window or a drop never makes it done |
| Restart.RestoresPersisted | model/decider.go:160-171 | Rebuilding from what was persisted gives the record back |
| Restart.PersistsRestored | model/decider.go:700-711 | Persisting what was rebuilt gives agent.json back |
| Restart.DecideKeepsDisk | model/decider.go:980-990 | If agent.json holds the record before an observation it holds it after the saves decided |
| Restart.RestartIsDurable | model/decider.go:691-712 | After any run, from no record or any that parses, a restart from agent.json handles exactly what was handled |
| CoordinatorObject.Server.HandleClaim | server/server.go:204-246 | The handler answers and moves every field as the specification; its fields say when it grants: a valid id, not the owner or a retake, and forced, waiting or within its grace |
| CoordinatorObject.Server.HandleTake | server/server.go:257-309 | The handler's loop records exactly the takes not held, all at the next epoch, with their previous assignee, input in upper case and channel, arrived only if a device that said so, and bumps only when one was |
| CoordinatorObject.Server.HandleArrived | server/server.go:320-347 | The handler marks exactly the current assignments of this assignee an arrival answers |
| CoordinatorObject.Server.CurrentState | server/server.go:423-500 | The state lists every assignment once, in order, and the live hosts, and forgets hosts past their grace |
| CoordinatorObject.Server.WaitOpen | server/server.go:445-459 | A wait on the current epoch registers and gets the open broadcast; on any other it is answered at once |
| CoordinatorObject.Server.WaitClose | server/server.go:461-474 | The last wait of a host to close starts its grace |
| Granting.ClaimsGranted | server/server.go:204-246 | Over any run of requests: a valid host that is not the owner, or retakes, is granted the ownership, one activation and one epoch on, if and only if forced or with a wait open or closed less than 30 s ago; an owner not retaking is told nothing changed; any other is refused; only a grant changes anything |
| Granting.LiveIsWaiting | server/server.go:109-132 | Over any run a state shows a host live if and only if a wait of its is open or its last one closed less than 30 s ago, and names besides those the owner alone |
| Granting.TakesAccepted | server/server.go:267-307 | A well-formed take of the owner under its activation, and no other, is accepted; each name is then stored for it with the channel and the input, in upper case, at the new epoch unless all that was stored already |
| Granting.StepsWhenChanged | server/server.go:353-360 | A take or an arrival changes the assignments by one epoch step that wakes every waiter and says so, or changes nothing |
| Granting.StoredHasOrigin | server/server.go:283-341 | Over any run each stored assignment was recorded by one accepted take, with its input in upper case and its channel; it reads arrived if and only if that take was of a device and said so, or its assignee later reported that name at that seq |
| Granting.ScreenCanBeReported | server/server.go:333-341 | A screen its assignee reports at its seq reads arrived |
| Granting.StoredIsWellFormed | server/server.go:364-392 | Over any run what is stored is a screen on an input of three hex bytes and no channel, or a device with no input on channel 1 to 3, printable, of 1 to 64 characters |
| Ordering.KeyLessIsTotal | server/server.go:516-521 | The listing order is total and strict on keys |
| Ordering.SortedIsDistinct | server/server.go:505-514 | A sorted listing names each key once |
| ServerHistory.TakesRecord | server/server.go:273-305 | What a request leaves under a key it names: what was held, or its one recording, whatever its other takes |
| ServerHistory.RecordArrivalsFacts | server/server.go:333-346 | Exactly the assignments some arrival answers are marked, and the request changes something exactly when there is one |
| ServerHistory.RepeatedTakeIsNoOp | server/server.go:279-282 | Repeating an accepted take changes nothing and says so |
| ServerHistory.ApplyIsLater | server/server.go:353-360 | After any request: equal epochs mean equal owner, activation and assignments; every epoch step closes the broadcast; a name at one seq keeps naming one recording, arrived only going from false to true |
| ServerHistory.SnapshotsAgree | server/server.go:283-307 | Any two states of one run: a name's seq never goes back, and at one seq they agree on assignee, prev, input and channel |
| ServerHistory.AuthorisationHistory | server/server.go:267-300 | Over any run each stored assignment was taken by the owner under the activation stored with it, at most the current one; its seq is at most the epoch; prev is the most recent different assignee the name ever had |
| Cluster.GiveAwaysNeverGoBack | model/decider.go:584-596 | Over any interleaving of hosts and coordinator, restarts included: the seqs a host gives away of one name never decrease, at one seq it is one take, and each goes to another host that took it while it owned |
| Cluster.DecisionsAreSound | model/decider.go:66-84 | In a running system every command has exactly one field set, and what is given away is the very take the newest state lists, arrival aside |
| Cluster.ParkedIsCurrent | agent/watcher.go:75-109 | No lost wake-up: what a watcher parked on an open broadcast sent its loop last is what the coordinator holds now, live hosts aside, and once the channel is read that is its decider's newest state, or the very one adopted as the first record |
| Cluster.ParkedAndIdleHasCaughtUp | agent/watcher.go:36-70 | A host parked, its channel read and no job in flight, one that has just adopted its first state included, has closed every ownership edge against the coordinator, and each assignment the coordinator holds for another host is handled at its seq, or its assignee not live in the state last sent, or held back until a time no earlier than the wake |
| Cluster.ActivationNamesOwner | model/decider.go:565-576 | Of all states ever answered, two with one activation have one owner, so comparing activations for equality is enough |
| Cluster.TakesNeverGoBack | model/decider.go:791-801 | Over any interleaving, restarts included, the activations of the takes a host posts never decrease, and it owned under each |
| Cluster.WaitingIsLive | server/server.go:456-474 | The count of a host's waits is the number being served, so a host is live while it waits |
| Cluster.KeyAndSeqNameOne | server/server.go:283-300 | A name and a seq name one recording, so comparing seqs for equality is enough |
| Cluster.RestartKeepsHost | agent/agent.go:237-270 | A host restarted from its agent.json handles what it had handled and keeps all of the above |
| Working.GiveAwayAll | agent/worker.go:191-224 | Whatever the interleaving of the queues: one result per name of the batch, that of its last write, every write made once, and the order of the batch kept in each queue, so among the devices declared behind one receiver |
| Working.QueuesApart | agent/worker.go:214-224 | Two writes share a queue if and only if they are of devices declared behind one receiver, or of one name |
| Working.RunCommands | agent/worker.go:103-116 | Whatever the order the commands end in, the i-th result is the i-th command's |
| AgentLoop.NoSendBlocks | agent/agent.go:261-264 | Over any interleaving at most two decisions wait and at most one result, so no send to the worker and no post of a result ever blocks |
| AgentLoop.ResultsAnswerTheIssue | agent/worker.go:36-68 | Every result the loop reads answers the one issue outstanding, whole, and the worker is only ever on that issue |
| AgentLoop.NothingMoreDecided | agent/agent.go:382-448 | While an issue is outstanding, wherever it is on its way, no more work is decided |
| AgentLoop.KthResultToKthCommand | model/decider.go:490-508 | The k-th result of a run is the one reported for its k-th command |
| AgentLoop.NoticesAreShown | agent/worker.go:36-68 | Over any interleaving the notifications decided are those shown and those still on their way: none is lost or shown twice |
| Splitting.SplitCommand | main.go:641-697 | The index loop answers what the specification scanner does, errors included |
| Splitting.SplitsExactlyWhatItMeans | main.go:636-697 | The splitter answers an argv if and only if the string is a sequence of gaps and of bare, escaped, single-quoted and double-quoted pieces whose runs are exactly those words, the first not empty |
| Declaring.DeclarationRoundTrip | detect/detect.go:130-139 | Splitting a printed screen declaration gives back its name, input and table if and only if the name is not empty and no character of it is spelled out |
| Declaring.TabComesBackSpelled | detect/detect.go:130-134 | The input that does not come back: a tab in a name is read as a backslash and a t |
| Declaring.PlainWordsSplit | detect/detect.go:164-174 | Plain words, as a device declaration is made of, split back into themselves |
| Declaring.LineFields | detect/detect.go:226-228 | A shell reads a line of printed flags, continued as connectLine continues it, as each flag's name and its whole value, whatever the value holds |
| Declaring.TwoLayerRoundTrip | detect/detect.go:133-139 | A printed flag is one name and one value to the shell, and the value splits back into the declaration under the exact condition above |
| Naming.NumberNames | detect/detect.go:270-281 | The loop ends and gives each device, in place, the first of its base, base-2, base-3 and so on that no device before it has |
| Naming.NumberedApart | detect/detect.go:270-281 | The names are pairwise distinct whatever the bases, even ones already ending in "-2" |
| Naming.NumberedIsOne | detect/detect.go:268-281 | The names are determined by the bases in their order |
| Naming.TakenCandidates | detect/detect.go:277-279 | With k candidates taken at least k names are used: a free one is found |
| Naming.ItoaIsInjective | detect/detect.go:278 | Different numbers print differently |
| Naming.CandidateReads | detect/detect.go:277-279 | After its base a device tries the base, a dash and, in plain decimal, 2, 3 and so on |
| Naming.MarkTwins | detect/detect.go:282-288 | Exactly the devices sharing a base with another, one of them Easy-Switch, are flagged |
| Attachments.Presence.Add | detect/detect_hid.go:41-52 | Each target's count stays its number of tracked paths; an edge exactly when the path is new and its target had none |
| Attachments.Presence.Remove | detect/detect_hid.go:56-68 | Keyed by the path alone, the count stays exact and is absent at zero |
| Attachments.TrackedStands | detect/detect_hid.go:29-33 | Over any events a path is tracked as a target exactly when an attach of it as that target still stands |
| Attachments.EdgeIsFromAbsent | detect/detect_hid.go:20-28 | Over any events an attach is an edge exactly when every attach of its path was undone and no path of its target still stands |

## Left out

- Log strings, the map of reasons last logged and the texts of errors: nothing else depends on them.
- Aliasing of tasks: a job holds its tasks as values in sequence fields, not through pointers; the pair of indices in a loop is the same.
- Files, HTTP, JSON, TLS, mDNS and fsync: a handler is one atomic step, a save an assignment that succeeds, and a request that does not decode, or a /wait without an epoch or an id, never reaches a handler.
- `since`, the server's id and a state's live hosts beyond liveness itself.
- Monitor and HID writes, child processes and their timeouts: arbitrary results.
- The loop's `send` giving up when its generation is cancelled (`agent/agent.go:384-391`): such a step is not in a run. An issue lost there would leave its job waiting for an answer.
- Claims between the loop and the coordinator: a claim is a decision of the host and, at any later time or never, any request to the coordinator.
- The arrival watcher, backoff, guards and sleep detection: an arrival is any request, a lost session any step back to connecting, a generation that ends one that drops what was on its way.
- Which characters are printable, a parameter; invalid UTF-8, since a string is a sequence of characters.
- Cluster.ParkedAndIdleHasCaughtUp: says who is live only as the state last sent does, because a host going live or not is no epoch step and wakes nobody.
- Breaker.RateLimitHolds: bounds what is counted when jobs end. Single writes are bounded job by job: how many in one by `TaskLife.JobLife`, how jobs are spaced by `Breaker.FirstIssueIsApart`; one count of writes over an interval is not stated.
- Saturation of times at the ends of Go's range.
- Quoting by the shell other than backslashes and single quotes, expansion and comments: the printed flags use none.
- `screen/` and `hidpp/` codecs, detect's probing and rendering, flag validation, the service files.
