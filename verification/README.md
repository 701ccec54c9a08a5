# NexaClaw: a verified model of its stateful engines

NexaClaw (ClawForge) is a C++ assistant gateway. Most of it connects other programs; a
handful of small engines inside it keep state over unbounded runs, and those are modelled
here, with proofs about every input, every run and every interleaving.

| component | files | what is proved |
|---|---|---|
| sliding-window limiter | RateLimiter.dfy | the deque equals the admission history, when no window is over-full, when greedy admission is optimal |
| event bus | EventBus.dfy | a subscriber gets or loses exactly the log since its subscription, in order, once |
| task queue | RuntimePolicy.dfy, TaskQueue.dfy, TaskEdits.dfy, TaskForm.dfy, TaskLane.dfy, TaskOrder.dfy, TaskPrompts.dfy | at-most-once execution over crashes, task life histories, the coupled queue state, what every section does field by field, the task file's round trip, first in first out, runs and prompts as requested |
| cron expressions and calendar | CronExpr.dfy, CronText.dfy, CronCalendar.dfy, Decimal.dfy | the parser accepts exactly the usable schedules; the search always finds the least matching minute |
| cron jobs | Json.dfy, MergePatch.dfy, CronJobs.dfy, CronMeaning.dfy, CronScheduler.dfy, CronRuns.dfy, CronEdits.dfy | RFC 7396 laws, exactly which documents are jobs and which, the job codec round trip, what every edit does in every reachable state, mutual exclusion of runs, no stuck job, no loss over restarts |
| agent turns | SessionKeys.dfy, Carryover.dfy, SessionStore.dfy, AgentEngine.dfy, AgentTurns.dfy | session-key round trips and collisions, prompt pruning, where answers follow their questions |
| native browser state | NativeRefs.dfy, RefSignatures.dfy, RefStability.dfy, UrlQuery.dfy | which elements share a signature, reference ids are stable and never reused, typed text never moves, query round trip |
| shell quoting | Shell.dfy | any argument vector survives the shell, NUL being the only exception |

Objects with mutable fields are classes (`Limiter`, `Bus`, `Queue`, `Scheduler`, `Store`,
`Engine`, `NativeTarget`); each method is proved equal to a function on the object's state,
and the laws are proved about runs of those functions. What each of these functions does is
also stated without it, on fields, members, positions and written-out texts, by lemmas most of
whose names end in `Meaning` or `Exactly`. Every mutex-held section is one
atomic step. Time is an argument of each step. Callbacks and executors run between two steps,
so any other step can come in between.

`dafny verify dfyconfig.toml` checks everything.

## Modelling choices

- `docs/CRON_REFERENCE.md` shows five-field expressions with steps and ranges. The code parses
  three fields, `minute hour dayOfWeek`, each a star or a comma list of numerals; the model
  follows the code. A comma at the very end of a field is accepted, as `getline` does.
- The calendar is the POSIX one (section 4.16 of POSIX.1-2017, Base Definitions): no leap
  seconds, so minute, hour and weekday are quotients and remainders of the time.
- `parseIso8601Utc` is a parameter (`iso`) of the cron model: any function from texts to
  numbers. A `now` is the clock reading handed to a step; in `CronRuns` clocks are after 1970.
- Messages of refusals are constructors of a datatype instead of texts. An exception of the
  JSON library, or of `stoi` on a number too large for an int, is the result `Thrown`
  (`Overflow` and `Threw` in the expression parser).
- `std::map` and `std::unordered_map` are Dafny maps. Where the order of a walk matters, the
  model follows the key order of the former and allows any order of the latter. Hence after a
  restart the queued tasks may come in any order.
- Identifiers drawn at random or from the clock (`newId`, `newSessionId`, `genTaskId`) are
  arguments of the step that uses them, required or assumed not to be in use.
- A file holds what was written at the last save; a crash may come between any two steps.
- A shell word is read with sections 2.2.1 and 2.2.2 of the POSIX Shell Command Language. The
  reader refuses text that other quoting or expansion rules would have to treat.

## Results that are not what one might expect

- With a maximum of at most one, or a negative window, the limiter keeps its limit on every
  clock, and with no other configuration (`GuaranteeWithoutClock`): there one step back of one
  millisecond is enough to let `maxRequests + 1` requests into one window
  (`BackwardsClockOverfillsWindow`). Calls can reach the limiter out of order even on a monotone
  clock, because the time is read before its mutex is taken (src/http/HttpServer.cpp:115-117).
- On runs in order the limiter admits as much as any selection within the limit, exactly unless a
  negative window comes with a maximum of zero (`GreedyOptimalExactly`). On runs out of order only
  limiters that have to admit nothing do (`GreedyOptimalWithoutClock`).
- Session keys are read back exactly for the channels that `Clean` describes, and in per-peer
  scope not for the channels and peers that `Misread` describes. Two different channels can share
  a session exactly when one continues the other behind its separator (`ChannelsCollideExactly`).
- The gateway posts notices of cron jobs straight into session `main`, past the session's mutex
  (src/app/Application.cpp:75-76 and 100-101), so there an answer need not directly follow its
  question and a prompt need not end with it. Both hold exactly in the sessions that get no such
  notices (`FollowsDirectlyExactly`, `PromptEndsExactly`). In every session they hold for what the
  turns themselves wrote (`EveryAnswerFollowsItsQuestion`).
- An update of a cron job changes its schedule only through the object `schedule`: the flat
  members `kind`, `everyMs`, `at`, `cron` and `tz` of a patch have no effect, because the job's own
  schedule object is merged in and read first. A positive next run stays although the schedule
  changed, and a message changes only through the payload member that the job's kind reads first
  (`UpdateMeaning`).
- The document root of a native page gets a new reference id on every rebuild, because its
  record is stored with the signature `document` and looked up as `doc` (`UnchangedPage`).
- Two elements of a page get one reference id on the second rebuild if and only if they share
  a signature (`OnlyDuplicatesMerge`). Elements whose fields hold no `|` share one exactly when they
  agree on their kind's own fields (`SignatureMeaning`); an element can share one with a different
  element exactly when its fields can be cut differently at a `|` (`SharedExactly`).
- A merge patch can bring null members into a document inside an array: it does so exactly when
  something it puts in place whole holds one (`MergeKeepsDeep`).
- A job created with a negative `consecutiveErrors` retries at once until the count reaches one
  (`RetryDelays`).
- A page of task events keeps the newest ones, so a client that pages forward can miss some
  (`PageIsTail` says exactly which, `PagingMisses` exactly when).

## Model

| member | source | states |
|---|---|---|
| RateLimiter.Limiter.Allow | src/security/RateLimiter.cpp:8-18 | evicts from the front what is too old, decides by the room that is left and records as one run step; with the limiter off or no source it admits and records nothing; on a monotone clock the answer is yes exactly when fewer than maxRequests admissions of the whole history are inside the window; other sources' deques stay |
| RateLimiter.DequeIsHistory | src/security/RateLimiter.cpp:13-14 | however sources interleave, the evicted deque is exactly the admitted timestamps no older than the window |
| RateLimiter.DecideByHistory | src/security/RateLimiter.cpp:14-17 | admission is decided by the full admission history |
| RateLimiter.NoWindowOverfull | src/security/RateLimiter.cpp:8-18 | over any run in order, and over any run at all with a maximum of at most one or a negative window, every closed window of the configured length holds at most maxRequests admissions |
| RateLimiter.GuaranteeWithoutClock | src/security/RateLimiter.cpp:8-18 | those are exactly the configurations whose limit holds in every window on every clock |
| RateLimiter.GreedyIsOptimal | src/security/RateLimiter.cpp:8-18 | no selection of the same calls that respects the limit in every window lets more through |
| RateLimiter.GreedyNotOptimal | src/security/RateLimiter.cpp:14-15 | in the one excluded family of configurations the limiter admits less than allowed |
| RateLimiter.GreedyOptimalExactly | src/security/RateLimiter.cpp:8-18 | greedy admission is optimal on all runs in order exactly outside that family |
| RateLimiter.GreedyOptimalWithoutClock | src/security/RateLimiter.cpp:13-17 | and on all runs whatever their order exactly when nothing may be admitted |
| RateLimiter.BackwardsClockOverfillsWindow | src/security/RateLimiter.cpp:13-17 | with any other configuration a full burst, one call after it left the window and one a millisecond earlier put maxRequests + 1 admissions into one window |
| EventBus.Bus.Publish | src/core/EventBus.cpp:30-47 | the event comes last under the next number, and the newest 1000 events stay |
| EventBus.Bus.WaitNext | src/core/EventBus.cpp:47-77 | after the wait: the first event that is neither older than the cursor nor than the ring, and the number after it; otherwise every event is older, and the cursor only skips evicted numbers |
| EventBus.Subscriber.WaitNext | src/core/EventBus.cpp:12-15 | advances this subscriber's cursor only |
| EventBus.TakeMeaning | src/core/EventBus.cpp:63-76 | a wait delivers the oldest event neither consumed nor evicted, and nothing only when caught up |
| EventBus.EveryRunKeepsInv | src/core/EventBus.cpp:17-77 | over any interleaving, delivered and lost events together are exactly the log since the subscription |
| EventBus.DeliveryIsExact | src/core/EventBus.cpp:17-77 | entry i of a subscriber's fates is the event with id start + i: strictly increasing, none skipped, none twice |
| EventBus.WaitLosesOnlyEvicted | src/core/EventBus.cpp:65-76 | a wait loses only events that the ring no longer holds and delivers at most one it does hold |
| EventBus.KeepingUpLosesNothing | src/core/EventBus.cpp:38-41 | a subscriber that never lags by more than 1000 loses nothing |
| EventBus.LaggingLoses | src/core/EventBus.cpp:65-67 | one that lags by more than 1000 when it waits does lose an event |
| TaskQueue.Queue.constructor | src/orchestration/TaskQueue.cpp:92-95 | loads the stored rows as a new process does and writes the table back |
| TaskQueue.Queue.Save | src/orchestration/TaskQueue.cpp:154-166 | the file lists every task once, in some order |
| RuntimePolicy.ParseNames | src/orchestration/TaskQueue.cpp:57-62 | the loop over a tool list: its non-empty strings, each once |
| RuntimePolicy.NamesInOrder | src/orchestration/TaskQueue.cpp:57-62 | each name stands where it first occurs |
| RuntimePolicy.NamesAccepted | src/orchestration/TaskQueue.cpp:51-68 | a tool list is refused exactly when it is no array, or has members but no name |
| RuntimePolicy.NormalizeToolsPolicy | src/orchestration/TaskQueue.cpp:44-79 | allow list, then deny list; what is accepted is accepted again as it is and left alone by the engine |
| RuntimePolicy.ContextAccepted | src/orchestration/TaskQueue.cpp:15-42 | a context policy is accepted exactly when it is null or the engine would drop none of its two members, and becomes what the engine would make of it |
| RuntimePolicy.ContextIsStable | src/agent/AgentEngine.cpp:16-28 | an accepted context policy is accepted again as it is and left alone by the engine |
| RuntimePolicy.ContextMeaning | src/orchestration/TaskQueue.cpp:15-42 | a context policy is accepted exactly when it is null or an object whose two members are usable, it is then these two members with the limit brought into 1 to 200, and every refusal carries the code of what is wrong |
| RuntimePolicy.ToolsMeaning | src/orchestration/TaskQueue.cpp:44-79 | a tools policy is accepted exactly when each list it gives is empty or names something, both lists come out name by name, and every refusal carries the code of what is wrong |
| RuntimePolicy.RuntimeContextMeaning | src/agent/AgentEngine.cpp:19-29 | the engine takes the two members that are usable, the limit brought into 1 to 200, and nothing else |
| RuntimePolicy.RuntimeToolsMeaning | src/agent/AgentEngine.cpp:31-49 | the engine takes the names of both lists and nothing else |
| TaskQueue.Queue.Parse | src/orchestration/TaskQueue.cpp:239-256 | a body throws exactly when a member has the wrong type and is refused exactly for its policies, with their first fault; an accepted request is what the body says member by member, with the defaults api, empty, empty and false, at least a second or what is given or configured, and under policies the engine keeps |
| TaskQueue.Queue.Enqueue | src/orchestration/TaskQueue.cpp:228-269 | capacity, body, policy and text checks in order, then the new record, the queue entry and the save |
| TaskQueue.Queue.Cancel | src/orchestration/TaskQueue.cpp:271-299 | the four cases of a cancel by status, with queue, flag, event and save |
| TaskQueue.Queue.StartNext | src/orchestration/TaskQueue.cpp:344-359 | the worker's first section |
| TaskQueue.Queue.Finish | src/orchestration/TaskQueue.cpp:384-400 | the worker's last section, an accepted cancel first |
| TaskQueue.Queue.Events | src/orchestration/TaskQueue.cpp:308-332 | the newest events after the client's position |
| TaskEdits.EnqueueMeaning | src/orchestration/TaskQueue.cpp:228-269 | a body is accepted exactly when there is room, it is well typed, its policies are usable and it has a text; the stored record is what the body asks for, queued last, with one event; every other answer says what was wrong first and changes nothing |
| TaskEdits.CancelMeaning | src/orchestration/TaskQueue.cpp:271-299 | a cancel is accepted exactly for a task queued, running or being cancelled; the first is over and leaves the queue, the others staying in order, the second is flagged, the third only gets an event |
| TaskEdits.StartMeaning | src/orchestration/TaskQueue.cpp:344-359 | the oldest entry leaves the queue and its task runs from now on |
| TaskEdits.FinishMeaning | src/orchestration/TaskQueue.cpp:384-400 | status, error, result, time and event of the finished run in its own task, its flag down, nothing else changed |
| TaskEdits.AppendMeaning | src/orchestration/TaskQueue.cpp:118-132 | one more event, numbered on from 1 at least, with the status and the time, the newest 256 kept |
| TaskEdits.RowReadMeaning | src/orchestration/TaskQueue.cpp:196-212 | the events with a positive number, in order, and the next number beyond the last of them |
| TaskEdits.RestoreMeaning | src/orchestration/TaskQueue.cpp:214-221 | a row comes back as it is, and a task that was running or being cancelled is cancelled with the message and event of a recovery |
| TaskEdits.LoadQueueMeaning | src/orchestration/TaskQueue.cpp:178-215 | the loaded queue is exactly the queued rows with an id, in the order of the file |
| TaskEdits.LoadTableMeaning | src/orchestration/TaskQueue.cpp:178-223 | the loaded table holds the last row of every id, restored, and no flag is up |
| TaskForm.RowTextRoundTrip | src/orchestration/TaskQueue.cpp:134-206 | the JSON of a task, members, defaults and dropped events included, reads back as that task under any configuration and clock |
| TaskForm.FileRoundTrip | src/orchestration/TaskQueue.cpp:154-178 | the same for the whole file, row by row in order |
| TaskForm.RowFormat | src/orchestration/TaskQueue.cpp:112-165 | what a written row holds, member by member under the names of the file |
| TaskForm.TaskMeaning | src/orchestration/TaskQueue.cpp:178-223 | what is read from any row: nothing without an id, otherwise the task it describes with the defaults of the code, events without a type or a positive number left out |
| TaskLane.RowRoundTrip | src/orchestration/TaskQueue.cpp:196-212 | the event filter and the repair of the next number change nothing the queue wrote |
| TaskLane.LoadIsPointwise | src/orchestration/TaskQueue.cpp:168-226 | loading, in any file order, restores each task by itself and queues exactly the queued ones, once each |
| TaskLane.EveryRunKeepsInv | src/orchestration/TaskQueue.cpp:228-404 | the coupled invariant of queue, table, flags, worker, file, ledgers and histories holds after every run with any crashes |
| TaskLane.TasksOnlyMoveForward | src/orchestration/TaskQueue.cpp:168-404 | no accepted task disappears, its request never changes, its history only grows, terminal records are final, an accepted cancel of a running task can only end as cancelled |
| TaskLane.AtMostOnce | src/orchestration/TaskQueue.cpp:341-404 | the executor runs at most once per task over any crashes, never for one queued or cancelled while queued, exactly once for one done, failed, timed out or finished after a cancel |
| TaskLane.PoliciesReachTheEngine | src/app/Application.cpp:53-58 | after any run every task's policies are as accepted, and the engine's normaliser leaves them as they are |
| TaskPrompts.PromptAsAsked | src/agent/AgentEngine.cpp:232-240 | whenever the executor runs a task, over any restarts, its prompt takes as many of the newest lines, and prunes them in the mode, as the accepted request asked |
| TaskPrompts.RunAsAsked | src/app/Application.cpp:53-58 | whenever the executor runs a task, over any restarts, channel, peer, text, kind, timeout and policies are those its body asked for |
| TaskOrder.FirstInFirstOut | src/orchestration/TaskQueue.cpp:228-359 | between two restarts, what waited and what was enqueued since, without the tasks cancelled while queued, is what was started since, in that order, and then the queue |
| TaskLane.QueueIsCoupled | src/orchestration/TaskQueue.cpp:228-404 | the queue is duplicate-free and holds exactly the queued ids, at most one task is in hand, a flag is true exactly while cancelling, the file is the table |
| TaskLane.ReplayShape | src/orchestration/TaskQueue.cpp:260-299 | whatever the life-cycle automaton accepts has one of the written-out shapes, each with the final status it allows |
| TaskLane.EveryHistory | src/orchestration/TaskQueue.cpp:118-132 | every history has one of the shapes, its kinds and its last event fix the task's status, and the ledger is its last 256 events, numbered without a gap |
| TaskLane.FinishRecordsOutcome | src/orchestration/TaskQueue.cpp:367-399 | in every reachable state the final status is cancelled exactly after an accepted cancel, and otherwise follows the outcome and the task's own timeout |
| TaskLane.PageIsTail | src/orchestration/TaskQueue.cpp:308-332 | a page is the tail of the full history from the latest of position, ledger and limit |
| TaskLane.PagingMisses | src/orchestration/TaskQueue.cpp:308-332 | a client that asks for what came since it had seen everything gets all of it exactly when at most the limit, and at most 256, events were added |
| CronExpr.ParseCronField | src/automation/CronScheduler.cpp:745-767 | accepts exactly a star or a non-empty list of numerals in range and returns those numbers |
| CronExpr.FieldMeaning | src/automation/CronScheduler.cpp:745-767 | the same for the specification of a field |
| CronExpr.ParseCronExpr | src/automation/CronScheduler.cpp:711-743 | accepts exactly three words that are a minute, an hour and a weekday field, means their numbers, and gives the code's error otherwise |
| CronExpr.ParsedIsUsable | src/automation/CronScheduler.cpp:711-767 | whatever is accepted has a minute, an hour and a weekday, all in range |
| CronExpr.FaultMeaning | src/automation/CronScheduler.cpp:711-767 | every refusal names the first fault, field by field, and a numeral too long for an int throws where it comes before any other fault |
| CronText.WordsMeaning | src/automation/CronScheduler.cpp:714-727 | the words of an expression are its longest stretches without white space, in order |
| CronText.TokensSplit | src/automation/CronScheduler.cpp:752-754 | the tokens of a field are what stands between its commas; one at the very end only ends the last token |
| CronText.EveryScheduleCanBeWritten | src/automation/CronScheduler.cpp:711-767 | every usable schedule is the meaning of some accepted expression |
| CronCalendar.ComputeNextCronRun | src/automation/CronScheduler.cpp:769-804 | parses, then searches |
| CronCalendar.SearchFrom | src/automation/CronScheduler.cpp:778-803 | the bounded minute-by-minute loop |
| CronCalendar.WeekHasMatch | src/automation/CronScheduler.cpp:783-800 | any week of minutes holds a match of a usable schedule |
| CronCalendar.MatchMeaning | src/automation/CronScheduler.cpp:787-796 | a minute matches exactly when its minute, hour and weekday do, the days counted from a Thursday |
| CronCalendar.NextRunMeaning | src/automation/CronScheduler.cpp:769-804 | the search never falls through; it returns the least matching minute after the current one, at most a week ahead, seconds kept |
| CronCalendar.NextCronRunMeaning | src/automation/CronScheduler.cpp:769-804 | the same for expressions; -1 is returned exactly for refused ones |
| MergePatch.Apply | src/automation/CronScheduler.cpp:20-31 | the loop over the patch's members computes the merge, at any depth |
| MergePatch.MergeMembers | src/automation/CronScheduler.cpp:23-29 | unnamed members stay, members named with null go, others are merged in turn |
| MergePatch.MergeIsIdempotent | src/automation/CronScheduler.cpp:20-31 | applying a patch twice is applying it once |
| MergePatch.MergeKeepsNullFree | src/automation/CronScheduler.cpp:24-28 | a patch never puts a null member into a document without any |
| MergePatch.MergeKeepsDeep | src/automation/CronScheduler.cpp:20-31 | a document without null members anywhere, inside arrays neither, stays one exactly under patches whose whole values have none |
| MergePatch.ArraysMayBringNulls | src/automation/CronScheduler.cpp:21 | the smallest patch that does bring one |
| MergePatch.SomePatchReaches | src/automation/CronScheduler.cpp:20-31 | every null-free document is reached from any other by one patch |
| MergePatch.EmptyPatch | src/automation/CronScheduler.cpp:20-31 | the empty patch changes no object |
| CronJobs.FirstRunIsPositive | src/automation/CronScheduler.cpp:234-242 | every timing that passed its check has a first run |
| CronJobs.StrictMeetsContract | src/automation/CronScheduler.cpp:90-246 | whatever the strict reader accepts meets the job contract and is scheduled |
| CronMeaning.ReadExactly | src/automation/CronScheduler.cpp:66-246 | a document is read as a job exactly when its members are well typed, the job is what they say member by member with the defaults of the code, and nothing about the job is refused |
| CronMeaning.RefusalMeaning | src/automation/CronScheduler.cpp:90-246 | every refusal names a fault that the document has |
| CronJobs.JobRoundTrip | src/automation/CronScheduler.cpp:677-709 | reading a written job, strictly or not, gives back the same job; only a next run that is not positive is computed anew |
| CronScheduler.Scheduler.Init | src/automation/CronScheduler.cpp:426-450 | loads the file row by row, skipping refused rows, unless a row makes the JSON library throw |
| CronScheduler.Scheduler.AddJob | src/automation/CronScheduler.cpp:328-342 | strict parse, append, save |
| CronScheduler.Scheduler.UpdateJob | src/automation/CronScheduler.cpp:344-361 | merge into the written job, strict parse, replace, save; what that does to the job is `CronEdits.UpdateMeaning` |
| CronScheduler.Scheduler.SetEnabled | src/automation/CronScheduler.cpp:363-378 | switches, and computes a next run when there is none |
| CronScheduler.Scheduler.RemoveJob | src/automation/CronScheduler.cpp:411-424 | erases, clears the running flag, saves |
| CronScheduler.Scheduler.BeginRun | src/automation/CronScheduler.cpp:460-504 | the section before the callback; what it answers is `CronEdits.BeginMeaning` |
| CronScheduler.Scheduler.EndRun | src/automation/CronScheduler.cpp:525-577 | the section after the callback |
| CronScheduler.Scheduler.CollectDue | src/automation/CronScheduler.cpp:641-651 | the ids one tick collects |
| CronRuns.SaveThenLoad | src/automation/CronScheduler.cpp:426-458 | loading what was saved gives back every job in order |
| CronRuns.SaveThenLoadIsIdentity | src/automation/CronScheduler.cpp:426-458 | exactly as it was, when every job has a next run |
| CronRuns.RestartLosesNothing | src/automation/CronScheduler.cpp:426-458 | in every reachable state and at any time a restart brings back every job in order with all its fields, next runs renewed only where there are none |
| CronRuns.EveryRunKeepsInv | src/automation/CronScheduler.cpp:328-577 | lists, file and run bookkeeping stay right over every interleaving and restart |
| CronRuns.RunsAreExclusive | src/automation/CronScheduler.cpp:411-577 | at most one callback per job id; the flags are exactly the active ids still listed |
| CronRuns.NoJobIsStuck | src/automation/CronScheduler.cpp:328-577 | every reachable job meets the contract, and one without a next run is a disabled one-shot |
| CronRuns.IntervalFits | src/automation/CronScheduler.cpp:234-242 | as a 64-bit integer the next run of an interval job is that sum, and positive, exactly when clock and interval fit |
| CronRuns.EmptyUpdateIsNoOp | src/automation/CronScheduler.cpp:344-361 | an empty patch succeeds on every reachable job and changes nothing if it has a next run |
| CronRuns.AfterRunMeaning | src/automation/CronScheduler.cpp:528-562 | the whole job after a run: one-shots are erased or switched off, the failure count goes to zero or up by one, repeating jobs come back after the retry ladder, their interval or at the least matching minute, the rest of the job stays |
| CronRuns.RetryDelays | src/automation/CronScheduler.cpp:669-675 | failed repeating jobs wait between half a minute and an hour, never less than after the failure before, unless the count was negative |
| CronRuns.DueIdsMeaning | src/automation/CronScheduler.cpp:644-650 | a tick collects exactly the enabled jobs whose time has come and that are not running |
| CronEdits.AddMeaning | src/automation/CronScheduler.cpp:328-342 | a job is added exactly when the document describes an allowed one; it is that job, and it comes last |
| CronEdits.UpdateMeaning | src/automation/CronScheduler.cpp:344-361 | in every reachable state, an accepted update gives the job what the patch names, the default for a member at its top that is null, and keeps the rest; the new job is stored in the old one's place |
| CronEdits.UpdateAccepted | src/automation/CronScheduler.cpp:344-361 | an update is accepted exactly when the merged document still describes an allowed job |
| CronEdits.EnableMeaning | src/automation/CronScheduler.cpp:363-378 | in every reachable state the flag is set, a missing next run is computed when switching on, and nothing else changes |
| CronEdits.RemoveMeaning | src/automation/CronScheduler.cpp:411-424 | in every reachable state the job and its flag go, the others stay in order |
| CronEdits.BeginMeaning | src/automation/CronScheduler.cpp:460-504 | in every reachable state a run starts exactly when the mode is known, the id is listed, no callback of it is in progress, and it is forced or its time has come, and it is handed the job listed under that id; every other answer names the first failure |
| CronEdits.EndMeaning | src/automation/CronScheduler.cpp:525-577 | in every reachable state the flag goes, and the job of that id alone becomes what the run makes of it |
| CronEdits.DueIdsInOrder | src/automation/CronScheduler.cpp:641-651 | a tick collects the due ids in the order of the list |
| CronEdits.RowMeaning | src/automation/CronScheduler.cpp:436-448 | a row of the file gives nothing when it is no object, has no id or is refused, and otherwise the job it describes |
| CronEdits.LoadMeaning | src/automation/CronScheduler.cpp:426-450 | the loaded list is the jobs of the rows in the order of the rows |
| SessionKeys.PerChannelPeerRoundTrip | src/agent/AgentEngine.cpp:156-174 | read back exactly for clean channels, whatever the peer |
| SessionKeys.PerPeerRoundTrip | src/agent/AgentEngine.cpp:153-181 | read back exactly for clean channels that are not misread as the other scope |
| SessionKeys.MainRoundTrip | src/agent/AgentEngine.cpp:150-187 | the channel comes back with an empty peer exactly when no separator can be read |
| SessionKeys.GivenNames | src/agent/AgentEngine.cpp:146-191 | the three round trips for a channel and a peer that are given, as they are |
| SessionKeys.ReadMeaning | src/agent/AgentEngine.cpp:162-191 | how any text is read: around the first separator after the prefix, else around the first one, else as a main session, else as unknown |
| SessionKeys.ColonFreeIsClean | src/agent/AgentEngine.cpp:146-158 | channels without a colon are clean |
| SessionKeys.ColonFreeMain | src/agent/AgentEngine.cpp:183-187 | and have no separator in main scope |
| SessionKeys.SharedExactly | src/agent/AgentEngine.cpp:146-160 | in the two per-peer scopes two pairs share a session exactly when they are the same or one peer holds the rest of the other pair behind the nested channel |
| SessionKeys.ChannelsCollideExactly | src/agent/AgentEngine.cpp:146-160 | two different channels have a session in common, for some peers, exactly when one with its separator is a prefix of the other with its own |
| SessionKeys.SessionsAreSeparate | src/agent/AgentEngine.cpp:146-160 | different pairs whose channels are not nested never share a session |
| SessionKeys.CleanIsNotNested | src/agent/AgentEngine.cpp:153-158 | clean channels are never nested |
| SessionKeys.UncleanChannelsCollide | src/agent/AgentEngine.cpp:153-155 | the smallest instance of a shared key |
| Carryover.ApplyCarryoverPolicy | src/agent/AgentEngine.cpp:80-119 | none keeps the last chat message; minimal those of the last system message and the last three others that are among the newest historyLimit of them, in order and in that number; inherit all chat messages in order; all stated on positions of the history |
| Carryover.KeepMinimal | src/agent/AgentEngine.cpp:95-111 | the backwards loop with its two counters and its size bound |
| Carryover.MinimalIsSmall | src/agent/AgentEngine.cpp:96-107 | at most one system message and three others are kept |
| Carryover.PolicyMeaning | src/agent/AgentEngine.cpp:80-119 | the same for the specification of the three modes |
| Carryover.PromptFollows | src/agent/AgentEngine.cpp:229-241 | the prompt is the system prompt and what the mode makes of the newest lines |
| AgentEngine.Engine.BuildPrompt | src/agent/AgentEngine.cpp:229-241 | system prompt, then what the mode selects from the newest lines |
| Carryover.PromptMeaning | src/agent/AgentEngine.cpp:202-241 | under every policy the prompt opens with the system prompt, ends with the current message and stays within the limit |
| SessionStore.Store.EnsureSession | src/session/SessionStore.cpp:32-45 | finds the session or adds an entry for it at the end; no transcript changes |
| SessionStore.Store.AppendMessage | src/session/SessionStore.cpp:47-74 | one line at the end of this session's transcript and its time renewed, all others unchanged |
| SessionStore.Store.LoadMessages | src/session/SessionStore.cpp:76-112 | the newest lines of the session's transcript |
| AgentEngine.Engine.SessionMutex | src/agent/AgentEngine.cpp:135-144 | one mutex per key for ever, no two keys share one |
| AgentEngine.Engine.HandleMessage | src/agent/AgentEngine.cpp:202-252 | run without interruption, one turn adds its question, as system or user, and at most its answer, as assistant, to its own transcript, and the model sees exactly the pruned transcript ending with the question unless that is a command |
| AgentTurns.EveryAnswerFollowsItsQuestion | src/agent/AgentEngine.cpp:202-252 | under every interleaving of turns and posted notices, among the lines that turns wrote each assistant line directly follows the message it answers |
| AgentTurns.FollowsDirectlyExactly | src/app/Application.cpp:75-76 | in the transcript itself that holds over all runs exactly for the sessions no notice is posted to |
| AgentTurns.TurnsAreUnique | src/agent/AgentEngine.cpp:216-252 | over every interleaving a number stands for at most one question or notice and at most one answer, in all transcripts together |
| AgentTurns.OneTurnPerSession | src/agent/AgentEngine.cpp:208-215 | at most one caller is inside a session's section |
| AgentTurns.PromptOfTurn | src/agent/AgentEngine.cpp:229-244 | in every session the last line any turn wrote is the question of the turn at work, and its prompt ends with the newest line, question or notice, within the limit |
| AgentTurns.PromptEndsWithTurn | src/agent/AgentEngine.cpp:229-244 | in a session without posted notices, whatever the other turns did, the prompt ends with the turn's own message |
| AgentTurns.PromptEndsExactly | src/app/Application.cpp:100-101 | and in no other session does it over all runs, under any policy |
| AgentTurns.TranscriptsOnlyGrow | src/session/SessionStore.cpp:69-71 | transcripts only grow |
| AgentTurns.EveryLineHasItsStep | src/agent/AgentEngine.cpp:202-252 | over every run each line of each transcript has the step that gave it its text: a notice posted there, a call on that session, or the answer to a question asked there |
| NativeRefs.NativeTarget.RebuildRefs | src/browser/BrowserRelay.cpp:565-603 | index, next number, id assignment and text carry-over as one rebuild |
| NativeRefs.NativeTarget.IndexRefs | src/browser/BrowserRelay.cpp:565-568 | for every signature in use the last id in key order that has it, and for nothing else |
| NativeRefs.OneRebuild | src/browser/BrowserRelay.cpp:565-603 | a rebuild is decided by the target and the page alone |
| NativeRefs.NativeTarget.FirstFreeNumber | src/browser/BrowserRelay.cpp:571-579 | the first number above every id in use |
| NativeRefs.NativeTarget.SetValue | src/browser/BrowserRelay.cpp:1394-1440 | the evaluate action that leaves a value: refuses an unknown id, otherwise stores it for any role and rebuilds |
| NativeRefs.NativeTarget.TypeText | src/browser/BrowserRelay.cpp:848-865 | refuses what takes no text, otherwise stores the text and rebuilds |
| RefSignatures.SignatureMeaning | src/browser/BrowserRelay.cpp:514-562 | elements whose fields hold no separator have one signature exactly when they are of one kind and agree on its own fields: name and target for links, name, form and type for inputs and buttons, name and form for text areas |
| RefSignatures.SharedExactly | src/browser/BrowserRelay.cpp:514-562 | an element shares its signature with a different one exactly when its fields can be cut differently at a separator |
| RefSignatures.RecordMeaning | src/browser/BrowserRelay.cpp:514-562 | the record of each kind, and that text is typed into text areas and into inputs that submit nothing |
| RefSignatures.NewIdMeaning | src/browser/BrowserRelay.cpp:581-588 | an entry keeps the id of its signature, or gets the next number after those handed out before it |
| RefSignatures.LessMeaning | src/browser/BrowserRelay.cpp:565-568 | the order of the ids is the order of std::map: by the first difference, a proper prefix first |
| RefStability.DistinctMeaning | src/browser/BrowserRelay.cpp:514-562 | a page whose elements differ on their own fields and cannot be cut differently has no duplicate signatures, and without separators anywhere the two are the same |
| RefStability.IdNeverChangesHands | src/browser/BrowserRelay.cpp:581-594 | on any page, an id still in use belongs to an element with the same signature, so no new element gets an old id |
| RefStability.IdsDistinct | src/browser/BrowserRelay.cpp:581-588 | without duplicate signatures no two elements get one id |
| RefStability.EveryElementStored | src/browser/BrowserRelay.cpp:581-594 | without duplicate signatures, so on any page whose elements differ on their own fields and cannot be cut differently, every element has an id no other has, with its own record and text |
| RefStability.SeenElementKeepsId | src/browser/BrowserRelay.cpp:583-598 | an element seen before keeps its id and its typed text |
| RefStability.UnchangedPage | src/browser/BrowserRelay.cpp:474-603 | rebuilding from the same page changes nothing but the root's id |
| RefStability.OnlyDuplicatesMerge | src/browser/BrowserRelay.cpp:581-594 | two elements get one id exactly when they share a signature, and, if their fields cannot be cut differently, exactly when they agree on their own fields |
| RefStability.TypedTextStaysPut | src/browser/BrowserRelay.cpp:589-602 | in every session of navigation, typing and scripts, written text sits at an id of the element it was written to, and is what was written last |
| RefStability.NamesAreForever | src/browser/BrowserRelay.cpp:565-594 | over every session an id names one signature for ever, and a dropped id is never handed out again |
| UrlQuery.UrlEncode | src/browser/BrowserRelay.cpp:119-133 | the encoder, undone by the decoder, never producing a separator |
| UrlQuery.DecodeDataHtml | src/browser/BrowserRelay.cpp:69-94 | the decoding loop, with strtol's leniency, behind its prefix |
| UrlQuery.UnreservedIsKept | src/browser/BrowserRelay.cpp:124-129 | exactly the unreserved bytes of RFC 3986, section 2.3, are left as they are |
| UrlQuery.ByteText | src/browser/BrowserRelay.cpp:123-130 | what each byte becomes: itself, a plus sign, or a percent sign and two upper-case hexadecimal digits |
| UrlQuery.EncodedConcat | src/browser/BrowserRelay.cpp:123-130 | bytes are encoded one by one |
| UrlQuery.EscapeMeaning | src/browser/BrowserRelay.cpp:77-85 | the two bytes after a percent sign decode exactly when strtol reads all that is shown of them, and to the number it reads, as a char |
| UrlQuery.DecodeEncode | src/browser/BrowserRelay.cpp:69-133 | the decoder undoes the encoder on every byte string |
| UrlQuery.QueryRoundTrip | src/browser/BrowserRelay.cpp:761-765 | the query of any field list reads back as that list |
| UrlQuery.QueryOfMore | src/browser/BrowserRelay.cpp:762-765 | queries of more fields are joined by an ampersand |
| UrlQuery.BuildSubmitUrl | src/browser/BrowserRelay.cpp:760-771 | the submitted URL is the action, a question mark or, if it has one, an ampersand, and the query, and reads back as the action's own query followed by the form's fields |
| UrlQuery.SubmitRoundTrip | src/browser/BrowserRelay.cpp:766-769 | the same for the specification of the URL |
| Shell.Quote | src/util/Shell.cpp:38-49 | the quoted text is one shell word that reads back as the value, exactly when it holds no NUL |
| Shell.QuoteRoundTrip | src/util/Shell.cpp:38-49 | the same for the specification of quoting |
| Shell.QuoteMeaning | src/util/Shell.cpp:38-49 | quoting puts the text between two single quotes, and each quote inside it as a quote, an escaped one and a quote |
| Shell.BuildCommand | src/browser/BrowserRelay.cpp:238-249 | an empty binary is refused; otherwise the shell splits the command into the binary, browser, --json, the profile option if there is one, and the arguments, NUL being the only exception |
| Shell.CommandRoundTrip | src/browser/BrowserRelay.cpp:243-249 | the same for the specification of the command line |

## Left out

- RateLimiter.Limiter.Allow: `reset` is not modelled, because forgetting a bucket voids the window guarantee by design; `trackedSources` is a map size.
- EventBus.Bus.WaitNext: the waiting itself is not modelled, because the condition variable only decides when the locked part runs; a wait that timed out is one that finds nothing.
- EventBus.Bus.Publish: the relaxed counter `published_` and `recent` are left out; nothing here reads them.
- TaskQueue.Queue.Enqueue: event details are left out; nothing reads them.
- TaskForm.RowTextRoundTrip: statuses and event types that the queue never writes are refused here, where the code would carry them along; text that is not UTF-8, on which the JSON library throws while saving, is not modelled.
- TaskQueue.Queue.Save: the file field holds the rows; TaskForm prints them, and a restart in TaskLane reads that text back.
- TaskQueue.Queue.Events: the other members of the response are left out; they repeat fields of the record.
- RefStability.NamesAreForever: sessions start from an empty target; the state file that carries targets over a restart is not modelled.
- NativeRefs.NativeTarget.FirstFreeNumber: ids are `e` and decimal digits, as the component writes them; `stoi` also reads a sign, blanks or a digit prefix in ids it never writes.
- NativeRefs.NativeTarget.RebuildRefs: the elements enter as a list, with names already defaulted; that list includes the fixed link of example.com pages. Forms and viewport are left out.
- UrlQuery.BuildSubmitUrl: the fields enter as a list, in the order the code collects them; `joinUrl` is not modelled, because its result enters as any base text; a fragment in that text stays in front of the query, as in the code.
- Shell.BuildCommand: the redirection that `Shell::run` appends is left out; it follows the last word.
- CronJobs.JobRoundTrip: JSON numbers are integers of any size; fractions, and narrowing to int, are not modelled. A boolean where a number is read counts as 0 or 1, as for `long long` on Linux.
- CronRuns.NoJobIsStuck: times are unbounded integers; an interval so large that clock plus interval passes 64 bits is accepted by the code and overflows (src/automation/CronScheduler.cpp:238, 372 and 544). `IntervalFits` says exactly when.
- CronScheduler.Scheduler.EndRun: run records, published events and log lines are left out.
- AgentTurns.EveryAnswerFollowsItsQuestion: the session store's own mutex appears as atomic steps; transcripts stand for the files, line for line. Command-line programs that write to the same files from another process (src/main.cpp:892 and 3266) are not modelled.
- Regular expressions over page markup, page titles, the JavaScript evaluator and page fetching: the elements of a page are inputs.
- HTTP routes, server-sent events, the Telegram bot, model calls, configuration, the tool registry, auth profiles and pairing: connections to other programs, or easy next to the engines above.
