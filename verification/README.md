# TrickCFS: a verified model of the Trick/cFS synchronisation

TrickCFS lets a Trick simulation drive a core Flight System (cFS): Trick's main thread, a scheduler
thread (SCH) and the cFS application tasks advance together, one frame of simulated time after another.
This project models that handshake and the parts around it, and proves what every run of it keeps.

`dafny verify dfyconfig.toml` checks everything.

## How it is modelled

* **The handshake** (`TaskIpc`, `Handshake`). A task's record is the value `Ipc`; each function of
  `TaskIpc` is one section that runs under the record's mutex, and a wait on a condition variable ends a
  section. The class `TaskIPC` is the record as the program keeps it, with its list searches as loops,
  and is proved against those functions. `Handshake` puts the sections together into a transition system
  with a program counter for every task, for SCH and for Trick main, two eventfd counters and the pipe
  queues. A run is any sequence of enabled steps, so statements about `Reachable` states are statements
  about all interleavings, any number of tasks and pipes, and both scheduling modes.
* **Invariants over all runs.** `Lockstep` (one token between the two main threads), `TaskDiscipline`
  (states and open receipts), `Tracking` (no message id is lost), `Snapshot` (the one-pass scan),
  `PerfectMode` (the imitation of a single processor, for any number of call sites), `SimulatedTime`
  (delays and receives with a timeout in interleavings of normal mode), `SingleSite` (tasks with one call
  site).
* **Progress** (`Progress`): exactly when SCH's visit and Trick main's scan can come to an end. `MultiSite`
  reaches states in which they cannot, and one with an undefined list access. `ReceiveRun` reaches runs of
  receives that time out.
* **Loops of one thread over all records** (`TrickCfsInterface`): updateTaskTimes and the destination
  loop of sendScheduledMessage.
* **Queues** (`MessageQueue`, `QueueManager`, `QueueGet`): the ring buffer as a class over an array that
  implements a FIFO, the array of queues, and the receive call with its polling loop in 32-bit arithmetic.
* **Schedulers** (`SlotScheduler`, `SchLabScheduler`), **start-up file** (`Text`, `EsStartup`,
  `TrickCfsPy`) and **priorities** (`PriorityRemap`).

Every lemma switches Dafny's automatic induction off. The hypothesis it assumes is not typed: in a lemma about
sequences of two kinds of records it can contradict itself and so prove anything.

## Assumptions

* Applications stay RUNNING, `perfectScheduleMode` does not change during a run, and each pipe has a
  fixed owning task.
* `msWaitTimeForCFSApps` keeps its default, so that no timeout clears trigger lists; a timed-out
  `pthread_cond_timedwait` then changes nothing and is not a step.
* Only SCH sends the message ids that it schedules, as software bus messages. CFE_SB_TransmitMsg, which is not part of this model,
  delivers to the marked destinations; a full queue may drop any of them.
* What is said of one call site holds for a task whose receives look alike to a ten-frame backtrace, whatever
  the other tasks do; this is needed for `SingleSite.BackReadDefined` and for one clause of
  `PerfectMode.VisitBound` only.
* "All registered tasks" are those whose index is below `RegisteredTasks`, as in the scan itself: task
  indices are dense.
* Constants from headers that are not part of this model (table sizes, states, message types) are
  parameters. The scheduler tables rely on SCH_ENABLED differing from SCH_UNUSED, and the rows of SCH_LAB
  on a zeroed message id being the invalid one.

## Where the code does not do what it promises

* `acknowledgedMIDs.back()` can be read from an empty list. It is exactly when a task with open receipts
  has polled other call sites as often as it has receipts open (`Tracking.BackReadUndefined`), such a
  state is reached (`MultiSite.BackReadUndefinedReached`), and never for a task with one call site
  (`SingleSite.BackReadDefined`).
* The design description says that task delays count down in simulated time. The delay is stored in
  milliseconds and reduced in tics. With frames of r tics, a delay of d ends after ceil(d / r) updates (one
  for d = 0), which for at least 1000 tics per second is the right update if and only if that many frames
  last d milliseconds (`TaskIpc.DelayKeepsTime`); 500 ms end after 10 ms
  (`TaskIpc.HalfASecondIsOneFrame`).
* In perfect mode SCH's visit to a task need not end, and then the frame is never reported complete. It can
  end if and only if the task is not stranded (`Progress.VisitCanEnd`): it has polled no other call site than
  that of an open receipt, no full queue of it has dropped a message of SCH, and, if it has triggers, it
  receives at all. Otherwise SCH stays there on every path (`Progress.StrandedVisitHangs`). Both causes occur
  (`MultiSite.ForeignPollHangs`, `MultiSite.FullQueueHangs`). In normal mode the same condition decides
  whether the scan can return, unless the task sleeps (`Progress.ScanCanReturn`).
* A receive with a finite timeout never times out when a frame is shorter than a millisecond, that is, when
  the table asks for more than 1000 ticks per second (`QueueGet.EndsAtAll`, `QueueGet.EndsAtTickRate`).
* The slot number can exceed the table for a legal number of slots: it stays in range if and only if one
  more slot would not fit into a second (`SlotScheduler.SlotInRange`), and for 1500 slots it does not
  (`SlotScheduler.SlotOutOfRange`).

A limit of the start-up file's reader, which promises nothing about the writer: a written file cannot be read
back when fields run together, notably the scheduler's own line when every other name has at most eight
characters (`EsStartup.RoundTrip`, `EsStartup.SchedulerReadable`).

## Model

| member | source | states |
|---|---|---|
| TaskIpc.MatchIsSameCaller | models/TrickCFSInterface.cpp:544-561 | Two backtraces match exactly when the callers of the receive agree on every frame that fits, whatever the three innermost frames are |
| TaskIpc.SevenFramesCount | models/TrickCFSInterface.hh:140-141 | With ten frames per trace, callers match exactly when their seven innermost frames agree |
| TaskIpc.CloseReceipt | models/TrickCFSInterface.cpp:541-568 | Among pairwise different receipts, erasing the first match leaves none that matches, and invents none |
| TaskIpc.SleepsUntilReached | models/TrickCFSInterface.cpp:297-306 | After any history of updates a sleeper is still asleep, with exactly the missing remainder, unless some prefix of the cycles reached its delay, and then it has been released |
| TaskIpc.ReleasingUpdate | models/TrickCFSInterface.cpp:290-309 | For positive cycles, update k releases a delay if and only if it is the first whose accumulated cycles reach it, or the very first for a delay of zero |
| TaskIpc.ReleasedAfter | models/TrickCFSInterface.cpp:290-309 | With frames of r tics, exactly update number ceil(d / r) releases a delay of d, and the first one a delay of 0 |
| TaskIpc.DelayKeepsTime | models/TrickCFSInterface.cpp:257-299 | For a frame, a delay and a tic rate known before the call: the releasing update is the first at which the requested milliseconds have passed if and only if ceil(d / r) frames last that long, and one frame fewer does not (which is no condition from 1000 tics per second on) |
| TaskIpc.HalfASecondIsOneFrame | models/TrickCFSInterface.cpp:257-303 | A delay of 500 ms that ends after 10 ms |
| SimulatedTime.DelayEnds | models/TrickCFSInterface.cpp:245-309 | In every interleaving of normal mode a task can return from addTaskDelay(d) if and only if the updates made since have reached d |
| SimulatedTime.DelayTakesFrames | models/TrickCFSInterface.cpp:245-309 | With a fixed frame, if and only if there have been ceil(d / r) of them |
| SimulatedTime.TimedOutReceiveSpans | osal/src/os/Trick-posix/src/os-impl-queues.c:265-297 | For the calls that the modelled receive makes when it finds nothing: in every interleaving of normal mode in which a task makes them it is found asleep by exactly ceil(T / R) - 1 updates |
| ReceiveRun.FruitlessReceiveOccurs | osal/src/os/Trick-posix/src/os-impl-queues.c:265-297 | For every number of polls some interleaving performs such a receive |
| TaskIpc.TaskIPC.AddTaskDelay | models/TrickCFSInterface.cpp:245-266 | The whole call with its wait loop: it returns at the first update that reaches the delay, at once in perfect mode with triggers, and otherwise still waits with the missing remainder |
| TaskIpc.TaskIPC.AcknowledgePipeTrigger | models/TrickCFSInterface.cpp:473-515 | With its search loop, the section before the wait is `AckSection` |
| TaskIpc.TaskIPC.MarkPipeAsComplete | models/TrickCFSInterface.cpp:527-608 | With its two search loops, the section before the wait is `CompleteSection`; needs a defined `back()` |
| TaskIpc.FindReceipt | models/TrickCFSInterface.cpp:541-568 | The search loop over open receipts finds the first match |
| TaskIpc.SameSite | models/TrickCFSInterface.cpp:546-561 | The frame comparison loop decides `Matches` |
| Lockstep.OneToken | models/TrickCFSInterface.cpp:652-687 | In every reachable state there is one token among main, trigger, SCH and completion; eventfds never exceed one and lose no wake-up; task times are never updated while SCH is active; main is at most one frame ahead |
| TaskDiscipline.Always | models/TrickCFSInterface.cpp:128-136 | In every run each task's state fits the wait it is in, and its receipts stay apart and stem from its own call sites |
| TaskDiscipline.ReceiptsNeverClash | models/TrickCFSInterface.cpp:538-568 | No two open receipts of a task ever come from matching call sites |
| TaskDiscipline.EnteringClosesOneReceipt | models/TrickCFSInterface.cpp:527-568 | Entering a receive closes the only receipt of its own site, if there is one, and no other |
| TaskDiscipline.AcknowledgingOpensOneReceipt | models/TrickCFSInterface.cpp:473-481 | Acknowledging opens one receipt exactly when the id is triggered, at a site that has none |
| TaskDiscipline.OthersLeaveReceipts | models/TrickCFSInterface.cpp:237-407 | No other step, and no step of another thread, changes a task's receipts |
| Tracking.NothingUntracked | apps/sch_trick/fsw/src/BaseTrickCFSScheduler.cpp:191-215 | In every interleaving the triggers of an id are exactly its messages being sent to the task, queued for it, held by it or acknowledged, and those that a full queue has dropped |
| Tracking.AcknowledgingFindsTrigger | models/TrickCFSInterface.cpp:473-476 | A fetched message finds its trigger if and only if SCH sent it |
| Tracking.TriggersConserved | models/TrickCFSInterface.cpp:530-537 | Every marked id is either completed, once, or still triggered |
| Tracking.BackReadUndefined | models/TrickCFSInterface.cpp:528-532 | `back()` is read from an empty list if and only if receipts are open and as many foreign polls have been made as receipts are open |
| MultiSite.PollingElsewhereBreaks | models/TrickCFSInterface.cpp:528-537 | From any reachable state with one receipt, a fruitless poll at another site leads to the undefined read |
| MultiSite.BackReadUndefinedReached | models/TrickCFSInterface.cpp:528-532 | A concrete run that reaches it |
| MultiSite.ForeignPollHangs | models/TrickCFSInterface.cpp:362-405 | A concrete run in perfect mode to a visit that hangs after a poll of another call site, with no message dropped |
| MultiSite.FullQueueHangs | models/TrickCFSInterface.cpp:362-405 | A concrete run in perfect mode to a visit that hangs because a full queue dropped the message |
| SingleSite.BackReadDefined | models/TrickCFSInterface.cpp:528-532 | A task with one call site, and any task before its first poll of another site than that of its open receipt, never has more than one receipt and never reads `back()` of an empty list, whatever the other tasks do |
| Snapshot.RetestsSameTask | models/TrickCFSInterface.cpp:788-794 | `--ii` on a size_t and the loop's `++ii` lead back to the same task, at index 0 too |
| Snapshot.ScanIsSnapshot | models/TrickCFSInterface.cpp:689-798 | When the scan returns, all registered tasks are asleep or idle at that same moment, although they ran and registered meanwhile |
| Snapshot.SnapshotLasts | models/TrickCFSInterface.cpp:689-798 | They stay so until Trick starts the next update |
| PerfectMode.ActBalances | models/TrickCFSInterface.cpp:245-608 | No action of a task changes how many of its receipts are running or what is left to count for it; it sleeps only without triggers, and can waste a trigger on another call site only while a receipt is running |
| PerfectMode.VisitAccounting | models/TrickCFSInterface.cpp:362-405 | For tasks with any number of call sites: completions counted, plus one being reported, plus ids still triggered, plus triggers spent on polls of other call sites make up reqTriggers; numCompletes <= numTriggers <= reqTriggers; the guard never holds back a waiting receipt |
| PerfectMode.VisitBound | models/TrickCFSInterface.cpp:367-405 | A visit ends after exactly reqTriggers releases and completions with nothing triggered and no receipt open; every effective turn moves a counter; releases and completions never exceed reqTriggers, and wake-ups never exceed one for a task that has polled no other call site |
| Progress.VisitCanEnd | models/TrickCFSInterface.cpp:362-405 | From every reachable visit some path leads to its end if and only if the task has polled no other call site, no full queue has dropped a message for it, and it receives if it has triggers |
| Progress.StrandedVisitHangs | models/TrickCFSInterface.cpp:362-405 | Otherwise the visit ends on no path, SCH never reports the frame, and Trick main waits forever |
| Progress.ScanCanReturn | models/TrickCFSInterface.cpp:689-798 | From every reachable point of a scan some path without delays leads to its return if and only if each registered task still to be passed sleeps or is not stranded; with delays some path always does |
| Progress.StrandedScanHangs | models/TrickCFSInterface.cpp:689-798 | A stranded task that is awake holds up the scan on every path on which no task calls addTaskDelay, comes or goes |
| PerfectMode.OneAtATime | models/TrickCFSInterface.cpp:355-407 | At most one task is between release and completion, and it is the visited one |
| PerfectMode.InsertIsStable | models/TrickCFSInterface.cpp:458-461 | Inserting into the multimap puts the entry last among those of its priority and keeps the others |
| PerfectMode.MapIsSortedMarks | models/TrickCFSInterface.cpp:451-461 | The map is always the frame's marks sorted by priority number, ties in marking order |
| PerfectMode.ReleasesInOrder | models/TrickCFSInterface.cpp:355-356 | The releases of a frame follow the map: priority numbers never decrease |
| PerfectMode.FrameConservation | models/TrickCFSInterface.cpp:351-408 | When a frame is reported complete, the map and all trigger lists are empty and each task has completed exactly what was marked for it |
| TrickCfsInterface.TrickCFSInterface.UpdateTaskTimes | models/TrickCFSInterface.cpp:290-309 | The loop applies `Tick` to every task once |
| TrickCfsInterface.TrickCFSInterface.MarkPipeAsTriggered | models/TrickCFSInterface.cpp:443-465 | Marks the pipe's owner and, in perfect mode only, enters it into the map by priority |
| TrickCfsInterface.TrickCFSInterface.MarkDestinations | apps/sch_trick/fsw/src/BaseTrickCFSScheduler.cpp:191-211 | Each task gains exactly as many triggers as it has pipes among the destinations that are active and do not ignore SCH's own messages, and nothing else of it changes |
| TrickCfsInterface.ReceiversInOrder | apps/sch_trick/fsw/src/BaseTrickCFSScheduler.cpp:191-211 | The marked pipes are those of exactly these destinations, in list order |
| TrickCfsInterface.MapAllByPriority | models/TrickCFSInterface.cpp:451-461 | The map gains one entry per marked pipe, stays sorted, and keeps the marking order within a priority |
| TrickCfsInterface.MarkAllCounts | apps/sch_trick/fsw/src/BaseTrickCFSScheduler.cpp:191-211 | A task gains exactly one trigger for each of its pipes among the receivers |
| MessageQueue.AcceptedIsReceivedPlusContents | models/TrickCFSQueue.cpp:95-247 | For every history: payloads accepted since opening are those received followed by those queued, no more than fit, and each was received with its own length as the reported size |
| MessageQueue.AcceptedIffRoom | models/TrickCFSQueue.cpp:217-244 | In every history a message is accepted if and only if it fits and fewer than the capacity are accepted and not received; otherwise nothing changes |
| MessageQueue.OpenedAsAsked | models/TrickCFSQueue.cpp:95-115 | Opening a closed queue gives it the asked depth and size, and opening an open one changes nothing |
| MessageQueue.TrickCFSQueue.OpenQueue | models/TrickCFSQueue.cpp:95-115 | Opens empty, or changes nothing if open |
| MessageQueue.TrickCFSQueue.CloseQueue | models/TrickCFSQueue.cpp:117-139 | Closes; reports closing a closed queue |
| MessageQueue.TrickCFSQueue.Send | models/TrickCFSQueue.cpp:204-247 | The ring does what the FIFO does, with the slot flags true exactly on the wrapped window; a full or failed send changes nothing |
| MessageQueue.TrickCFSQueue.Receive | models/TrickCFSQueue.cpp:141-202 | Waits for a message as long as it may, then hands out the oldest payload: the reported size is its length, these bytes are at the front of the buffer, and no other byte is touched; the improper-state branch is never taken |
| MessageQueue.TrickCFSQueue.AwaitMessage | models/TrickCFSQueue.cpp:157-167 | The wait loop goes on through wake-ups until it sees a message, or ends without another look when a wait times out; all that others sent meanwhile, in the expiring wait too, is in the queue |
| MessageQueue.TimesOutOnNothing | models/TrickCFSQueue.cpp:157-167 | A receive times out if and only if the queue is empty and nothing that fits is sent before the wait that expires; the queue then holds exactly what was sent, and fits, during that wait |
| MessageQueue.TimesOutWithMessage | models/TrickCFSQueue.cpp:163-166 | So it can time out with a fitting message queued |
| MessageQueue.TrickCFSQueue.GetNumMessages | models/TrickCFSQueue.cpp:249-266 | The length of the FIFO |
| QueueManager.TrickCFSQueueManager.constructor | models/TrickCFSQueueManager.cpp:51-56 | All queues closed, numbered by position |
| QueueManager.TrickCFSQueueManager.OpenQueue | models/TrickCFSQueueManager.cpp:75-88 | Opens one queue and leaves all others; an unknown index changes nothing |
| QueueManager.TrickCFSQueueManager.CloseQueue | models/TrickCFSQueueManager.cpp:90-103 | Closes one queue and leaves all others |
| QueueManager.TrickCFSQueueManager.Send | models/TrickCFSQueueManager.cpp:150-163 | Sends to one queue and leaves all others |
| QueueManager.TrickCFSQueueManager.Receive | models/TrickCFSQueueManager.cpp:105-118 | Receives from one queue and leaves all others |
| QueueManager.QueuesAreIndependent | models/TrickCFSQueueManager.cpp:75-163 | However operations interleave, each queue does what it does under its own alone |
| QueueGet.EndsOnTime | osal/src/os/Trick-posix/src/os-impl-queues.c:267-296 | Finding nothing, a timeout T at rate R > 0 ends with poll ceil(T/R) if and only if R - T does not exceed 2^31 |
| QueueGet.EndsAtAll | osal/src/os/Trick-posix/src/os-impl-queues.c:267-296 | The loop ends at all if and only if the rate is positive |
| QueueGet.EndsAtTickRate | apps/sch_trick/fsw/src/SchLabTrickCFSScheduler.cpp:219-222 | With the rate that the scheduler reports, the loop ends if and only if its period is at least 1000 microseconds, that is, for at most 1000 ticks per second |
| QueueGet.PollForTimeout | osal/src/os/Trick-posix/src/os-impl-queues.c:268-296 | Whenever the loop ends at all: it completes before each poll, sleeps between polls only, and stops at the first answer or when its time is up |
| QueueGet.OsQueueGet | osal/src/os/Trick-posix/src/os-impl-queues.c:215-330 | The four kinds of timeout and the return code; every poll directly follows completing and every completing precedes a poll, a sleep stands between two such pairs, and the only acknowledgement is the last call, exactly for a received software bus message |
| QueueGet.CallsInOrder | osal/src/os/Trick-posix/src/os-impl-queues.c:215-330 | The same of the calls of a receive with any number of polls |
| QueueGet.TimedOutReceive | osal/src/os/Trick-posix/src/os-impl-queues.c:265-297 | A receive that finds nothing completes and polls ceil(T/R) times and sleeps one time fewer |
| SlotScheduler.SlotOfIs | apps/sch_trick/fsw/src/TrickCFSScheduler.cpp:295-316 | The slot is the slot count of the next microsecond, rolled over at the end of the second |
| SlotScheduler.SlotInRange | apps/sch_trick/fsw/src/TrickCFSScheduler.cpp:283-316 | The slot exists at every microsecond if and only if one more period would not fit into a second |
| SlotScheduler.SlotOutOfRange | apps/sch_trick/fsw/src/TrickCFSScheduler.cpp:283-316 | 1500 slots, for which slot 1501 is computed |
| SlotScheduler.SlotIsModular | apps/sch_trick/fsw/src/TrickCFSScheduler.cpp:283-316 | With slots that divide the second, it is that count modulo the slots |
| SlotScheduler.FiresExactlyOnce | apps/sch_trick/fsw/src/TrickCFSScheduler.cpp:281-389 | Stepped once per period, an entry of frequency f fires in exactly one pass of any f consecutive seconds |
| SlotScheduler.MessagesOfDue | apps/sch_trick/fsw/src/TrickCFSScheduler.cpp:319-340 | The messages of a pass are those of the slot's due entries, one for each and in their order |
| SlotScheduler.SentExactlyOnce | apps/sch_trick/fsw/src/TrickCFSScheduler.cpp:269-389 | On a validated table the message of an enabled entry of frequency f is due for sending in exactly one table pass of any f consecutive seconds |
| SlotScheduler.ValidateScheduleData | apps/sch_trick/fsw/src/TrickCFSScheduler.cpp:442-571 | good + bad + unused is the table size; the result is success iff every unused entry is unused in all fields and every other one is enabled or disabled with a frequency, a remainder below it, the send kind and a message index in range; else the first bad entry's code |
| SlotScheduler.CodeIsFailedTest | apps/sch_trick/fsw/src/TrickCFSScheduler.cpp:475-535 | For each of the six codes the exact test, in the entry's fields, that a bad entry fails |
| SlotScheduler.ValidationIsSufficient | apps/sch_trick/fsw/src/TrickCFSScheduler.cpp:349-350 | An enabled entry passes the run-time corruption test if and only if validation accepts it or objects to message index 0 only |
| SlotScheduler.TrickCFSScheduler.UpdateTimeTics | apps/sch_trick/fsw/src/TrickCFSScheduler.cpp:281-317 | Splits the time in tics into seconds and rest and returns the slot of the rest |
| SlotScheduler.TrickCFSScheduler.ProcessNextEntry | apps/sch_trick/fsw/src/TrickCFSScheduler.cpp:342-440 | Disables a corrupted entry and fails; otherwise sends if due and changes nothing |
| SlotScheduler.TrickCFSScheduler.ProcessNextSlot | apps/sch_trick/fsw/src/TrickCFSScheduler.cpp:319-340 | On a validated table no entry is ever disabled, and exactly the due messages of the slot are sent in order, up to a failed one |
| SlotScheduler.TrickCFSScheduler.ProcessScheduleTable | apps/sch_trick/fsw/src/TrickCFSScheduler.cpp:269-279 | A pass at any time sends, in order and up to a failed one, the due messages of the slot of that time, and leaves a validated table as it is |
| SchLabScheduler.ProcessScheduleTable | apps/sch_trick/fsw/src/SchLabTrickCFSScheduler.cpp:224-246 | One pass steps every row once and sends the rows that are due, in table order |
| SchLabScheduler.RateIsExact | apps/sch_trick/fsw/src/SchLabTrickCFSScheduler.cpp:233-241 | After n passes a row of rate q has counter n mod q and has been sent n / q times |
| SchLabScheduler.SentEveryRate | apps/sch_trick/fsw/src/SchLabTrickCFSScheduler.cpp:233-241 | Pass n sends a row if and only if its rate divides n |
| SchLabScheduler.RunPasses | apps/sch_trick/fsw/src/SchLabTrickCFSScheduler.cpp:224-246 | n runs of the pass: at the same moment every row has counted to n mod q, and each pass sent the rows whose rate divides its number, in table order |
| SchLabScheduler.InitTables | apps/sch_trick/fsw/src/SchLabTrickCFSScheduler.cpp:131-200 | The configured rows, the period, and the user commands placed one after another; needs a period only to place a command in a free row |
| SchLabScheduler.PlaceCommand | apps/sch_trick/fsw/src/SchLabTrickCFSScheduler.cpp:188-199 | A command takes the first free row, or none |
| SchLabScheduler.CommandsLandInOrder | apps/sch_trick/fsw/src/SchLabTrickCFSScheduler.cpp:186-200 | Free row number k gets the k-th command with a valid id, configured rows stay, surplus commands are dropped |
| SchLabScheduler.InitAndRun | apps/sch_trick/fsw/src/SchLabTrickCFSScheduler.cpp:131-246 | After initTables and n passes, an entry of rate q whose id is nobody else's has been sent exactly n / q times |
| SchLabScheduler.TotalIsShare | apps/sch_trick/fsw/src/SchLabTrickCFSScheduler.cpp:224-246 | In n passes every id is sent n / q times for each of its rows of rate q |
| SchLabScheduler.CommandPeriod | apps/sch_trick/fsw/src/SchLabTrickCFSScheduler.cpp:195-195 | The actual period is the largest whole number of frames within the requested one; a shorter request is never sent |
| Text.FieldsOfJoin | share/trick_cfs/python/trick_cfs.py:69-78 | Collapsing blanks, dropping commas and semicolons and splitting at blanks gives the cleaned words of the line |
| Text.WordsOfRow | share/trick_cfs/python/trick_cfs.py:143-170 | A row of padded cells reads back as its words if and only if every cell but the last is set off |
| Text.WordsSplit | share/trick_cfs/python/trick_cfs.py:69-70 | Splitting cuts at every blank |
| Text.LinesAreTheText | share/trick_cfs/python/trick_cfs.py:66-67 | The lines make up the text, each up to and with its line feed |
| EsStartup.WrittenIsRow | share/trick_cfs/python/trick_cfs.py:163-170 | A written line is such a row: left-justified file, function and name, right-justified priority and size |
| EsStartup.ReadBack | share/trick_cfs/python/trick_cfs.py:76-79 | The parser finds the eight fields of a written line if it is readable, and not eight otherwise |
| EsStartup.ReadWritten | share/trick_cfs/python/trick_cfs.py:55-176 | Reading back a written file gives the definitions of the readable lines, in order |
| EsStartup.RoundTrip | share/trick_cfs/python/trick_cfs.py:55-176 | Parsing what run_default_es_startup writes restores libraries, applications, order and scheduler name if and only if every line is readable |
| EsStartup.FileRoundTrip | share/trick_cfs/python/trick_cfs.py:55-176 | The same from any start-up file with the target scheduler, distinct names and no empty field |
| EsStartup.SchedulerReadable | share/trick_cfs/python/trick_cfs.py:114-143 | The scheduler's line is readable if and only if some other name has more than eight characters |
| EsStartup.AddedAppIsReadBack | share/trick_cfs/python/trick_cfs.py:40-44 | An added application's line reads back as exactly its definition, with the default file if it has none, unless priority or stack size are too long; no other line gets other fields |
| EsStartup.AddedLibIsReadBack | share/trick_cfs/python/trick_cfs.py:26-27 | An added library's line always reads back as its definition with the default file |
| EsStartup.ReadAllParsed | share/trick_cfs/python/trick_cfs.py:66-93 | Whatever is parsed: entries are the defined names, fields hold no blanks, commas or semicolons, the target is not an application |
| EsStartup.MarkEndsFile | share/trick_cfs/python/trick_cfs.py:69-72 | A line whose first non-blank character is '!' ends the file: whatever follows has no effect |
| EsStartup.WithoutMarkAllIsRead | share/trick_cfs/python/trick_cfs.py:66-72 | Without such a line all lines are read |
| EsStartup.LineEffect | share/trick_cfs/python/trick_cfs.py:73-93 | Only a line of exactly eight words with one of the two keywords has an effect, and which, by its words |
| EsStartup.FirstWritten | share/trick_cfs/python/trick_cfs.py:135-143 | The first written line, with the scheduler's file, function, priority and size |
| EsStartup.EntriesInOrder | share/trick_cfs/python/trick_cfs.py:145-174 | After it one line for each defined name, in the order of the list |
| EsStartup.ColumnsAreTight | share/trick_cfs/python/trick_cfs.py:114-131 | The columns are as wide as the longest name, function and directory require, and no wider |
| TrickCfsPy.RunningMax | share/trick_cfs/python/trick_cfs.py:114-131 | The running maximum is the greatest length |
| TrickCfsPy.TrickCfsModule.ParseCfeEsStartup | share/trick_cfs/python/trick_cfs.py:66-93 | The line loop, up to a line that starts with an exclamation mark, is `Parse` |
| TrickCfsPy.TrickCfsModule.RunWithApps | share/trick_cfs/python/trick_cfs.py:103-176 | The lines written are `WriteAll`: the scheduler first, then the entries in order, libraries before applications of the same name |
| TrickCfsPy.TrickCfsModule.RunDefaultEsStartup | share/trick_cfs/python/trick_cfs.py:99-100 | The same for all parsed entries |
| PriorityRemap.EndsAreReserved | osal/src/os/Trick-posix/src/os-impl-tasks.c:142-151 | Only 0 maps to the maximum, only 255 to the minimum, the rest strictly between |
| PriorityRemap.OrderReversed | osal/src/os/Trick-posix/src/os-impl-tasks.c:138-169 | A more urgent priority is never mapped below a less urgent one |
| PriorityRemap.NearTheLine | osal/src/os/Trick-posix/src/os-impl-tasks.c:160-165 | The interior is within -125/253 and 127/253 of the exact straight line, which leaves one value |
| PriorityRemap.RoundsTowardsZero | osal/src/os/Trick-posix/src/os-impl-tasks.c:160-165 | For any limits, even reversed ones, the interior is the scaled quotient truncated towards zero |
| PriorityRemap.OntoTheInterior | osal/src/os/Trick-posix/src/os-impl-tasks.c:138-169 | Every interior local priority is used if and only if there are at most 254 |

## Left out

- Application exit and restart: the not-RUNNING branches of the visit and wait loops change records without the mutex and depend on application state outside this repository.
- Finite msWaitTimeForCFSApps and the exit command: the scan then gives up on a task and clears its triggers, and promises no snapshot.
- Progress under fair scheduling: `Progress` says when a visit or a scan can end, not that the tasks take the steps that end it.
- addTaskDelay in initialisation and exit mode: a wall-clock sleep that touches no record.
- TaskIpc.TaskIPC.MarkPipeAsComplete: needs `CompleteDefined`, because reading `back()` of an empty list has no defined result; `Tracking.BackReadUndefined` says when that is.
- MessageQueue.TrickCFSQueue.Receive: a receive without a time limit is one whose waits bring a message. Other threads may send while it waits; that they receive from the same queue or close it meanwhile is not modelled, since a pipe has one reader.
- QueueManager.TrickCFSQueueManager.Send: needs a non-negative index. The source tests the upper bound of an int only, and an index below zero denotes no queue.
- SlotScheduler.TrickCFSScheduler.ProcessNextEntry: a transmission is a parameter; marking the destinations before it is `TrickCfsInterface.TrickCFSInterface.MarkDestinations`.
- size_t and int overflow of queue sizes and priority limits: sizes beyond 2^63 and limits millions apart are not modelled.
- QueueGet.PollForTimeout: needs `Terminates`; with a rate of zero, a positive timeout and no answer the loop does not end, as `QueueGet.EndsAtAll` states.
- SchLabScheduler.InitTables: a tick rate above one million together with a command and a free row, where the source divides by a period of zero.
- Message contents in the schedulers: header initialisation, payload copies and validateMessageData use calls and sizes that are not part of this model.
- Floating point: addScheduledCmd's conversion of its rate to microseconds, and the minor frame rate.
- Start-up files without the target scheduler: the written file then names the scheduler SCH and reads back as an application.
- Non-Linux condition variables, thread creation, CPU affinity, console output and message text: operating system plumbing.
- SchLabTrickCFSSchedulerEquuleusRC1: the same logic as the modelled scheduler.
