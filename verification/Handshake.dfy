/** The handshake between Trick's main thread, the SCH thread and the cFS tasks as a transition system.

  A step is one mutex-held section, one eventfd operation, one queue operation or one move of a
  program counter. Every interleaving of the threads is a sequence of steps, and a thread that waits
  on a condition variable has no step until the awaited state is there. Applications stay RUNNING,
  `perfectScheduleMode` is fixed for a run, each pipe has a fixed owner, and
  `msWaitTimeForCFSApps` keeps its default (wait forever).
 */
module Handshake {
  import opened TaskIpc

  type Pipe = nat
  /** A call site of OS_QueueGet: the caller's frames. */
  type Site = seq<Frame>

  /** The three frames below the caller while acknowledging and while completing. */
  const ACK_FRAMES: seq<Frame> := [0, 1, 2]
  const COMPLETE_FRAMES: seq<Frame> := [3, 4, 5]

  function AckTrace(site: Site): StackInfo { Backtrace(ACK_FRAMES, site) }
  function CompleteTrace(site: Site): StackInfo { Backtrace(COMPLETE_FRAMES, site) }

  datatype Config = Config(
    perfect: bool,
    priority: seq<nat>,         // by task; its length is OS_MAX_TASKS
    owner: seq<nat>,            // by pipe: prevPipeTaskOwner
    sites: seq<set<Site>>,      // by task: where it receives
    schMids: set<Mid>)          // the message ids that only SCH sends
  {
    predicate Valid() {
      && |sites| == |priority| < SIZE_T
      && (forall p :: 0 <= p < |owner| ==> owner[p] < |priority|)
    }

    /** All receives of task `t` come from one call site, as far as a trace can see. */
    ghost predicate OneSite(t: nat) {
      t < |sites| && forall a, b :: a in sites[t] && b in sites[t] ==> Visible(a) == Visible(b)
    }

    ghost predicate Owns(t: nat) {
      exists p :: 0 <= p < |owner| && owner[p] == t
    }
  }

  const SIZE_T: nat := 0x1_0000_0000_0000_0000

  datatype TaskPc =
    | Working
    | InComplete(pipe: Pipe, site: Site)  // waiting in markPipeAsComplete
    | Fetching(pipe: Pipe, site: Site)    // about to receive from the queue
    | Fetched(mid: Mid, site: Site)       // about to acknowledge
    | InAck                               // waiting in acknowledgePipeTrigger
    | InDelay                             // waiting in addTaskDelay

  /** A task. The last three fields are history, which no step reads: the ids marked for the task, the
      ids it has completed, and how often it has entered a receive with receipts open but none of them
      from that receive's own site. */
  datatype Task = Task(ipc: Ipc, pc: TaskPc, marked: multiset<Mid>, completed: multiset<Mid>, foreign: nat)

  datatype MapEntry = MapEntry(priority: nat, task: nat)
  /** One of SCH's messages that a full queue of the task has dropped. */
  datatype Refusal = Refusal(task: nat, mid: Mid)

  datatype SchPc =
    | Table                                                         // in processScheduleTable
    | Marking(mid: Mid, dests: seq<Pipe>, next: nat)                // destination loop of sendScheduledMessage
    | Sending(mid: Mid, dests: seq<Pipe>, next: nat)                // CFE_SB_TransmitMsg
    | Visit(at: nat)                                                // the multimap loop
    | Visiting(at: nat, reqTriggers: nat, numTriggers: nat, numCompletes: nat, woken: nat)
    | Signal                                                        // about to write isMainCompleteTrigger
    | AwaitTrigger                                                  // reading triggerMain

  datatype MainPc =
    | AwaitDone                                   // reading isMainCompleteTrigger
    | Scan(ii: nat)                               // the one-pass scan; ii is a size_t
    | Blocked(ii: nat)                            // its pthread_cond_timedwait
    | Active(passed: nat)                         // TrickWaitForCFSComplete has returned
    | Updating(ii: nat, cycleTics: int)           // updateTaskTimes
    | Trigger                                     // about to write triggerMain

  datatype Sys = Sys(
    tasks: seq<Task>,
    queues: seq<seq<Mid>>,
    perfectFDMap: seq<MapEntry>,
    registered: nat,
    sch: SchPc,
    main: MainPc,
    triggerFd: nat,
    doneFd: nat,
    // history: eventfd operations so far, the marks made for the map in their order, the map of the frame
    // with the entries released in it, and the refusals so far
    triggerWrites: nat, triggerReads: nat, doneWrites: nat, doneReads: nat,
    marks: seq<MapEntry>, frameMap: seq<MapEntry>, releases: seq<nat>, refused: multiset<Refusal>)

  /** SCH starts at the call of SCH_TRICK_main_complete that ends its init(). */
  function Init(c: Config): Sys {
    Sys(seq(|c.priority|, _ => Task(FRESH, Working, multiset{}, multiset{}, 0)), seq(|c.owner|, _ => []),
        [], 0, if c.perfect then Visit(0) else Signal, AwaitDone, 0, 0, 0, 0, 0, 0, [], [], [], multiset{})
  }

  datatype TaskAct =
    | Delay(msIn: nat)
    | LeaveDelay
    | EnterReceive(pipe: Pipe, site: Site)
    | LeaveComplete
    | Fetch
    | FetchNothing                  // timed out, empty or refused: the receive returns without a message
    | Acknowledge
    | KeepData                      // what was received is not a software bus buffer: nothing to acknowledge
    | LeaveAck

  datatype SchAct =
    | Send(mid: Mid, dests: seq<Pipe>)
    | Mark
    | AllMarked
    | Deliver(accepted: bool)       // a full queue drops the message
    | Sent
    | EndTable
    | StartVisit
    | Poll
    | LeaveVisit
    | EndVisits
    | WriteDone
    | ReadTrigger

  datatype MainAct =
    | ReadDone
    | Test
    | Retest                        // the condition variable was signalled
    | Return
    | BeginUpdate(cycleTics: int)
    | UpdateOne
    | EndUpdate
    | WriteTrigger

  datatype Step =
    | TaskStep(t: nat, act: TaskAct)
    | SchStep(sch: SchAct)
    | MainStep(main: MainAct)
    | ForeignSend(pipe: Pipe, mid: Mid)  // any other sender of the software bus
    | Register(count: nat)               // tasks come and go

  /** `++ii` and `--ii` on a size_t. */
  function Inc(ii: nat): nat { (ii + 1) % SIZE_T }
  function Dec(ii: nat): nat { (ii + SIZE_T - 1) % SIZE_T }

  /** std::multimap::insert: after the last entry that is not larger. */
  function InsertAt(m: seq<MapEntry>, priority: nat): (i: nat)
    ensures i <= |m|
    ensures i > 0 ==> m[i - 1].priority <= priority
    ensures forall j :: i <= j < |m| ==> m[j].priority > priority
  {
    if m == [] || m[|m| - 1].priority <= priority then |m| else InsertAt(m[..|m| - 1], priority)
  }

  function Insert(m: seq<MapEntry>, e: MapEntry): seq<MapEntry> {
    var i := InsertAt(m, e.priority);
    m[..i] + [e] + m[i..]
  }

  // ---- Tasks ----

  predicate TaskEnabled(c: Config, t: nat, task: Task, queues: seq<seq<Mid>>, act: TaskAct) {
    match act
    case Delay(_) => task.pc == Working
    case LeaveDelay => task.pc == InDelay && task.ipc.state == TASK_CONTINUE
    case EnterReceive(p, site) =>
      && task.pc == Working && CompleteDefined(task.ipc)
      && p < |c.owner| && c.owner[p] == t && t < |c.sites| && site in c.sites[t]
    case LeaveComplete => task.pc.InComplete? && task.ipc.state == TASK_CONTINUE
    case Fetch => task.pc.Fetching? && task.pc.pipe < |queues| && queues[task.pc.pipe] != []
    case FetchNothing => task.pc.Fetching?
    case Acknowledge => task.pc.Fetched?
    case KeepData => task.pc.Fetched? && task.pc.mid !in c.schMids
    case LeaveAck => task.pc == InAck && task.ipc.state == TASK_CONTINUE
  }

  /** What markPipeAsComplete does to a task, with the history of what it completed. */
  function Complete(c: Config, task: Task, pipe: Pipe, site: Site): Task
    requires CompleteDefined(task.ipc)
  {
    var (ipc, waits) := CompleteSection(c.perfect, task.ipc, CompleteTrace(site));
    var open := task.ipc.stacks != [];
    task.(ipc := ipc,
          pc := if waits then InComplete(pipe, site) else Fetching(pipe, site),
          completed := if open && |ipc.acknowledged| < |task.ipc.acknowledged|
                       then task.completed + multiset{task.ipc.acknowledged[|task.ipc.acknowledged| - 1]}
                       else task.completed,
          foreign := if open && |ipc.stacks| == |task.ipc.stacks| then task.foreign + 1 else task.foreign)
  }

  function Act(c: Config, t: nat, task: Task, queues: seq<seq<Mid>>, act: TaskAct): Task
    requires TaskEnabled(c, t, task, queues, act)
  {
    match act
    case Delay(msIn) =>
      var (ipc, waits) := DelaySection(c.perfect, task.ipc, msIn);
      task.(ipc := ipc, pc := if waits then InDelay else Working)
    case LeaveDelay => task.(ipc := Resume(task.ipc), pc := Working)
    case EnterReceive(p, site) => Complete(c, task, p, site)
    case LeaveComplete => task.(ipc := Resume(task.ipc), pc := Fetching(task.pc.pipe, task.pc.site))
    case Fetch => task.(pc := Fetched(queues[task.pc.pipe][0], task.pc.site))
    case FetchNothing => task.(pc := Working)
    case Acknowledge =>
      var (ipc, waits) := AckSection(c.perfect, task.ipc, task.pc.mid, AckTrace(task.pc.site));
      task.(ipc := ipc, pc := if waits then InAck else Working)
    case KeepData => task.(pc := Working)
    case LeaveAck => task.(ipc := Resume(task.ipc), pc := Working)
  }

  /** What markPipeAsTriggered does to the owner of a pipe. */
  function Marked(task: Task, mid: Mid): Task {
    task.(ipc := MarkSection(task.ipc, mid), marked := task.marked + multiset{mid})
  }

  // ---- SCH ----

  predicate SchEnabled(c: Config, s: Sys, act: SchAct) {
    match act
    case Send(mid, dests) =>
      s.sch == Table && mid in c.schMids && forall k :: 0 <= k < |dests| ==> dests[k] < |c.owner|
    case Mark => s.sch.Marking? && s.sch.next < |s.sch.dests| && s.sch.dests[s.sch.next] < |c.owner|
    case AllMarked => s.sch.Marking? && s.sch.next == |s.sch.dests|
    case Deliver(_) => s.sch.Sending? && s.sch.next < |s.sch.dests| && s.sch.dests[s.sch.next] < |c.owner|
    case Sent => s.sch.Sending? && s.sch.next == |s.sch.dests|
    case EndTable => s.sch == Table
    case StartVisit => s.sch.Visit? && s.sch.at < |s.perfectFDMap| && s.perfectFDMap[s.sch.at].task < |s.tasks|
    case Poll =>
      && s.sch.Visiting? && s.sch.numCompletes != s.sch.reqTriggers
      && s.sch.at < |s.perfectFDMap| && s.perfectFDMap[s.sch.at].task < |s.tasks|
    case LeaveVisit => s.sch.Visiting? && s.sch.numCompletes == s.sch.reqTriggers
    case EndVisits => s.sch.Visit? && s.sch.at == |s.perfectFDMap|
    case WriteDone => s.sch == Signal
    case ReadTrigger => s.sch == AwaitTrigger && s.triggerFd > 0
  }

  function SchApply(c: Config, s: Sys, act: SchAct): Sys
    requires Shaped(c, s) && SchEnabled(c, s, act)
  {
    match act
    case Send(mid, dests) => s.(sch := Marking(mid, dests, 0))
    case Mark =>
      var t := c.owner[s.sch.dests[s.sch.next]];
      s.(tasks := s.tasks[t := Marked(s.tasks[t], s.sch.mid)],
         perfectFDMap := if c.perfect then Insert(s.perfectFDMap, MapEntry(c.priority[t], t)) else s.perfectFDMap,
         marks := if c.perfect then s.marks + [MapEntry(c.priority[t], t)] else s.marks,
         sch := Marking(s.sch.mid, s.sch.dests, s.sch.next + 1))
    case AllMarked => s.(sch := Sending(s.sch.mid, s.sch.dests, 0))
    case Deliver(accepted) =>
      var p := s.sch.dests[s.sch.next];
      s.(queues := if accepted then s.queues[p := s.queues[p] + [s.sch.mid]] else s.queues,
         refused := if accepted then s.refused else s.refused + multiset{Refusal(c.owner[p], s.sch.mid)},
         sch := Sending(s.sch.mid, s.sch.dests, s.sch.next + 1))
    case Sent => s.(sch := Table)
    case EndTable =>
      s.(sch := if c.perfect then Visit(0) else Signal, frameMap := s.perfectFDMap, releases := [])
    case StartVisit =>
      s.(sch := Visiting(s.sch.at, |s.tasks[s.perfectFDMap[s.sch.at].task].ipc.triggered|, 0, 0, 0))
    case Poll =>
      var t := s.perfectFDMap[s.sch.at].task;
      var (ipc, effect) := PollSection(s.tasks[t].ipc, s.sch.numTriggers, s.sch.reqTriggers);
      s.(tasks := s.tasks[t := s.tasks[t].(ipc := ipc)],
         sch := Counted(s.sch, effect),
         releases := if effect == ReleasedReceipt then s.releases + [s.sch.at] else s.releases)
    case LeaveVisit => s.(sch := Visit(s.sch.at + 1))
    case EndVisits => s.(sch := Signal, perfectFDMap := [], marks := [])
    case WriteDone => s.(sch := AwaitTrigger, doneFd := s.doneFd + 1, doneWrites := s.doneWrites + 1)
    case ReadTrigger => s.(sch := Table, triggerFd := 0, triggerReads := s.triggerReads + 1)
  }

  function Counted(sch: SchPc, effect: Effect): SchPc
    requires sch.Visiting?
  {
    match effect
    case Nothing => sch
    case WokeSleeper => sch.(woken := sch.woken + 1)
    case ReleasedReceipt => sch.(numTriggers := sch.numTriggers + 1)
    case CountedCompletion => sch.(numCompletes := sch.numCompletes + 1)
  }

  // ---- Trick main ----

  predicate MainEnabled(s: Sys, act: MainAct) {
    match act
    case ReadDone => s.main == AwaitDone && s.doneFd > 0
    case Test => s.main.Scan? && s.main.ii < s.registered && s.main.ii < |s.tasks|
    case Retest => s.main.Blocked?
    case Return => s.main.Scan? && s.main.ii >= s.registered
    case BeginUpdate(_) => s.main.Active?
    case UpdateOne => s.main.Updating? && s.main.ii < |s.tasks|
    case EndUpdate => s.main.Updating? && s.main.ii == |s.tasks|
    case WriteTrigger => s.main == Trigger
  }

  function MainApply(c: Config, s: Sys, act: MainAct): Sys
    requires MainEnabled(s, act)
  {
    match act
    case ReadDone =>
      s.(main := if c.perfect then Active(0) else Scan(0), doneFd := 0, doneReads := s.doneReads + 1)
    case Test =>
      s.(main := if Settled(s.tasks[s.main.ii].ipc) then Scan(Inc(s.main.ii)) else Blocked(s.main.ii))
    case Retest => s.(main := Scan(Inc(Dec(s.main.ii))))
    case Return => s.(main := Active(s.main.ii))
    case BeginUpdate(cycleTics) => s.(main := Updating(0, cycleTics))
    case UpdateOne =>
      var task := s.tasks[s.main.ii];
      s.(tasks := s.tasks[s.main.ii := task.(ipc := Tick(task.ipc, s.main.cycleTics))],
         main := Updating(s.main.ii + 1, s.main.cycleTics))
    case EndUpdate => s.(main := Trigger)
    case WriteTrigger =>
      s.(main := AwaitDone, triggerFd := s.triggerFd + 1, triggerWrites := s.triggerWrites + 1)
  }

  // ---- All of them ----

  predicate Shaped(c: Config, s: Sys) {
    && c.Valid()
    && |s.tasks| == |c.priority| && |s.queues| == |c.owner| && s.registered <= |s.tasks|
  }

  predicate Enabled(c: Config, s: Sys, step: Step) {
    && Shaped(c, s)
    && match step
       case TaskStep(t, act) => t < |s.tasks| && TaskEnabled(c, t, s.tasks[t], s.queues, act)
       case SchStep(act) => SchEnabled(c, s, act)
       case MainStep(act) => MainEnabled(s, act)
       case ForeignSend(p, mid) => p < |s.queues| && mid !in c.schMids
       case Register(count) => count <= |s.tasks|
  }

  function Apply(c: Config, s: Sys, step: Step): (s': Sys)
    requires Enabled(c, s, step)
    ensures Shaped(c, s')
  {
    match step
    case TaskStep(t, act) =>
      var pc := s.tasks[t].pc;
      s.(tasks := s.tasks[t := Act(c, t, s.tasks[t], s.queues, act)],
         queues := if act.Fetch? then s.queues[pc.pipe := s.queues[pc.pipe][1..]] else s.queues)
    case SchStep(act) => SchApply(c, s, act)
    case MainStep(act) => MainApply(c, s, act)
    case ForeignSend(p, mid) => s.(queues := s.queues[p := s.queues[p] + [mid]])
    case Register(count) => s.(registered := count)
  }

  /** All that a step does to one task. */
  function Touched(c: Config, s: Sys, step: Step, u: nat): (task': Task)
    requires Enabled(c, s, step) && u < |s.tasks|
    ensures task' == Apply(c, s, step).tasks[u]
  {
    var task := s.tasks[u];
    if step.TaskStep? && step.t == u then Act(c, u, task, s.queues, step.act)
    else if step == SchStep(Mark) && c.owner[s.sch.dests[s.sch.next]] == u then Marked(task, s.sch.mid)
    else if step == SchStep(Poll) && s.perfectFDMap[s.sch.at].task == u then
      task.(ipc := PollSection(task.ipc, s.sch.numTriggers, s.sch.reqTriggers).0)
    else if step == MainStep(UpdateOne) && s.main.ii == u then task.(ipc := Tick(task.ipc, s.main.cycleTics))
    else task
  }

  /** `run` is an interleaving that leads to `s`. */
  ghost predicate Reaches(c: Config, run: seq<Step>, s: Sys)
    decreases |run|
  {
    if run == [] then c.Valid() && s == Init(c)
    else
      var n := |run| - 1;
      exists r :: Reaches(c, run[..n], r) && Enabled(c, r, run[n]) && s == Apply(c, r, run[n])
  }

  ghost predicate Reachable(c: Config, s: Sys) {
    exists run :: Reaches(c, run, s)
  }

  lemma {:induction false} Extend(c: Config, s: Sys, step: Step)
    requires Reachable(c, s) && Enabled(c, s, step)
    ensures Reachable(c, Apply(c, s, step))
  {
    var run :| Reaches(c, run, s);
    var longer := run + [step];
    assert longer[..|longer| - 1] == run;
    assert Reaches(c, longer, Apply(c, s, step));
  }

  /** `steps` leads through `states`. */
  ghost predicate IsPath(c: Config, states: seq<Sys>, steps: seq<Step>) {
    && |states| == |steps| + 1
    && forall i :: 0 <= i < |steps| ==>
         Enabled(c, states[i], steps[i]) && states[i + 1] == Apply(c, states[i], steps[i])
  }
}
