/** When SCH's visit to a task, and Trick main's scan, can come to an end.

  Both wait for a task to work off its triggers. The task can unless it is stranded: a trigger has been
  spent on a poll of another call site, a full queue has dropped a message, or the task never receives. A
  stranded task stays stranded, so the condition is exact.
 */
module Progress {
  import opened TaskIpc
  import opened Handshake
  import Lockstep
  import TaskDiscipline
  import Tracking
  import SingleSite
  import PerfectMode
  import Snapshot

  /** The task has triggers that it can never complete. */
  ghost predicate Stranded(c: Config, s: Sys, t: nat)
    requires t < |s.tasks| && t < |c.sites|
  {
    || s.tasks[t].foreign > 0
    || (exists m :: m in c.schMids && Refusal(t, m) in s.refused)
    || (c.sites[t] == {} && s.tasks[t].ipc.triggered != [])
  }

  // ---- Paths ----

  datatype Permit = AnyStep | NoRegister | NoDelay

  /** `NoRegister`: no task comes or goes. `NoDelay`: nor does a task call addTaskDelay. */
  predicate Permitted(step: Step, permit: Permit) {
    match permit
    case AnyStep => true
    case NoRegister => !step.Register?
    case NoDelay => !step.Register? && !(step.TaskStep? && step.act.Delay?)
  }

  ghost predicate PathTo(c: Config, s: Sys, s': Sys, states: seq<Sys>, steps: seq<Step>, permit: Permit) {
    && IsPath(c, states, steps) && states[0] == s && states[|steps|] == s'
    && forall i :: 0 <= i < |steps| ==> Permitted(steps[i], permit)
  }

  ghost predicate CanReach(c: Config, s: Sys, s': Sys, permit: Permit) {
    exists states, steps :: PathTo(c, s, s', states, steps, permit)
  }

  lemma {:induction false} CanStay(c: Config, s: Sys, permit: Permit)
    ensures CanReach(c, s, s, permit)
  {
    assert PathTo(c, s, s, [s], [], permit);
  }

  lemma {:induction false} CanStep(c: Config, s: Sys, step: Step, s': Sys, permit: Permit)
    requires Enabled(c, s, step) && Permitted(step, permit) && CanReach(c, Apply(c, s, step), s', permit)
    ensures CanReach(c, s, s', permit)
  {
    var states, steps :| PathTo(c, Apply(c, s, step), s', states, steps, permit);
    var longer, states' := [step] + steps, [s] + states;
    forall i | 0 <= i < |longer|
      ensures Enabled(c, states'[i], longer[i]) && states'[i + 1] == Apply(c, states'[i], longer[i])
      ensures Permitted(longer[i], permit)
    {
      assert i > 0 ==> longer[i] == steps[i - 1] && states'[i] == states[i - 1];
    }
    assert PathTo(c, s, s', states', longer, permit);
  }

  // ---- A task that is not stranded ----

  /** What is known of it by itself. */
  ghost predicate Healthy(c: Config, t: nat, task: Task) {
    && TaskDiscipline.TaskInv(c, t, task) && SingleSite.OneReceipt(c, task) && task.foreign == 0
    && Tracking.OwnPipe(c, t, task.pc)
  }

  /** It waits for somebody else. */
  predicate Waits(task: Task) {
    || (task.pc.InDelay? && task.ipc.state == TASK_DELAY)
    || (task.pc.InAck? && task.ipc.state == MSG_RCV)
    || (task.pc.InComplete? && task.ipc.state == TASK_COMPLETE)
  }

  /** The messages in the first `n` queues that belong to task `t`. */
  function Load(c: Config, queues: seq<seq<Mid>>, t: nat, n: nat): nat
    requires n <= |queues| == |c.owner|
  {
    if n == 0 then 0 else Load(c, queues, t, n - 1) + (if c.owner[n - 1] == t then |queues[n - 1]| else 0)
  }

  /** How far the task is from fetching or completing something. */
  function Stage(task: Task, queues: seq<seq<Mid>>): nat {
    match task.pc
    case Working => 1
    case Fetching(p, _) => if p < |queues| && queues[p] != [] then 0 else 2
    case Fetched(_, _) => 5
    case _ => if task.ipc.state == TASK_CONTINUE then 3 else 4
  }

  lemma {:induction false} LoadFalls(c: Config, queues: seq<seq<Mid>>, t: nat, p: Pipe, n: nat)
    requires n <= |queues| == |c.owner| && p < |queues| && queues[p] != []
    ensures Load(c, queues[p := queues[p][1..]], t, n)
         == Load(c, queues, t, n) - (if p < n && c.owner[p] == t then 1 else 0)
  {
    if n > 0 {
      LoadFalls(c, queues, t, p, n - 1);
    }
  }

  lemma {:induction false} QueuedSomewhere(c: Config, queues: seq<seq<Mid>>, t: nat, m: Mid, n: nat) returns (p: Pipe)
    requires n <= |queues| == |c.owner| && Tracking.Queued(c, queues, t, m, n) > 0
    ensures p < n && c.owner[p] == t && queues[p] != []
  {
    if c.owner[n - 1] == t && Tracking.Count(queues[n - 1], m) > 0 {
      p := n - 1;
    } else {
      p := QueuedSomewhere(c, queues, t, m, n - 1);
    }
  }

  /** Going back to the call site of its receipt, a task completes it. */
  lemma {:induction false} CompleteOwn(c: Config, t: nat, task: Task, pipe: Pipe) returns (site: Site)
    requires Healthy(c, t, task) && task.pc == Working && task.ipc.stacks != []
    ensures site in c.sites[t] && CompleteDefined(task.ipc)
    ensures var task' := Complete(c, task, pipe, site);
            task'.foreign == 0 && |task'.ipc.triggered| == |task.ipc.triggered| - 1
  {
    var r := task.ipc.stacks[0];
    assert r in task.ipc.stacks;
    site :| site in c.sites[t] && r == AckTrace(site);
    MatchIsSameCaller(COMPLETE_FRAMES, site, ACK_FRAMES, site);
    assert FindMatch(task.ipc.stacks, CompleteTrace(site)) == 0;
  }

  /** The task can act, and comes closer to having no triggers. */
  lemma {:induction false} Advance(c: Config, t: nat, task: Task, queues: seq<seq<Mid>>, p: Pipe) returns (act: TaskAct)
    requires Healthy(c, t, task) && !Waits(task) && |queues| == |c.owner|
    requires task.pc == Working ==>
               && task.ipc.triggered != [] && p < |c.owner| && c.owner[p] == t && c.sites[t] != {}
               && (task.ipc.stacks == [] ==> queues[p] != [])
    ensures TaskEnabled(c, t, task, queues, act) && !act.Delay?
    ensures var task' := Act(c, t, task, queues, act);
            && task'.foreign == 0
            && (|task'.ipc.triggered| < |task.ipc.triggered|
                || (|task'.ipc.triggered| == |task.ipc.triggered|
                    && (act.Fetch? || Stage(task', queues) < Stage(task, queues))))
  {
    match task.pc {
      case Working =>
        var site: Site;
        if task.ipc.stacks == [] {
          site :| site in c.sites[t];
        } else {
          site := CompleteOwn(c, t, task, p);
        }
        act := EnterReceive(p, site);
      case InDelay => act := LeaveDelay;
      case InAck => act := LeaveAck;
      case InComplete(_, _) => act := LeaveComplete;
      case Fetching(q, _) => act := if queues[q] != [] then Fetch else FetchNothing;
      case Fetched(_, _) => act := Acknowledge;
    }
  }

  // ---- Its next step in a run ----

  predicate Visits(s: Sys, t: nat) {
    s.sch.Visiting? && s.sch.at < |s.perfectFDMap| && s.perfectFDMap[s.sch.at].task == t < |s.tasks|
  }

  /** No triggers, and nothing that SCH has still to count. */
  predicate Drained(c: Config, task: Task) {
    task.ipc.triggered == [] && !(c.perfect && task.ipc.state == TASK_COMPLETE)
  }

  lemma {:induction false} ReachableHealthy(c: Config, s: Sys, t: nat)
    requires Reachable(c, s) && t < |s.tasks| && s.tasks[t].foreign == 0
    ensures Healthy(c, t, s.tasks[t])
  {
    var run :| Reaches(c, run, s);
    TaskDiscipline.Always(c, run, s);
    SingleSite.Always(c, run, s);
    Tracking.Always(c, run, s);
    assert SingleSite.Orderly(c, t, s.tasks[t]);
  }

  predicate Sending(sch: SchPc) { sch.Marking? || sch.Sending? }

  /** Where its next message is. */
  lemma {:induction false} NextPipe(c: Config, s: Sys, t: nat) returns (p: Pipe)
    requires Reachable(c, s) && Shaped(c, s) && t < |s.tasks| && !Stranded(c, s, t) && !Sending(s.sch)
    requires s.tasks[t].pc == Working && s.tasks[t].ipc.triggered != []
    ensures p < |c.owner| && c.owner[p] == t && (s.tasks[t].ipc.stacks == [] ==> s.queues[p] != [])
  {
    var run :| Reaches(c, run, s);
    Tracking.Always(c, run, s);
    var ipc := s.tasks[t].ipc;
    var m := ipc.triggered[0];
    assert Tracking.Kept(c, s.tasks[t]) && Tracking.Accounted(c, s, t, m);
    assert m in multiset(ipc.triggered);
    if ipc.stacks == [] {
      assert ipc.acknowledged == [] && s.refused[Refusal(t, m)] == 0;
      p := QueuedSomewhere(c, s.queues, t, m, |s.queues|);
    } else {
      assert c.Owns(t);
      p :| 0 <= p < |c.owner| && c.owner[p] == t;
    }
  }

  lemma {:induction false} PollWakes(c: Config, s: Sys, t: nat)
    requires Reachable(c, s) && Shaped(c, s) && c.perfect && Visits(s, t) && Waits(s.tasks[t])
    requires s.sch.numCompletes != s.sch.reqTriggers
    ensures Enabled(c, s, SchStep(Poll))
    ensures var task, s' := s.tasks[t], Apply(c, s, SchStep(Poll));
            && s'.tasks[t] == task.(ipc := task.ipc.(state := TASK_CONTINUE)) && Visits(s', t)
            && s'.queues == s.queues && s'.refused == s.refused
  {
    PerfectMode.VisitAccounting(c, s);
  }

  lemma {:induction false} VisitedHasWork(c: Config, s: Sys, t: nat)
    requires Reachable(c, s) && Shaped(c, s) && c.perfect && Visits(s, t) && s.tasks[t].foreign == 0
    ensures s.sch.numCompletes == s.sch.reqTriggers <==> Drained(c, s.tasks[t])
  {
    PerfectMode.VisitAccounting(c, s);
  }

  /** `s'` is closer to task `t` having no triggers. */
  ghost predicate Closer(c: Config, s: Sys, s': Sys, t: nat)
    requires t < |s.tasks| && t < |s'.tasks| && |s.queues| == |c.owner| == |s'.queues|
  {
    var a, b := s.tasks[t], s'.tasks[t];
    var n, n' := |a.ipc.triggered|, |b.ipc.triggered|;
    var load, load' := Load(c, s.queues, t, |s.queues|), Load(c, s'.queues, t, |s'.queues|);
    || n' < n
    || (n' == n && load' < load)
    || (n' == n && load' == load && Stage(b, s'.queues) < Stage(a, s.queues))
  }

  /** The task itself moves. */
  lemma {:induction false} TaskMoves(c: Config, s: Sys, t: nat) returns (step: Step)
    requires Reachable(c, s) && Shaped(c, s) && t < |s.tasks| && !Stranded(c, s, t) && !Sending(s.sch)
    requires !Waits(s.tasks[t]) && !Drained(c, s.tasks[t])
    ensures Enabled(c, s, step) && step.TaskStep? && step.t == t && !step.act.Delay?
    ensures var s' := Apply(c, s, step);
            Closer(c, s, s', t) && s'.tasks[t].foreign == 0
  {
    var task, p := s.tasks[t], 0;
    ReachableHealthy(c, s, t);
    if task.pc == Working {
      p := NextPipe(c, s, t);
    }
    var act := Advance(c, t, task, s.queues, p);
    step := TaskStep(t, act);
    if act.Fetch? {
      LoadFalls(c, s.queues, t, task.pc.pipe, |s.queues|);
    }
  }

  lemma {:induction false} StrandedIsStable(c: Config, s: Sys, step: Step, t: nat)
    requires Enabled(c, s, step) && t < |s.tasks| && Stranded(c, s, t)
    ensures Stranded(c, Apply(c, s, step), t)
  {
    var s' := Apply(c, s, step);
    assert s'.tasks[t] == Touched(c, s, step, t);
    if s.tasks[t].foreign > 0 {
      PerfectMode.ForeignGrows(c, s, step, t);
    } else if m :| m in c.schMids && Refusal(t, m) in s.refused {
      RefusedGrows(c, s, step);
      assert Refusal(t, m) in s'.refused;
    } else {
      NoSitesNoCompletion(c, s, step, t);
    }
  }

  lemma {:induction false} RefusedGrows(c: Config, s: Sys, step: Step)
    requires Enabled(c, s, step)
    ensures s.refused <= Apply(c, s, step).refused
  {
  }

  lemma {:induction false} NoSitesNoCompletion(c: Config, s: Sys, step: Step, t: nat)
    requires Enabled(c, s, step) && t < |s.tasks| && c.sites[t] == {} && s.tasks[t].ipc.triggered != []
    ensures Touched(c, s, step, t).ipc.triggered != []
  {
  }

  /** A stranded task has something left to do, and always will have. */
  lemma {:induction false} StrandedHasWork(c: Config, s: Sys, t: nat)
    requires Reachable(c, s) && t < |s.tasks| && t < |c.sites| && Stranded(c, s, t)
    ensures s.tasks[t].ipc.triggered != [] || (s.tasks[t].ipc.stacks != [] && s.tasks[t].foreign > 0)
  {
    Tracking.ReceiptsOf(c, s, t);
    if s.tasks[t].foreign == 0 {
      if m :| m in c.schMids && Refusal(t, m) in s.refused {
        Tracking.NothingUntracked(c, s, t, m);
        assert m in multiset(s.tasks[t].ipc.triggered);
      }
    }
  }

  /** A step of the task, or a poll, strands nobody. */
  lemma {:induction false} StaysUnstranded(c: Config, s: Sys, step: Step, t: nat)
    requires Enabled(c, s, step) && t < |s.tasks| && !Stranded(c, s, t)
    requires step == SchStep(Poll) || (step.TaskStep? && step.t == t)
    requires Apply(c, s, step).tasks[t].foreign == 0
    ensures !Stranded(c, Apply(c, s, step), t)
  {
    var s' := Apply(c, s, step);
    assert s'.refused == s.refused;
    assert s'.tasks[t] == Touched(c, s, step, t);
    if step.TaskStep? {
      Tracking.ActTriggers(c, t, s.tasks[t], s.queues, step.act);
    }
  }

  // ---- The end of a visit ----

  lemma {:induction false} VisitAdvances(c: Config, s: Sys, t: nat) returns (step: Step)
    requires Reachable(c, s) && Shaped(c, s) && c.perfect && Visits(s, t) && !Stranded(c, s, t)
    requires s.sch.numCompletes != s.sch.reqTriggers
    ensures Enabled(c, s, step)
    ensures var s' := Apply(c, s, step);
            Visits(s', t) && !Stranded(c, s', t) && Closer(c, s, s', t)
  {
    VisitedHasWork(c, s, t);
    if Waits(s.tasks[t]) {
      step := SchStep(Poll);
      PollWakes(c, s, t);
    } else {
      step := TaskMoves(c, s, t);
    }
    StaysUnstranded(c, s, step, t);
  }

  lemma {:induction false} VisitEnds(c: Config, s: Sys, t: nat) returns (s': Sys)
    requires Reachable(c, s) && Shaped(c, s) && c.perfect && Visits(s, t) && !Stranded(c, s, t)
    ensures CanReach(c, s, s', AnyStep) && Visits(s', t) && Enabled(c, s', SchStep(LeaveVisit))
    decreases |s.tasks[t].ipc.triggered|, Load(c, s.queues, t, |s.queues|), Stage(s.tasks[t], s.queues)
  {
    if s.sch.numCompletes == s.sch.reqTriggers {
      s' := s;
      CanStay(c, s, AnyStep);
    } else {
      var step := VisitAdvances(c, s, t);
      Extend(c, s, step);
      s' := VisitEnds(c, Apply(c, s, step), t);
      CanStep(c, s, step, s', AnyStep);
    }
  }

  /** SCH is visiting a stranded task at entry `at`. */
  ghost predicate Hangs(c: Config, s: Sys, at: nat) {
    && Shaped(c, s) && s.sch.Visiting? && s.sch.at == at < |s.perfectFDMap| && s.perfectFDMap[at].task < |s.tasks|
    && Stranded(c, s, s.perfectFDMap[at].task)
  }

  lemma {:induction false} HangsOn(c: Config, s: Sys, step: Step, at: nat)
    requires Reachable(c, s) && c.perfect && Hangs(c, s, at) && Enabled(c, s, step)
    ensures step != SchStep(LeaveVisit) && Hangs(c, Apply(c, s, step), at)
  {
    CannotLeave(c, s, at);
    PerfectMode.SchStays(c, s, step);
    StrandedIsStable(c, s, step, s.perfectFDMap[at].task);
  }

  lemma {:induction false} CannotLeave(c: Config, s: Sys, at: nat)
    requires Reachable(c, s) && c.perfect && Hangs(c, s, at)
    ensures !Enabled(c, s, SchStep(LeaveVisit)) && s.main == AwaitDone && s.doneFd == 0
  {
    PerfectMode.VisitBound(c, s);
    StrandedHasWork(c, s, s.perfectFDMap[at].task);
    Lockstep.OneToken(c, s);
  }

  /** While SCH visits a stranded task it stays at this task whatever follows: on no path does the visit
      end, so the frame is never reported complete, and Trick main waits for it forever. */
  lemma {:induction false} StrandedVisitHangs(c: Config, states: seq<Sys>, steps: seq<Step>, at: nat, n: nat)
    requires IsPath(c, states, steps) && n <= |steps| && c.perfect
    requires Reachable(c, states[0]) && Hangs(c, states[0], at)
    ensures Reachable(c, states[n]) && Hangs(c, states[n], at)
    ensures !Enabled(c, states[n], SchStep(LeaveVisit)) && states[n].main == AwaitDone && states[n].doneFd == 0
  {
    if n > 0 {
      StrandedVisitHangs(c, states, steps, at, n - 1);
      HangsOn(c, states[n - 1], steps[n - 1], at);
      Extend(c, states[n - 1], steps[n - 1]);
    }
    CannotLeave(c, states[n], at);
  }

  /** Exactly when a visit can end: some path leads to where SCH may leave it if and only if the visited
      task is not stranded. */
  lemma {:induction false} VisitCanEnd(c: Config, s: Sys, t: nat)
    requires Reachable(c, s) && c.perfect && Visits(s, t) && t < |c.sites|
    ensures (exists s' :: CanReach(c, s, s', AnyStep) && Enabled(c, s', SchStep(LeaveVisit))) <==> !Stranded(c, s, t)
  {
    ReachableShaped(c, s);
    if Stranded(c, s, t) {
      if s' :| CanReach(c, s, s', AnyStep) && Enabled(c, s', SchStep(LeaveVisit)) {
        var states, steps :| PathTo(c, s, s', states, steps, AnyStep);
        StrandedVisitHangs(c, states, steps, s.sch.at, |steps|);
      }
    } else {
      var s' := VisitEnds(c, s, t);
    }
  }

  lemma {:induction false} ReachableShaped(c: Config, s: Sys)
    requires Reachable(c, s)
    ensures Shaped(c, s)
  {
    var run :| Reaches(c, run, s);
    TaskDiscipline.Always(c, run, s);
  }

  // ---- The end of a scan ----

  predicate Scans(s: Sys, ii: nat) { s.main == Scan(ii) || s.main == Blocked(ii) }

  /** The task can come to pass the scan's test without calling addTaskDelay. */
  ghost predicate CanSettle(c: Config, s: Sys, t: nat)
    requires t < |s.tasks| && t < |c.sites|
  {
    s.tasks[t].ipc.state == TASK_DELAY || !Stranded(c, s, t)
  }

  lemma {:induction false} DrainedIsSettled(c: Config, s: Sys, t: nat)
    requires Reachable(c, s) && t < |s.tasks| && s.tasks[t].foreign == 0 && s.tasks[t].ipc.triggered == []
    ensures Settled(s.tasks[t].ipc)
  {
    ReachableHealthy(c, s, t);
  }

  lemma {:induction false} StrandedIsUnsettled(c: Config, s: Sys, t: nat)
    requires Reachable(c, s) && Shaped(c, s) && t < |s.tasks| && !CanSettle(c, s, t)
    ensures !Settled(s.tasks[t].ipc)
  {
    StrandedHasWork(c, s, t);
  }

  lemma {:induction false} ScanStatus(c: Config, s: Sys, ii: nat)
    requires Reachable(c, s) && Scans(s, ii)
    ensures Shaped(c, s) && !c.perfect && s.sch == AwaitTrigger && s.triggerFd == 0 && ii <= |s.tasks| < SIZE_T
    ensures s.main.Blocked? ==> ii < |s.tasks|
  {
    var run :| Reaches(c, run, s);
    Snapshot.Always(c, run, s);
  }

  /** What the steps of the other threads leave alone while main scans. */
  predicate SameScan(s: Sys, s': Sys, t: nat) {
    && s'.main == s.main && s'.registered == s.registered && s'.refused == s.refused
    && |s'.tasks| == |s.tasks| && forall u :: 0 <= u < |s.tasks| && u != t ==> s'.tasks[u] == s.tasks[u]
  }

  /** A task on its way to settle. */
  lemma {:induction false} SettlerMoves(c: Config, s: Sys, t: nat, delays: bool) returns (step: Step)
    requires Reachable(c, s) && Scans(s, t) && t < |s.tasks| && t < |c.sites| && !Settled(s.tasks[t].ipc)
    requires delays || !Stranded(c, s, t)
    ensures Enabled(c, s, step) && Permitted(step, if delays then NoRegister else NoDelay)
    ensures var s' := Apply(c, s, step);
            && SameScan(s, s', t) && (delays || (!Stranded(c, s', t) && Closer(c, s, s', t)))
            && (delays ==> Settled(s'.tasks[t].ipc) || Distance(s'.tasks[t]) < Distance(s.tasks[t]))
  {
    ScanStatus(c, s, t);
    if delays {
      step := SleeperMoves(c, s, t);
    } else {
      if s.tasks[t].ipc.triggered == [] {
        DrainedIsSettled(c, s, t);
      }
      NormalNeverWaits(c, s, t);
      step := TaskMoves(c, s, t);
      StaysUnstranded(c, s, step, t);
    }
  }

  lemma {:induction false} NormalNeverWaits(c: Config, s: Sys, t: nat)
    requires Reachable(c, s) && Shaped(c, s) && !c.perfect && t < |s.tasks| && s.tasks[t].ipc.state != TASK_DELAY
    ensures !Waits(s.tasks[t]) && !s.tasks[t].pc.InAck? && !s.tasks[t].pc.InComplete?
    ensures s.tasks[t].pc.InDelay? ==> s.tasks[t].ipc.state == TASK_CONTINUE
  {
    var run :| Reaches(c, run, s);
    TaskDiscipline.Always(c, run, s);
    assert TaskDiscipline.StateFits(c, s.tasks[t]);
  }

  /** How far a task is from being able to call addTaskDelay. */
  function Distance(task: Task): nat { if task.pc == Working then 0 else 1 }

  lemma {:induction false} SleeperMoves(c: Config, s: Sys, t: nat) returns (step: Step)
    requires Reachable(c, s) && Shaped(c, s) && !c.perfect && t < |s.tasks| && s.tasks[t].ipc.state != TASK_DELAY
    ensures Enabled(c, s, step) && step.TaskStep? && step.t == t
    ensures var task' := Apply(c, s, step).tasks[t];
            Settled(task'.ipc) || Distance(task') < Distance(s.tasks[t])
    ensures SameScan(s, Apply(c, s, step), t)
  {
    NormalNeverWaits(c, s, t);
    var act := match s.tasks[t].pc
      case Working => Delay(0)
      case Fetching(_, _) => FetchNothing
      case Fetched(_, _) => Acknowledge
      case _ => LeaveDelay;
    step := TaskStep(t, act);
  }

  ghost predicate AllCanSettle(c: Config, s: Sys, ii: nat)
    requires s.registered <= |s.tasks| == |c.sites|
  {
    forall u :: ii <= u < s.registered ==> CanSettle(c, s, u)
  }

  function TasksLeft(s: Sys, ii: nat): nat { if ii < s.registered then s.registered - ii else 0 }

  function TriggersLeft(s: Sys, ii: nat, delays: bool): nat {
    if ii < |s.tasks| && !delays then |s.tasks[ii].ipc.triggered| else 0
  }

  function LoadLeft(c: Config, s: Sys, ii: nat, delays: bool): nat
    requires |s.queues| == |c.owner|
  {
    if ii < |s.tasks| && !delays then Load(c, s.queues, ii, |s.queues|) else 0
  }

  function StageLeft(s: Sys, ii: nat, delays: bool): nat {
    if ii >= |s.tasks| then 0
    else if !delays then Stage(s.tasks[ii], s.queues)
    else if Settled(s.tasks[ii].ipc) then 0
    else 1 + Distance(s.tasks[ii])
  }

  /** The scan is closer to its end. */
  ghost predicate ScanCloser(c: Config, s: Sys, s': Sys, ii: nat, ii': nat, delays: bool)
    requires |s.queues| == |c.owner| == |s'.queues|
  {
    var n, n' := TriggersLeft(s, ii, delays), TriggersLeft(s', ii', delays);
    var load, load' := LoadLeft(c, s, ii, delays), LoadLeft(c, s', ii', delays);
    || TasksLeft(s', ii') < TasksLeft(s, ii)
    || (TasksLeft(s', ii') == TasksLeft(s, ii) && s.main.Blocked? && !s'.main.Blocked?)
    || (TasksLeft(s', ii') == TasksLeft(s, ii) && s.main.Blocked? == s'.main.Blocked?
        && (n' < n || (n' == n && load' < load)
            || (n' == n && load' == load && StageLeft(s', ii', delays) < StageLeft(s, ii, delays))))
  }

  lemma {:induction false} MainScans(c: Config, s: Sys, ii: nat) returns (step: Step, ii': nat)
    requires Reachable(c, s) && Shaped(c, s) && Scans(s, ii)
    requires s.main.Blocked? || (ii < s.registered && Settled(s.tasks[ii].ipc))
    ensures Enabled(c, s, step) && step.MainStep? && ii <= ii'
    ensures var s' := Apply(c, s, step);
            && Scans(s', ii') && s'.registered == s.registered && s'.tasks == s.tasks && s'.refused == s.refused
            && (if s.main.Blocked? then ii' == ii && s'.main.Scan? else ii' == ii + 1)
  {
    ScanStatus(c, s, ii);
    if s.main.Blocked? {
      step, ii' := MainStep(Retest), ii;
      Snapshot.RetestsSameTask(ii);
    } else {
      step, ii' := MainStep(Test), ii + 1;
    }
  }

  lemma {:induction false} SettlerIsCloser(c: Config, s: Sys, s': Sys, ii: nat, delays: bool)
    requires Shaped(c, s) && Shaped(c, s') && SameScan(s, s', ii) && ii < s.registered && !Settled(s.tasks[ii].ipc)
    requires delays || Closer(c, s, s', ii)
    requires delays ==> Settled(s'.tasks[ii].ipc) || Distance(s'.tasks[ii]) < Distance(s.tasks[ii])
    ensures ScanCloser(c, s, s', ii, ii, delays)
  {
  }

  lemma {:induction false} ScanAdvances(c: Config, s: Sys, ii: nat, delays: bool) returns (step: Step, ii': nat)
    requires Reachable(c, s) && Shaped(c, s) && Scans(s, ii) && (delays || AllCanSettle(c, s, ii))
    requires s.main.Blocked? || ii < s.registered
    ensures Enabled(c, s, step) && Permitted(step, if delays then NoRegister else NoDelay)
    ensures var s' := Apply(c, s, step);
            Scans(s', ii') && (delays || AllCanSettle(c, s', ii')) && ScanCloser(c, s, s', ii, ii', delays)
  {
    ScanStatus(c, s, ii);
    if s.main.Blocked? || Settled(s.tasks[ii].ipc) {
      step, ii' := MainScans(c, s, ii);
      SameTasksCanSettle(c, s, Apply(c, s, step), ii, ii');
    } else {
      ii' := ii;
      assert delays || CanSettle(c, s, ii);
      step := SettlerMoves(c, s, ii, delays);
      var s' := Apply(c, s, step);
      SettlerIsCloser(c, s, s', ii, delays);
      assert forall u :: ii < u < s.registered && CanSettle(c, s, u) ==> CanSettle(c, s', u);
    }
  }

  lemma {:induction false} SameTasksCanSettle(c: Config, s: Sys, s': Sys, ii: nat, ii': nat)
    requires s.registered == s'.registered <= |s.tasks| == |c.sites| && s.tasks == s'.tasks
    requires s.refused == s'.refused && ii <= ii'
    ensures AllCanSettle(c, s, ii) ==> AllCanSettle(c, s', ii')
  {
    assert forall u :: ii' <= u < s.registered && CanSettle(c, s, u) ==> CanSettle(c, s', u);
  }

  lemma {:induction false} ScanReturns(c: Config, s: Sys, ii: nat, delays: bool) returns (s': Sys)
    requires Reachable(c, s) && Shaped(c, s) && Scans(s, ii) && (delays || AllCanSettle(c, s, ii))
    ensures CanReach(c, s, s', if delays then NoRegister else NoDelay) && Enabled(c, s', MainStep(Return))
    decreases TasksLeft(s, ii), s.main.Blocked?, TriggersLeft(s, ii, delays), LoadLeft(c, s, ii, delays),
              StageLeft(s, ii, delays)
  {
    var permit := if delays then NoRegister else NoDelay;
    if s.main.Scan? && ii >= s.registered {
      s' := s;
      CanStay(c, s, permit);
    } else {
      var step, ii' := ScanAdvances(c, s, ii, delays);
      Extend(c, s, step);
      s' := ScanReturns(c, Apply(c, s, step), ii', delays);
      CanStep(c, s, step, s', permit);
    }
  }

  /** The scan has come to `ii` at most, and registered task `t` is stranded and awake. */
  ghost predicate ScanHangs(c: Config, s: Sys, t: nat) {
    && Shaped(c, s) && t < s.registered && !CanSettle(c, s, t)
    && (s.main.Scan? || s.main.Blocked?) && s.main.ii <= t
  }

  lemma {:induction false} ScanHangsOn(c: Config, s: Sys, step: Step, t: nat)
    requires Reachable(c, s) && ScanHangs(c, s, t) && Enabled(c, s, step) && Permitted(step, NoDelay)
    ensures step != MainStep(Return) && ScanHangs(c, Apply(c, s, step), t)
  {
    ScanStatus(c, s, s.main.ii);
    StrandedIsUnsettled(c, s, t);
    StrandedIsStable(c, s, step, t);
    StaysAwake(c, s, step, t);
    if s.main.Blocked? {
      Snapshot.RetestsSameTask(s.main.ii);
    }
  }

  lemma {:induction false} StaysAwake(c: Config, s: Sys, step: Step, t: nat)
    requires Enabled(c, s, step) && Permitted(step, NoDelay) && t < |s.tasks| && s.tasks[t].ipc.state != TASK_DELAY
    ensures Apply(c, s, step).tasks[t].ipc.state != TASK_DELAY
  {
    assert Apply(c, s, step).tasks[t] == Touched(c, s, step, t);
  }

  /** If a registered task that the scan has not passed is stranded and does not sleep, the scan returns on
      no path, unless the task calls addTaskDelay or leaves. */
  lemma {:induction false} StrandedScanHangs(c: Config, states: seq<Sys>, steps: seq<Step>, t: nat, n: nat)
    requires IsPath(c, states, steps) && n <= |steps| && forall i :: 0 <= i < n ==> Permitted(steps[i], NoDelay)
    requires Reachable(c, states[0]) && ScanHangs(c, states[0], t)
    ensures Reachable(c, states[n]) && ScanHangs(c, states[n], t) && !Enabled(c, states[n], MainStep(Return))
  {
    if n > 0 {
      StrandedScanHangs(c, states, steps, t, n - 1);
      ScanHangsOn(c, states[n - 1], steps[n - 1], t);
      Extend(c, states[n - 1], steps[n - 1]);
    }
  }

  /** Exactly when a scan can return while the registered tasks stay the same: with tasks that only receive,
      if and only if each of those still to be passed sleeps or is not stranded; and always, if tasks may
      also call addTaskDelay. */
  lemma {:induction false} ScanCanReturn(c: Config, s: Sys, ii: nat, delays: bool)
    requires Reachable(c, s) && Scans(s, ii)
    ensures s.registered <= |s.tasks| == |c.sites|
    ensures (exists s' :: CanReach(c, s, s', if delays then NoRegister else NoDelay)
                          && Enabled(c, s', MainStep(Return)))
       <==> delays || AllCanSettle(c, s, ii)
  {
    ScanStatus(c, s, ii);
    if delays || AllCanSettle(c, s, ii) {
      var s' := ScanReturns(c, s, ii, delays);
    } else {
      var t :| ii <= t < s.registered && !CanSettle(c, s, t);
      if s' :| CanReach(c, s, s', NoDelay) && Enabled(c, s', MainStep(Return)) {
        var states, steps :| PathTo(c, s, s', states, steps, NoDelay);
        StrandedScanHangs(c, states, steps, t, |steps|);
      }
    }
  }
}
