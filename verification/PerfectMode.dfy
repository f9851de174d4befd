/** Perfect schedule mode imitates a single processor.

  SCH visits the tasks it has triggered in order of priority, and a visit lets the task through as many
  receipts as the task had triggers. Tasks may receive from any number of call sites.
 */
module PerfectMode {
  import opened TaskIpc
  import opened Handshake
  import Lockstep
  import TaskDiscipline
  import SingleSite
  import Tracking

  predicate Completing(task: Task) { task.ipc.state == TASK_COMPLETE }

  /** Acknowledged, and held back until SCH releases it. */
  predicate Waiting(task: Task) { task.pc == InAck && task.ipc.state == MSG_RCV }

  function One(b: bool): nat { if b then 1 else 0 }

  /** Between the release of a triggered message and its completion: a receipt other than the one that
      waits for its release is open. */
  predicate Released(task: Task) { |task.ipc.stacks| > One(Waiting(task)) }

  /** Receipts released and not yet counted by SCH as completed. */
  function Running(task: Task): int { |task.ipc.stacks| - One(Waiting(task)) + One(Completing(task)) }

  /** What is left to count for a task: the completion it reports, its triggers, and the triggers it has
      used up on polls of other call sites, which SCH will never count. */
  function Outstanding(task: Task): nat { One(Completing(task)) + |task.ipc.triggered| + task.foreign }

  // ---- One visit ----

  /** The books of a visit balance. */
  predicate VisitBalances(sch: SchPc, task: Task)
    requires sch.Visiting?
  {
    && sch.numTriggers == sch.numCompletes + Running(task)
    && sch.numCompletes + Outstanding(task) == sch.reqTriggers
    && (task.foreign == 0 ==>
          sch.woken <= 1 && (sch.woken == 1 && sch.numCompletes < sch.reqTriggers ==> task.ipc.state != TASK_DELAY))
  }

  /** What a task that is not visited looks like. */
  predicate Quiet(task: Task) { Running(task) == 0 && task.foreign == 0 }

  /** What the other invariants say of a single task. */
  ghost predicate Fits(c: Config, task: Task) {
    && c.perfect && TaskDiscipline.StateFits(c, task)
    && |task.ipc.stacks| == |task.ipc.acknowledged| + task.foreign
    && |task.ipc.acknowledged| <= |task.ipc.triggered|
    && (task.ipc.acknowledged != [] ==>
          task.ipc.acknowledged[|task.ipc.acknowledged| - 1] in task.ipc.triggered)
  }

  lemma {:induction false} IdleAct(c: Config, t: nat, task: Task, queues: seq<seq<Mid>>, act: TaskAct)
    requires TaskEnabled(c, t, task, queues, act) && Fits(c, task) && !act.EnterReceive?
    ensures var task' := Act(c, t, task, queues, act);
            && Running(task') == Running(task) && Outstanding(task') == Outstanding(task)
            && task'.foreign == task.foreign
            && (task'.ipc.state == TASK_DELAY ==> task.ipc.state == TASK_DELAY || task.ipc.triggered == [])
  {
  }

  lemma {:induction false} EnterReceiveAct(c: Config, task: Task, pipe: Pipe, site: Site)
    requires Fits(c, task) && CompleteDefined(task.ipc) && task.pc == Working
    ensures var task' := Complete(c, task, pipe, site);
            && Running(task') == Running(task) && Outstanding(task') == Outstanding(task)
            && task'.foreign >= task.foreign && (Running(task) == 0 ==> task'.foreign == task.foreign)
            && task'.ipc.state != TASK_DELAY
  {
    if task.ipc.stacks != [] {
      Tracking.CompleteTakes(c, task, pipe, site);
    }
  }

  /** Nothing a task does by itself changes how many of its receipts are running, or what is left to count
      for it; it goes to sleep only with no triggers left; and only a task with a receipt running can
      waste a trigger on another call site. */
  lemma {:induction false} ActBalances(c: Config, t: nat, task: Task, queues: seq<seq<Mid>>, act: TaskAct)
    requires TaskEnabled(c, t, task, queues, act) && Fits(c, task)
    ensures var task' := Act(c, t, task, queues, act);
            && Running(task') == Running(task) && Outstanding(task') == Outstanding(task)
            && task'.foreign >= task.foreign && (Running(task) == 0 ==> task'.foreign == task.foreign)
            && (task'.ipc.state == TASK_DELAY ==> task.ipc.state == TASK_DELAY || task.ipc.triggered == [])
  {
    if act.EnterReceive? {
      EnterReceiveAct(c, task, act.pipe, act.site);
    } else {
      IdleAct(c, t, task, queues, act);
    }
  }

  /** So the books of its visit stay balanced. */
  lemma {:induction false} ActKeepsBooks(c: Config, t: nat, task: Task, queues: seq<seq<Mid>>, act: TaskAct, sch: SchPc)
    requires TaskEnabled(c, t, task, queues, act) && Fits(c, task) && sch.Visiting? && VisitBalances(sch, task)
    ensures VisitBalances(sch, Act(c, t, task, queues, act))
  {
    ActBalances(c, t, task, queues, act);
    if act.Delay? {
      assert !Completing(task);
    }
  }

  lemma {:induction false} PollBalances(c: Config, sch: SchPc, task: Task)
    requires Fits(c, task) && sch.Visiting? && VisitBalances(sch, task)
    requires sch.numCompletes != sch.reqTriggers
    ensures var (ipc, effect) := PollSection(task.ipc, sch.numTriggers, sch.reqTriggers);
            VisitBalances(Counted(sch, effect), task.(ipc := ipc))
  {
  }

  /** A visit that SCH may leave has nothing left over. */
  lemma {:induction false} LeavesNothing(c: Config, sch: SchPc, task: Task)
    requires Fits(c, task) && sch.Visiting? && VisitBalances(sch, task) && sch.numCompletes == sch.reqTriggers
    ensures Quiet(task) && task.ipc.triggered == [] && task.ipc.stacks == []
  {
  }

  // ---- The multimap ----

  ghost predicate MapOk(c: Config, m: seq<MapEntry>) {
    && (forall i :: 0 <= i < |m| ==> m[i].task < |c.priority| && m[i].priority == c.priority[m[i].task])
    && Sorted(m)
  }

  ghost predicate Listed(m: seq<MapEntry>, from: nat, t: nat) {
    exists j :: from <= j < |m| && m[j].task == t
  }

  function Keep(e: MapEntry, p: nat): seq<MapEntry> { if e.priority == p then [e] else [] }

  /** The entries of one priority. */
  function WithPriority(m: seq<MapEntry>, p: nat): seq<MapEntry> {
    if m == [] then [] else WithPriority(m[..|m| - 1], p) + Keep(m[|m| - 1], p)
  }

  ghost predicate Sorted(m: seq<MapEntry>) {
    forall i, j :: 0 <= i < j < |m| ==> m[i].priority <= m[j].priority
  }

  lemma {:induction false} InsertIndex(m: seq<MapEntry>, e: MapEntry, j: nat)
    requires j <= |m|
    ensures var at := InsertAt(m, e.priority);
            |Insert(m, e)| == |m| + 1
            && Insert(m, e)[j] == if j < at then m[j] else if j == at then e else m[j - 1]
  {
  }

  lemma {:induction false} InsertSorted(m: seq<MapEntry>, e: MapEntry)
    requires Sorted(m)
    ensures Sorted(Insert(m, e))
  {
    var at := InsertAt(m, e.priority);
    forall i: nat, j: nat | i < j <= |m| ensures Insert(m, e)[i].priority <= Insert(m, e)[j].priority {
      InsertIndex(m, e, i);
      InsertIndex(m, e, j);
      if i < at <= j {
        assert m[i].priority <= m[at - 1].priority;
      }
    }
    InsertIndex(m, e, 0);
  }

  /** Inserting adds the new entry and keeps every other. */
  lemma {:induction false} InsertLists(m: seq<MapEntry>, e: MapEntry, u: nat)
    ensures Listed(Insert(m, e), 0, u) <==> Listed(m, 0, u) || u == e.task
  {
    var at := InsertAt(m, e.priority);
    var m' := Insert(m, e);
    assert m'[at] == e;
    if j :| 0 <= j < |m| && m[j].task == u {
      assert m'[if j < at then j else j + 1] == m[j];
    }
    if j :| 0 <= j < |m'| && j != at && m'[j].task == u {
      assert m[if j < at then j else j - 1] == m'[j];
    }
  }

  lemma {:induction false} InsertKeeps(c: Config, m: seq<MapEntry>, t: nat)
    requires MapOk(c, m) && t < |c.priority|
    ensures MapOk(c, Insert(m, MapEntry(c.priority[t], t)))
  {
    var e := MapEntry(c.priority[t], t);
    InsertSorted(m, e);
    forall x | x in Insert(m, e) ensures x == e || x in m {}
  }

  lemma {:induction false} WithPriorityPush(m: seq<MapEntry>, e: MapEntry, p: nat)
    ensures WithPriority(m + [e], p) == WithPriority(m, p) + Keep(e, p)
  {
    assert (m + [e])[..|m|] == m;
  }

  lemma {:induction false} InsertBeforeLast(m: seq<MapEntry>, e: MapEntry)
    requires m != [] && m[|m| - 1].priority > e.priority
    ensures Insert(m, e) == Insert(m[..|m| - 1], e) + [m[|m| - 1]]
  {
  }

  lemma {:induction false} InsertAtEnd(m: seq<MapEntry>, e: MapEntry, p: nat)
    requires m == [] || m[|m| - 1].priority <= e.priority
    ensures WithPriority(Insert(m, e), p) == WithPriority(m, p) + Keep(e, p)
  {
    assert Insert(m, e) == m + [e];
    WithPriorityPush(m, e, p);
  }

  lemma {:induction false} WithPriorityInsert(m: seq<MapEntry>, e: MapEntry, p: nat)
    requires m != [] && m[|m| - 1].priority > e.priority
    ensures WithPriority(Insert(m, e), p) == WithPriority(Insert(m[..|m| - 1], e), p) + Keep(m[|m| - 1], p)
  {
    InsertBeforeLast(m, e);
    WithPriorityPush(Insert(m[..|m| - 1], e), m[|m| - 1], p);
  }

  /** Entries of different priorities are never both kept. */
  lemma {:induction false} KeepCommutes(front: seq<MapEntry>, a: MapEntry, b: MapEntry, p: nat)
    requires a.priority != b.priority
    ensures front + Keep(a, p) + Keep(b, p) == front + Keep(b, p) + Keep(a, p)
  {
  }

  /** Ties keep their order of insertion: among the entries of any one priority, the new one comes last. */
  lemma {:induction false} InsertIsStable(m: seq<MapEntry>, e: MapEntry, p: nat)
    ensures WithPriority(Insert(m, e), p) == WithPriority(m, p) + Keep(e, p)
  {
    if m == [] || m[|m| - 1].priority <= e.priority {
      InsertAtEnd(m, e, p);
    } else {
      WithPriorityInsert(m, e, p);
      InsertIsStable(m[..|m| - 1], e, p);
      KeepCommutes(WithPriority(m[..|m| - 1], p), e, m[|m| - 1], p);
    }
  }

  // ---- The invariant ----

  /** From where on the map lists the tasks that still have triggers. */
  function From(s: Sys): nat {
    match s.sch
    case Visit(at) => at
    case Visiting(at, _, _, _, _) => at
    case _ => 0
  }

  ghost predicate VisitInv(s: Sys) {
    && (s.sch.Visiting? ==>
          s.sch.at < |s.perfectFDMap| && s.perfectFDMap[s.sch.at].task < |s.tasks|
          && VisitBalances(s.sch, s.tasks[s.perfectFDMap[s.sch.at].task]))
    && forall u :: 0 <= u < |s.tasks| && !Quiet(s.tasks[u]) ==>
         s.sch.Visiting? && u == s.perfectFDMap[s.sch.at].task
  }

  ghost predicate MapInv(c: Config, s: Sys) {
    && MapOk(c, s.perfectFDMap)
    && (s.sch.Signal? || s.sch.AwaitTrigger? ==> s.perfectFDMap == [])
    && (s.sch.Visit? ==> s.sch.at <= |s.perfectFDMap|)
    && forall u :: 0 <= u < |s.tasks| && s.tasks[u].ipc.triggered != [] ==> Listed(s.perfectFDMap, From(s), u)
  }

  ghost predicate SameByPriority(m: seq<MapEntry>, marks: seq<MapEntry>) {
    forall p :: WithPriority(m, p) == WithPriority(marks, p)
  }

  lemma {:induction false} SameByPriorityKeeps(c: Config, s: Sys, step: Step)
    requires c.perfect && Enabled(c, s, step) && SameByPriority(s.perfectFDMap, s.marks)
    ensures var s' := Apply(c, s, step); SameByPriority(s'.perfectFDMap, s'.marks)
  {
    var s' := Apply(c, s, step);
    if !step.SchStep? {
      assert s'.perfectFDMap == s.perfectFDMap && s'.marks == s.marks;
    } else if step.sch.Mark? {
      var t := c.owner[s.sch.dests[s.sch.next]];
      var e := MapEntry(c.priority[t], t);
      forall p ensures WithPriority(s'.perfectFDMap, p) == WithPriority(s'.marks, p) {
        InsertIsStable(s.perfectFDMap, e, p);
        WithPriorityPush(s.marks, e, p);
      }
    } else {
      assert (s'.perfectFDMap == s.perfectFDMap && s'.marks == s.marks) || s'.perfectFDMap == s'.marks == [];
    }
  }

  /** The entries released so far come in map order. */
  ghost predicate ReleaseInv(c: Config, s: Sys) {
    var bound := if s.sch.Visit? then s.sch.at else if s.sch.Visiting? then s.sch.at + 1 else |s.frameMap|;
    && MapOk(c, s.frameMap)
    && (s.sch.Visit? || s.sch.Visiting? ==> s.frameMap == s.perfectFDMap)
    && (forall k :: 0 <= k < |s.releases| ==> s.releases[k] < bound)
    && (forall k, l :: 0 <= k < l < |s.releases| ==> s.releases[k] <= s.releases[l])
  }

  /** What the other modules prove of every reachable state. */
  ghost predicate Base(c: Config, s: Sys) {
    c.perfect && Shaped(c, s) && Lockstep.Inv(s) && TaskDiscipline.Inv(c, s) && Tracking.Inv(c, s)
  }

  ghost predicate Inv(c: Config, s: Sys) { VisitInv(s) && MapInv(c, s) && ReleaseInv(c, s) }

  lemma {:induction false} BaseFits(c: Config, s: Sys, u: nat)
    requires Base(c, s) && u < |s.tasks|
    ensures Fits(c, s.tasks[u])
  {
    assert TaskDiscipline.TaskInv(c, u, s.tasks[u]) && Tracking.Kept(c, s.tasks[u]);
    Tracking.AcknowledgedFitTriggered(c, s, u);
    if s.tasks[u].ipc.acknowledged != [] {
      Tracking.LatestIsTriggered(c, s, u);
    }
  }

  /** The visit goes on at the same entry, or none is going on. */
  predicate SameVisit(a: SchPc, b: SchPc) { a == b || (a.Visiting? && b.Visiting? && a.at == b.at) }

  /** Of the tasks only `t` changes. */
  ghost predicate OnlyTask(s: Sys, s': Sys, t: nat) {
    && |s'.tasks| == |s.tasks| && t < |s.tasks| && s'.tasks == s.tasks[t := s'.tasks[t]]
    && SameVisit(s.sch, s'.sch) && s'.perfectFDMap == s.perfectFDMap
  }

  lemma {:induction false} OneTaskVisit(s: Sys, s': Sys, t: nat)
    requires VisitInv(s) && OnlyTask(s, s', t)
    requires Quiet(s.tasks[t]) && !s.sch.Visiting? ==> Quiet(s'.tasks[t])
    requires s.sch.Visiting? ==>
               if s.perfectFDMap[s.sch.at].task == t then VisitBalances(s'.sch, s'.tasks[t])
               else s'.sch == s.sch && (Quiet(s.tasks[t]) ==> Quiet(s'.tasks[t]))
    ensures VisitInv(s')
  {
  }

  lemma {:induction false} OneTaskMap(c: Config, s: Sys, s': Sys, t: nat)
    requires MapInv(c, s) && OnlyTask(s, s', t)
    requires |s'.tasks[t].ipc.triggered| <= |s.tasks[t].ipc.triggered|
    ensures MapInv(c, s')
  {
    assert From(s') == From(s);
  }

  lemma {:induction false} TaskStepKeeps(c: Config, s: Sys, t: nat, act: TaskAct)
    requires Base(c, s) && Inv(c, s) && Enabled(c, s, TaskStep(t, act))
    ensures Inv(c, Apply(c, s, TaskStep(t, act)))
  {
    var s' := Apply(c, s, TaskStep(t, act));
    BaseFits(c, s, t);
    ActBalances(c, t, s.tasks[t], s.queues, act);
    Tracking.ActTriggers(c, t, s.tasks[t], s.queues, act);
    if s.sch.Visiting? && s.perfectFDMap[s.sch.at].task == t {
      ActKeepsBooks(c, t, s.tasks[t], s.queues, act, s.sch);
    }
    OneTaskVisit(s, s', t);
    OneTaskMap(c, s, s', t);
  }

  lemma {:induction false} MarkKeeps(c: Config, s: Sys)
    requires Base(c, s) && Inv(c, s) && Enabled(c, s, SchStep(Mark))
    ensures Inv(c, SchApply(c, s, Mark))
  {
    var t := c.owner[s.sch.dests[s.sch.next]];
    var e := MapEntry(c.priority[t], t);
    InsertKeeps(c, s.perfectFDMap, t);
    forall u: nat {
      InsertLists(s.perfectFDMap, e, u);
    }
  }

  lemma {:induction false} PollReleases(c: Config, s: Sys)
    requires ReleaseInv(c, s) && Enabled(c, s, SchStep(Poll))
    ensures ReleaseInv(c, SchApply(c, s, Poll))
  {
  }

  lemma {:induction false} PollKeeps(c: Config, s: Sys)
    requires Base(c, s) && Inv(c, s) && Enabled(c, s, SchStep(Poll))
    ensures Inv(c, SchApply(c, s, Poll))
  {
    var v, s' := s.perfectFDMap[s.sch.at].task, SchApply(c, s, Poll);
    BaseFits(c, s, v);
    PollBalances(c, s.sch, s.tasks[v]);
    PollReleases(c, s);
    OneTaskVisit(s, s', v);
    OneTaskMap(c, s, s', v);
  }

  lemma {:induction false} LeaveVisitKeeps(c: Config, s: Sys)
    requires Base(c, s) && Inv(c, s) && Enabled(c, s, SchStep(LeaveVisit))
    ensures Inv(c, SchApply(c, s, LeaveVisit))
  {
    var s' := SchApply(c, s, LeaveVisit);
    var m, at := s.perfectFDMap, s.sch.at;
    var v := m[at].task;
    BaseFits(c, s, v);
    LeavesNothing(c, s.sch, s.tasks[v]);
    forall u | 0 <= u < |s.tasks| && s.tasks[u].ipc.triggered != [] ensures Listed(m, at + 1, u) {
      var j :| at <= j < |m| && m[j].task == u;
      assert j != at;
    }
  }

  lemma {:induction false} SendingKeeps(c: Config, s: Sys, act: SchAct)
    requires Base(c, s) && Inv(c, s) && Enabled(c, s, SchStep(act))
    requires act.Send? || act.AllMarked? || act.Deliver? || act.Sent?
    ensures Inv(c, SchApply(c, s, act))
  {
    var s' := SchApply(c, s, act);
    assert s'.tasks == s.tasks && s'.perfectFDMap == s.perfectFDMap && From(s') == From(s);
  }

  lemma {:induction false} VisitsKeep(c: Config, s: Sys, act: SchAct)
    requires Base(c, s) && Inv(c, s) && Enabled(c, s, SchStep(act))
    requires act.EndTable? || act.EndVisits? || act.WriteDone? || act.ReadTrigger?
    ensures Inv(c, SchApply(c, s, act))
  {
    assert SchApply(c, s, act).tasks == s.tasks;
  }

  lemma {:induction false} StartVisitKeeps(c: Config, s: Sys)
    requires Base(c, s) && Inv(c, s) && Enabled(c, s, SchStep(StartVisit))
    ensures Inv(c, SchApply(c, s, StartVisit))
  {
    assert SchApply(c, s, StartVisit).tasks == s.tasks;
    assert Quiet(s.tasks[s.perfectFDMap[s.sch.at].task]);
  }

  lemma {:induction false} UpdateOneKeeps(c: Config, s: Sys)
    requires Base(c, s) && Inv(c, s) && Enabled(c, s, MainStep(UpdateOne))
    ensures Inv(c, MainApply(c, s, UpdateOne))
  {
    var s' := MainApply(c, s, UpdateOne);
    BaseFits(c, s, s.main.ii);
    assert s.sch == AwaitTrigger == s'.sch;
    assert Quiet(s'.tasks[s.main.ii]) == Quiet(s.tasks[s.main.ii]);
  }

  lemma {:induction false} MainStepKeeps(c: Config, s: Sys, act: MainAct)
    requires Base(c, s) && Inv(c, s) && Enabled(c, s, MainStep(act)) && !act.UpdateOne?
    ensures Inv(c, MainApply(c, s, act))
  {
    var s' := MainApply(c, s, act);
    assert s'.tasks == s.tasks && s'.sch == s.sch && s'.perfectFDMap == s.perfectFDMap;
  }

  lemma {:induction false} SchStepKeeps(c: Config, s: Sys, act: SchAct)
    requires Base(c, s) && Inv(c, s) && Enabled(c, s, SchStep(act))
    ensures Inv(c, SchApply(c, s, act))
  {
    match act {
      case Mark => MarkKeeps(c, s);
      case Poll => PollKeeps(c, s);
      case LeaveVisit => LeaveVisitKeeps(c, s);
      case StartVisit => StartVisitKeeps(c, s);
      case _ =>
        if act.Send? || act.AllMarked? || act.Deliver? || act.Sent? {
          SendingKeeps(c, s, act);
        } else {
          VisitsKeep(c, s, act);
        }
    }
  }

  lemma {:induction false} Keeps(c: Config, s: Sys, step: Step)
    requires Base(c, s) && Inv(c, s) && Enabled(c, s, step)
    ensures Inv(c, Apply(c, s, step))
  {
    match step {
      case TaskStep(t, act) => TaskStepKeeps(c, s, t, act);
      case SchStep(act) => SchStepKeeps(c, s, act);
      case MainStep(act) => if act.UpdateOne? { UpdateOneKeeps(c, s); } else { MainStepKeeps(c, s, act); }
      case _ =>
    }
  }

  lemma {:induction false} Always(c: Config, run: seq<Step>, s: Sys)
    requires Reaches(c, run, s) && c.perfect
    ensures Base(c, s) && Inv(c, s) && SameByPriority(s.perfectFDMap, s.marks)
    decreases |run|
  {
    Lockstep.Always(c, run, s);
    TaskDiscipline.Always(c, run, s);
    Tracking.Always(c, run, s);
    if run != [] {
      var n := |run| - 1;
      var r :| Reaches(c, run[..n], r) && Enabled(c, r, run[n]) && s == Apply(c, r, run[n]);
      Always(c, run[..n], r);
      Keeps(c, r, run[n]);
      SameByPriorityKeeps(c, r, run[n]);
    }
  }

  // ---- What follows for every reachable state ----

  /** The accounting of a visit: completions counted, the one being reported, ids still triggered and
      triggers spent on polls of other call sites make up `reqTriggers`; and the guard
      `numTriggers != reqTriggers` never holds back a task that waits for its release. */
  lemma {:induction false} VisitAccounting(c: Config, s: Sys)
    requires Reachable(c, s) && c.perfect && s.sch.Visiting?
    ensures s.sch.at < |s.perfectFDMap| && s.perfectFDMap[s.sch.at].task < |s.tasks|
    ensures var task := s.tasks[s.perfectFDMap[s.sch.at].task];
            var ipc := task.ipc;
            && s.sch.numCompletes + (if ipc.state == TASK_COMPLETE then 1 else 0) + |ipc.triggered| + task.foreign
               == s.sch.reqTriggers
            && s.sch.numCompletes <= s.sch.numTriggers <= s.sch.reqTriggers
            && (ipc.state == MSG_RCV ==>
                  PollSection(ipc, s.sch.numTriggers, s.sch.reqTriggers).1 == ReleasedReceipt)
  {
    var run :| Reaches(c, run, s);
    Always(c, run, s);
    var task := s.tasks[s.perfectFDMap[s.sch.at].task];
    BaseFits(c, s, s.perfectFDMap[s.sch.at].task);
    assert Running(task) >= 0;
  }

  /** A visit ends after exactly `reqTriggers` releases and as many completions, with nothing left
      triggered, no receipt open and no trigger spent on another call site. Every turn of the polling loop
      that changes anything moves a counter. As long as the task has polled no other call site, and so
      always for a task with one call site, a sleeping task is woken at most once, and there are at most
      `2 * reqTriggers + 1` such turns. */
  lemma {:induction false} VisitBound(c: Config, s: Sys)
    requires Reachable(c, s) && c.perfect && s.sch.Visiting?
    ensures s.sch.at < |s.perfectFDMap| && s.perfectFDMap[s.sch.at].task < |s.tasks|
    ensures s.sch.numTriggers <= s.sch.reqTriggers && s.sch.numCompletes <= s.sch.reqTriggers
    ensures var task := s.tasks[s.perfectFDMap[s.sch.at].task];
            && (task.foreign == 0 ==> s.sch.woken <= 1)
            && (c.OneSite(s.perfectFDMap[s.sch.at].task) ==> task.foreign == 0)
            && (Enabled(c, s, SchStep(LeaveVisit)) ==>
                  && s.sch.numTriggers == s.sch.numCompletes == s.sch.reqTriggers
                  && task.ipc.triggered == [] && task.ipc.stacks == [] && task.foreign == 0)
    ensures Enabled(c, s, SchStep(Poll)) ==>
              var s' := Apply(c, s, SchStep(Poll));
              s' == s || (s'.sch.Visiting?
                && s'.sch.numTriggers + s'.sch.numCompletes + s'.sch.woken
                   == s.sch.numTriggers + s.sch.numCompletes + s.sch.woken + 1)
  {
    var run :| Reaches(c, run, s);
    Always(c, run, s);
    var t := s.perfectFDMap[s.sch.at].task;
    BaseFits(c, s, t);
    VisitAccounting(c, s);
    if c.OneSite(t) {
      SingleSite.BackReadDefined(c, s, t);
    }
    if Enabled(c, s, SchStep(LeaveVisit)) {
      LeavesNothing(c, s.sch, s.tasks[t]);
    }
    if Enabled(c, s, SchStep(Poll)) {
      PollCounts(c, s);
    }
  }

  /** A turn of the polling loop changes nothing or moves one counter by one. */
  lemma {:induction false} PollCounts(c: Config, s: Sys)
    requires Enabled(c, s, SchStep(Poll))
    ensures var s' := Apply(c, s, SchStep(Poll));
            s' == s || (s'.sch.Visiting?
              && s'.sch.numTriggers + s'.sch.numCompletes + s'.sch.woken
                 == s.sch.numTriggers + s.sch.numCompletes + s.sch.woken + 1)
  {
    var t := s.perfectFDMap[s.sch.at].task;
    assert s.tasks[t := s.tasks[t]] == s.tasks;
  }

  // ---- What a visit leaves alone ----

  lemma {:induction false} SchStays(c: Config, s: Sys, step: Step)
    requires Enabled(c, s, step) && s.sch.Visiting? && step != SchStep(LeaveVisit)
    ensures var s' := Apply(c, s, step);
            s'.sch.Visiting? && s'.sch.at == s.sch.at && s'.perfectFDMap == s.perfectFDMap
  {
  }

  lemma {:induction false} ForeignGrows(c: Config, s: Sys, step: Step, t: nat)
    requires Enabled(c, s, step) && t < |s.tasks|
    ensures Touched(c, s, step, t).foreign >= s.tasks[t].foreign
  {
  }

  // ---- Frames ----

  /** At most one task is between a release and its completion, and it is the one SCH is visiting. */
  lemma {:induction false} OneAtATime(c: Config, s: Sys, t: nat, u: nat)
    requires Reachable(c, s) && c.perfect
    requires t < |s.tasks| && u < |s.tasks| && Released(s.tasks[t])
    ensures s.sch.Visiting? && s.sch.at < |s.perfectFDMap| && s.perfectFDMap[s.sch.at].task == t
    ensures Released(s.tasks[u]) ==> u == t
  {
    var run :| Reaches(c, run, s);
    Always(c, run, s);
    BaseFits(c, s, t);
    BaseFits(c, s, u);
    assert !Quiet(s.tasks[t]) && (Released(s.tasks[u]) ==> !Quiet(s.tasks[u]));
  }

  /** The releases of a frame come in the order of that frame's map: by priority number, and entry by
      entry in order of insertion where those tie. */
  lemma {:induction false} ReleasesInOrder(c: Config, s: Sys, k: nat, l: nat)
    requires Reachable(c, s) && c.perfect
    requires k < l < |s.releases|
    ensures s.releases[k] <= s.releases[l] < |s.frameMap|
    ensures s.frameMap[s.releases[k]].priority <= s.frameMap[s.releases[l]].priority
    ensures var e := s.frameMap[s.releases[k]]; e.task < |c.priority| && e.priority == c.priority[e.task]
  {
    var run :| Reaches(c, run, s);
    Always(c, run, s);
  }

  /** That map holds this frame's marks and nothing else, sorted by priority number, those of one priority
      in the order in which SCH marked them. */
  lemma {:induction false} MapIsSortedMarks(c: Config, s: Sys, p: nat)
    requires Reachable(c, s) && c.perfect
    ensures Sorted(s.perfectFDMap) && WithPriority(s.perfectFDMap, p) == WithPriority(s.marks, p)
    ensures s.sch.Visit? || s.sch.Visiting? ==> s.frameMap == s.perfectFDMap
  {
    var run :| Reaches(c, run, s);
    Always(c, run, s);
  }

  /** When SCH reports a frame as complete, the map and all trigger lists are empty, and each task has
      completed exactly the ids marked for it, however often and from however many entries. */
  lemma {:induction false} FrameConservation(c: Config, s: Sys)
    requires Reachable(c, s) && c.perfect
    requires s.sch == Signal || s.sch == AwaitTrigger
    ensures s.perfectFDMap == []
    ensures forall t :: 0 <= t < |s.tasks| ==>
              s.tasks[t].ipc.triggered == [] && s.tasks[t].completed == s.tasks[t].marked
  {
    var run :| Reaches(c, run, s);
    Always(c, run, s);
    forall t | 0 <= t < |s.tasks|
      ensures s.tasks[t].ipc.triggered == [] && s.tasks[t].completed == s.tasks[t].marked
    {
      Tracking.TriggersConserved(c, s, t);
    }
  }
}
