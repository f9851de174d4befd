/** Tasks that have not polled another call site than that of an open receipt, in either mode: they hold at
    most one receipt, and the list of acknowledged ids is never read while it is empty. A task that receives
    from one call site only is always of this kind, whatever the others do. */
module SingleSite {
  import opened TaskIpc
  import opened Handshake
  import TaskDiscipline

  ghost predicate OneReceipt(c: Config, task: Task) {
    && |task.ipc.stacks| == |task.ipc.acknowledged| <= 1
    && (task.ipc.stacks != [] ==> task.ipc.acknowledged[0] in task.ipc.triggered)
    && (task.pc.Fetching? || task.pc.Fetched? || task.pc.InComplete? ==> task.ipc.stacks == [])
    && (c.perfect && task.pc.InDelay? ==> task.ipc.stacks == [])
    && (c.perfect && task.pc.InAck? ==> task.ipc.stacks != [])
  }

  /** What a task keeps on its own. */
  ghost predicate Orderly(c: Config, t: nat, task: Task) {
    (task.foreign == 0 ==> OneReceipt(c, task)) && (c.OneSite(t) ==> task.foreign == 0)
  }

  ghost predicate TaskInv(c: Config, t: nat, task: Task) {
    TaskDiscipline.TaskInv(c, t, task) && Orderly(c, t, task)
  }

  ghost predicate Inv(c: Config, s: Sys) {
    Shaped(c, s) && forall t :: 0 <= t < |s.tasks| ==> Orderly(c, t, s.tasks[t])
  }

  /** With one call site the only receipt is the one that a receive closes. */
  lemma {:induction false} OwnReceiptMatches(c: Config, t: nat, task: Task, site: Site)
    requires TaskInv(c, t, task) && c.OneSite(t) && site in c.sites[t] && task.ipc.stacks != []
    ensures FindMatch(task.ipc.stacks, CompleteTrace(site)) == 0
  {
    var r := task.ipc.stacks[0];
    assert r in task.ipc.stacks;
    var origin :| origin in c.sites[t] && r == AckTrace(origin);
    MatchIsSameCaller(COMPLETE_FRAMES, site, ACK_FRAMES, origin);
  }

  lemma {:induction false} ActKeeps(c: Config, t: nat, task: Task, queues: seq<seq<Mid>>, act: TaskAct)
    requires TaskInv(c, t, task) && TaskEnabled(c, t, task, queues, act)
    ensures Orderly(c, t, Act(c, t, task, queues, act))
  {
    if act.EnterReceive? {
      CompleteKeeps(c, t, task, act.pipe, act.site);
    } else if task.foreign == 0 {
      OtherActKeeps(c, t, task, queues, act);
    }
  }

  lemma {:induction false} CompleteKeeps(c: Config, t: nat, task: Task, pipe: Pipe, site: Site)
    requires TaskInv(c, t, task) && site in c.sites[t] && CompleteDefined(task.ipc)
    ensures Orderly(c, t, Complete(c, task, pipe, site))
  {
    if task.ipc.stacks != [] && c.OneSite(t) {
      OwnReceiptMatches(c, t, task, site);
    }
  }

  lemma {:induction false} OtherActKeeps(c: Config, t: nat, task: Task, queues: seq<seq<Mid>>, act: TaskAct)
    requires TaskDiscipline.StateFits(c, task) && OneReceipt(c, task)
    requires TaskEnabled(c, t, task, queues, act) && !act.EnterReceive?
    ensures OneReceipt(c, Act(c, t, task, queues, act))
  {
  }

  lemma {:induction false} TouchedKeeps(c: Config, s: Sys, step: Step, u: nat)
    requires Enabled(c, s, step) && u < |s.tasks| && TaskInv(c, u, s.tasks[u])
    ensures Orderly(c, u, Touched(c, s, step, u))
  {
    if step.TaskStep? && step.t == u {
      ActKeeps(c, u, s.tasks[u], s.queues, step.act);
    }
  }

  lemma {:induction false} Always(c: Config, run: seq<Step>, s: Sys)
    requires Reaches(c, run, s)
    ensures Inv(c, s)
    decreases |run|
  {
    if run != [] {
      var n := |run| - 1;
      var r :| Reaches(c, run[..n], r) && Enabled(c, r, run[n]) && s == Apply(c, r, run[n]);
      Always(c, run[..n], r);
      TaskDiscipline.Always(c, run[..n], r);
      forall u | 0 <= u < |s.tasks| ensures Orderly(c, u, s.tasks[u]) {
        TouchedKeeps(c, r, run[n], u);
        assert s.tasks[u] == Touched(c, r, run[n], u);
      }
    }
  }

  /** A task with one call site never reads `acknowledgedMIDs.back()` from an empty list, and neither does
      any task before its first poll of another call site than that of its open receipt. */
  lemma {:induction false} BackReadDefined(c: Config, s: Sys, t: nat)
    requires Reachable(c, s) && t < |s.tasks| && (c.OneSite(t) || s.tasks[t].foreign == 0)
    ensures s.tasks[t].foreign == 0 && CompleteDefined(s.tasks[t].ipc) && |s.tasks[t].ipc.stacks| <= 1
  {
    var run :| Reaches(c, run, s);
    Always(c, run, s);
    assert Orderly(c, t, s.tasks[t]) && OneReceipt(c, s.tasks[t]);
  }
}
