/** What every interleaving keeps of each single task: its state agrees with where its thread is, and
    its open receipts stay apart. */
module TaskDiscipline {
  import opened TaskIpc
  import opened Handshake

  /** The state is one the task is waiting with exactly while it waits. Outside perfect mode a finished
      receipt leaves TASK_COMPLETE behind without waiting. */
  predicate StateFits(c: Config, task: Task) {
    match task.pc
    case InDelay => task.ipc.state in {TASK_DELAY, TASK_CONTINUE}
    case InAck => c.perfect && task.ipc.state in {MSG_RCV, TASK_CONTINUE} && task.ipc.stacks != []
    case InComplete(_, _) => c.perfect && task.ipc.state in {TASK_COMPLETE, TASK_CONTINUE}
    case _ => task.ipc.state in {NONE, TASK_RUNNING} || (!c.perfect && task.ipc.state == TASK_COMPLETE)
  }

  /** The call site of the receive that the task is inside and has not yet acknowledged. */
  function ReceivingAt(pc: TaskPc): set<Site> {
    match pc
    case InComplete(_, site) => {site}
    case Fetching(_, site) => {site}
    case Fetched(_, site) => {site}
    case _ => {}
  }

  /** Open receipts are pairwise apart, each was opened at a call site of the task, and a task inside a
      receive holds none from that receive's site. */
  ghost predicate ReceiptsApart(c: Config, t: nat, task: Task)
    requires t < |c.sites|
  {
    && Distinct(task.ipc.stacks)
    && (forall r :: r in task.ipc.stacks ==> exists site :: site in c.sites[t] && r == AckTrace(site))
    && (forall site :: site in ReceivingAt(task.pc) ==>
          site in c.sites[t] && NoneMatches(task.ipc.stacks, |task.ipc.stacks|, AckTrace(site)))
  }

  ghost predicate TaskInv(c: Config, t: nat, task: Task) {
    && StateFits(c, task)
    && t < |c.sites| && ReceiptsApart(c, t, task)
  }

  ghost predicate Inv(c: Config, s: Sys) {
    && Shaped(c, s)
    && (s.sch.Visit? || s.sch.Visiting? ==> c.perfect)
    && forall t :: 0 <= t < |s.tasks| ==> TaskInv(c, t, s.tasks[t])
  }

  lemma {:induction false} SameSiteSameMatch(site: Site, r: StackInfo)
    ensures Matches(CompleteTrace(site), r) <==> Matches(AckTrace(site), r)
  {
    MatchIsSameCaller(ACK_FRAMES, site, COMPLETE_FRAMES, site);
  }

  /** The receipts left by a receive at `site`: apart, none from `site`, and none that was not there. */
  lemma {:induction false} RestOfReceipts(stacks: seq<StackInfo>, site: Site)
    requires Distinct(stacks)
    ensures var rest := Erase(stacks, FindMatch(stacks, CompleteTrace(site)));
            Distinct(rest) && NoneMatches(rest, |rest|, AckTrace(site)) && forall r :: r in rest ==> r in stacks
  {
    var rest := Erase(stacks, FindMatch(stacks, CompleteTrace(site)));
    CloseReceipt(stacks, CompleteTrace(site));
    forall i | 0 <= i < |rest| ensures !Matches(AckTrace(site), rest[i]) {
      SameSiteSameMatch(site, rest[i]);
    }
  }

  lemma {:induction false} CompleteKeeps(c: Config, t: nat, task: Task, pipe: Pipe, site: Site)
    requires TaskInv(c, t, task) && site in c.sites[t] && CompleteDefined(task.ipc)
    ensures TaskInv(c, t, Complete(c, task, pipe, site))
  {
    RestOfReceipts(task.ipc.stacks, site);
    assert Complete(c, task, pipe, site).ipc.stacks
        == Erase(task.ipc.stacks, FindMatch(task.ipc.stacks, CompleteTrace(site)));
  }

  lemma {:induction false} ActKeeps(c: Config, t: nat, task: Task, queues: seq<seq<Mid>>, act: TaskAct)
    requires TaskInv(c, t, task) && TaskEnabled(c, t, task, queues, act)
    ensures TaskInv(c, t, Act(c, t, task, queues, act))
  {
    match act {
      case EnterReceive(p, site) => CompleteKeeps(c, t, task, p, site);
      case LeaveComplete => assert task.pc.site in ReceivingAt(task.pc);
      case Fetch => assert task.pc.site in ReceivingAt(task.pc);
      case Acknowledge =>
        assert task.pc.site in ReceivingAt(task.pc);
        forall r | r in task.ipc.stacks ensures !Matches(r, AckTrace(task.pc.site)) {
          assert !Matches(AckTrace(task.pc.site), r);
        }
      case _ =>
    }
  }

  lemma {:induction false} TouchedKeeps(c: Config, s: Sys, step: Step, u: nat)
    requires Enabled(c, s, step) && u < |s.tasks| && TaskInv(c, u, s.tasks[u])
    requires s.sch.Visiting? ==> c.perfect
    ensures TaskInv(c, u, Touched(c, s, step, u))
  {
    if step.TaskStep? && step.t == u {
      ActKeeps(c, u, s.tasks[u], s.queues, step.act);
    }
  }

  lemma {:induction false} Keeps(c: Config, s: Sys, step: Step)
    requires Inv(c, s) && Enabled(c, s, step)
    ensures Inv(c, Apply(c, s, step))
  {
    var s' := Apply(c, s, step);
    forall u | 0 <= u < |s.tasks| ensures TaskInv(c, u, s'.tasks[u]) {
      TouchedKeeps(c, s, step, u);
      assert s'.tasks[u] == Touched(c, s, step, u);
    }
  }

  lemma {:induction false} Always(c: Config, run: seq<Step>, s: Sys)
    requires Reaches(c, run, s)
    ensures Inv(c, s)
    decreases |run|
  {
    if run != [] {
      var n := |run| - 1;
      var r :| Reaches(c, run[..n], r) && Enabled(c, r, run[n]) && s == Apply(c, r, run[n]);
      Always(c, run[..n], r);
      Keeps(c, r, run[n]);
    }
  }

  /** In every reachable state no two open receipts of a task come from matching call sites. */
  lemma {:induction false} ReceiptsNeverClash(c: Config, s: Sys, t: nat)
    requires Reachable(c, s) && t < |s.tasks|
    ensures Distinct(s.tasks[t].ipc.stacks)
  {
    var run :| Reaches(c, run, s);
    Always(c, run, s);
  }

  /** `after` is `before` without the receipt of `site`, if it held one. */
  ghost predicate ClosedOwn(before: seq<StackInfo>, after: seq<StackInfo>, site: Site) {
    && NoneMatches(after, |after|, AckTrace(site))
    && (after == before || exists i: nat :: IsOnlyMatch(before, i, site) && after == before[..i] + before[i + 1..])
  }

  ghost predicate IsOnlyMatch(stacks: seq<StackInfo>, i: nat, site: Site) {
    i < |stacks| && forall j :: 0 <= j < |stacks| ==> (Matches(AckTrace(site), stacks[j]) <==> j == i)
  }

  lemma {:induction false} EnterClosesOwn(c: Config, t: nat, task: Task, pipe: Pipe, site: Site)
    requires TaskInv(c, t, task) && CompleteDefined(task.ipc)
    ensures ClosedOwn(task.ipc.stacks, Complete(c, task, pipe, site).ipc.stacks, site)
  {
    var before := task.ipc.stacks;
    var m := FindMatch(before, CompleteTrace(site));
    var after := Erase(before, m);
    RestOfReceipts(before, site);
    assert Complete(c, task, pipe, site).ipc.stacks == after;
    if m < |before| {
      IsOnlyOne(before, m, site);
    }
  }

  lemma {:induction false} IsOnlyOne(stacks: seq<StackInfo>, m: nat, site: Site)
    requires Distinct(stacks) && m < |stacks| && Matches(CompleteTrace(site), stacks[m])
    ensures IsOnlyMatch(stacks, m, site)
  {
    SameSiteSameMatch(site, stacks[m]);
    forall j | 0 <= j < |stacks| && j != m ensures !Matches(AckTrace(site), stacks[j]) {
      assert !Matches(stacks[if j < m then j else m], stacks[if j < m then m else j]);
    }
  }

  /** Entering a receive closes the receipt of its own site, if there is one, and no other. */
  lemma {:induction false} EnteringClosesOneReceipt(c: Config, s: Sys, t: nat, pipe: Pipe, site: Site)
    requires Reachable(c, s) && Enabled(c, s, TaskStep(t, EnterReceive(pipe, site)))
    ensures var s' := Apply(c, s, TaskStep(t, EnterReceive(pipe, site)));
            ClosedOwn(s.tasks[t].ipc.stacks, s'.tasks[t].ipc.stacks, site)
  {
    var run :| Reaches(c, run, s);
    Always(c, run, s);
    EnterClosesOwn(c, t, s.tasks[t], pipe, site);
  }

  /** Acknowledging opens at most one receipt, at a site that has none. */
  lemma {:induction false} AcknowledgingOpensOneReceipt(c: Config, s: Sys, t: nat)
    requires Reachable(c, s) && Enabled(c, s, TaskStep(t, Acknowledge))
    ensures var before, after := s.tasks[t].ipc.stacks, Apply(c, s, TaskStep(t, Acknowledge)).tasks[t].ipc.stacks;
            var trace := AckTrace(s.tasks[t].pc.site);
            && NoneMatches(before, |before|, trace)
            && after == if s.tasks[t].pc.mid in s.tasks[t].ipc.triggered then before + [trace] else before
  {
    var run :| Reaches(c, run, s);
    Always(c, run, s);
    assert TaskInv(c, t, s.tasks[t]);
    assert s.tasks[t].pc.site in ReceivingAt(s.tasks[t].pc);
  }

  /** No other step changes any receipt, and no step changes the receipts of another task. */
  lemma {:induction false} OthersLeaveReceipts(c: Config, s: Sys, step: Step, t: nat)
    requires Enabled(c, s, step) && t < |s.tasks|
    requires !(step.TaskStep? && step.t == t && (step.act.EnterReceive? || step.act.Acknowledge?))
    ensures Apply(c, s, step).tasks[t].ipc.stacks == s.tasks[t].ipc.stacks
  {
  }
}
