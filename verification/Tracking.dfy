/** Message ids that SCH has sent are never lost track of.

  SCH marks every destination before it transmits. So, in every interleaving and in both modes, the
  triggered ids of a task are, with multiplicity, what it still has coming (ids about to be transmitted to
  it, in its queues, in its hands, or acknowledged and not completed) and what its full queues have dropped.
 */
module Tracking {
  import opened TaskIpc
  import opened Handshake

  function Count(xs: seq<Mid>, m: Mid): nat { multiset(xs)[m] }

  /** How often `m` is in the first `n` queues that belong to task `t`. */
  function Queued(c: Config, queues: seq<seq<Mid>>, t: nat, m: Mid, n: nat): nat
    requires n <= |queues| == |c.owner|
  {
    if n == 0 then 0
    else Queued(c, queues, t, m, n - 1) + (if c.owner[n - 1] == t then Count(queues[n - 1], m) else 0)
  }

  /** How many of `dests` belong to task `t`. */
  function Copies(c: Config, dests: seq<Pipe>, t: nat): nat {
    if dests == [] then 0
    else Copies(c, dests[1..], t) + (if dests[0] < |c.owner| && c.owner[dests[0]] == t then 1 else 0)
  }

  /** Copies of `m` marked for `t` by the message SCH is sending and not yet transmitted. */
  function Unsent(c: Config, sch: SchPc, t: nat, m: Mid): nat {
    match sch
    case Marking(mid, dests, next) => if mid == m && next <= |dests| then Copies(c, dests[..next], t) else 0
    case Sending(mid, dests, next) => if mid == m && next <= |dests| then Copies(c, dests[next..], t) else 0
    case _ => 0
  }

  function Held(pc: TaskPc, m: Mid): nat { if pc.Fetched? && pc.mid == m then 1 else 0 }

  function Coming(c: Config, s: Sys, t: nat, m: Mid): nat
    requires t < |s.tasks| && |s.queues| == |c.owner|
  {
    Unsent(c, s.sch, t, m) + Queued(c, s.queues, t, m, |s.queues|) + Held(s.tasks[t].pc, m)
      + Count(s.tasks[t].ipc.acknowledged, m)
  }

  ghost predicate Accounted(c: Config, s: Sys, t: nat, m: Mid)
    requires t < |s.tasks| && |s.queues| == |c.owner|
  {
    m in c.schMids ==> Coming(c, s, t, m) + s.refused[Refusal(t, m)] == Count(s.tasks[t].ipc.triggered, m)
  }

  /** What a single task keeps: only SCH's ids in its lists, and nothing marked is dropped or invented. */
  ghost predicate Kept(c: Config, task: Task) {
    && (forall m :: m in task.ipc.triggered ==> m in c.schMids)
    && (forall m :: m in task.ipc.acknowledged ==> m in c.schMids)
    && task.marked == task.completed + multiset(task.ipc.triggered)
    && |task.ipc.stacks| == |task.ipc.acknowledged| + task.foreign
  }

  predicate SendsOwnIds(c: Config, sch: SchPc) {
    sch.Marking? || sch.Sending? ==> sch.mid in c.schMids && sch.next <= |sch.dests|
  }

  /** A task receives from its own queues. */
  predicate OwnPipe(c: Config, t: nat, pc: TaskPc) {
    pc.Fetching? || pc.InComplete? ==> pc.pipe < |c.owner| && c.owner[pc.pipe] == t
  }

  ghost predicate Inv(c: Config, s: Sys) {
    && |s.queues| == |c.owner|
    && SendsOwnIds(c, s.sch)
    && (forall t :: 0 <= t < |s.tasks| ==> Kept(c, s.tasks[t]) && OwnPipe(c, t, s.tasks[t].pc))
    && (forall t, m :: 0 <= t < |s.tasks| ==> Accounted(c, s, t, m))
    && (forall t :: 0 <= t < |s.tasks| && s.tasks[t].ipc.triggered != [] ==> c.Owns(t))
  }

  lemma {:induction false} CopiesAppend(c: Config, dests: seq<Pipe>, p: Pipe, t: nat)
    ensures Copies(c, dests + [p], t) == Copies(c, dests, t) + Copies(c, [p], t)
  {
    if dests != [] {
      assert (dests + [p])[1..] == dests[1..] + [p];
      CopiesAppend(c, dests[1..], p, t);
    }
  }

  /** Replacing one queue changes its owner's share by the difference and leaves other shares alone. */
  lemma {:induction false} QueuedUpdate(c: Config, queues: seq<seq<Mid>>, p: Pipe, q: seq<Mid>, t: nat, m: Mid, n: nat)
    requires n <= |queues| == |c.owner| && p < |queues|
    ensures Queued(c, queues[p := q], t, m, n)
         == Queued(c, queues, t, m, n)
            + (if c.owner[p] == t && p < n then Count(q, m) - Count(queues[p], m) else 0)
  {
    if n > 0 {
      QueuedUpdate(c, queues, p, q, t, m, n - 1);
    }
  }

  lemma {:induction false} CountWithoutLast(xs: seq<Mid>, m: Mid)
    requires xs != []
    ensures Count(xs[..|xs| - 1], m) == Count(xs, m) - (if xs[|xs| - 1] == m then 1 else 0)
  {
    assert xs == xs[..|xs| - 1] + [xs[|xs| - 1]];
  }

  /** With an open receipt and the latest acknowledged id among the triggered ones, completing takes that
      id, once, out of both lists. */
  lemma {:induction false} CompleteTakes(c: Config, task: Task, pipe: Pipe, site: Site)
    requires CompleteDefined(task.ipc) && task.ipc.stacks != []
    requires task.ipc.acknowledged[|task.ipc.acknowledged| - 1] in task.ipc.triggered
    ensures var ipc, task' := task.ipc, Complete(c, task, pipe, site);
            var last := ipc.acknowledged[|ipc.acknowledged| - 1];
            && task'.ipc.acknowledged == ipc.acknowledged[..|ipc.acknowledged| - 1]
            && task'.ipc.triggered == Erase(ipc.triggered, Find(ipc.triggered, last))
            && task'.completed == task.completed + multiset{last}
  {
  }

  /** What a task still has in its hands or acknowledged, beyond its triggered ids. */
  function Excess(task: Task, m: Mid): int {
    Held(task.pc, m) + Count(task.ipc.acknowledged, m) - Count(task.ipc.triggered, m)
  }

  lemma {:induction false} CompleteExcess(c: Config, task: Task, pipe: Pipe, site: Site, m: Mid)
    requires CompleteDefined(task.ipc) && task.pc == Working
    requires task.ipc.stacks != [] ==> task.ipc.acknowledged[|task.ipc.acknowledged| - 1] in task.ipc.triggered
    ensures Excess(Complete(c, task, pipe, site), m) == Excess(task, m)
  {
    if task.ipc.stacks != [] {
      CompleteTakes(c, task, pipe, site);
      CountWithoutLast(task.ipc.acknowledged, m);
    }
  }

  lemma {:induction false} EraseKeepsIds(xs: seq<Mid>, i: nat)
    ensures forall x :: x in Erase(xs, i) ==> x in xs
  {
  }

  lemma {:induction false} CompleteKept(c: Config, task: Task, pipe: Pipe, site: Site)
    requires CompleteDefined(task.ipc) && Kept(c, task)
    requires task.ipc.stacks != [] ==> task.ipc.acknowledged[|task.ipc.acknowledged| - 1] in task.ipc.triggered
    ensures Kept(c, Complete(c, task, pipe, site))
  {
    var task' := Complete(c, task, pipe, site);
    if task.ipc.stacks != [] {
      CompleteTakes(c, task, pipe, site);
      var last := task.ipc.acknowledged[|task.ipc.acknowledged| - 1];
      EraseKeepsIds(task.ipc.triggered, Find(task.ipc.triggered, last));
    }
  }

  /** A task's own actions do not change its excess, except that fetching brings the fetched id. */
  lemma {:induction false} ActExcess(c: Config, t: nat, task: Task, queues: seq<seq<Mid>>, act: TaskAct, m: Mid)
    requires TaskEnabled(c, t, task, queues, act) && m in c.schMids
    requires act.EnterReceive? && task.ipc.stacks != [] ==>
               task.ipc.acknowledged[|task.ipc.acknowledged| - 1] in task.ipc.triggered
    requires act.Acknowledge? && task.pc.mid == m ==> m in task.ipc.triggered
    ensures Excess(Act(c, t, task, queues, act), m)
         == Excess(task, m) + (if act.Fetch? && queues[task.pc.pipe][0] == m then 1 else 0)
  {
    match act {
      case EnterReceive(p, site) => CompleteExcess(c, task, p, site, m);
      case _ =>
    }
  }

  lemma {:induction false} ActKept(c: Config, t: nat, task: Task, queues: seq<seq<Mid>>, act: TaskAct)
    requires TaskEnabled(c, t, task, queues, act) && Kept(c, task)
    requires act.EnterReceive? && task.ipc.stacks != [] ==>
               task.ipc.acknowledged[|task.ipc.acknowledged| - 1] in task.ipc.triggered
    ensures Kept(c, Act(c, t, task, queues, act))
  {
    match act {
      case EnterReceive(p, site) => CompleteKept(c, task, p, site);
      case _ =>
    }
  }

  /** The latest acknowledged id is still triggered. */
  lemma {:induction false} LatestIsTriggered(c: Config, s: Sys, t: nat)
    requires Inv(c, s) && t < |s.tasks| && s.tasks[t].ipc.acknowledged != []
    ensures s.tasks[t].ipc.acknowledged[|s.tasks[t].ipc.acknowledged| - 1] in s.tasks[t].ipc.triggered
  {
    var ipc := s.tasks[t].ipc;
    var last := ipc.acknowledged[|ipc.acknowledged| - 1];
    assert Kept(c, s.tasks[t]) && Accounted(c, s, t, last);
    assert last in multiset(ipc.acknowledged);
    assert last in multiset(ipc.triggered);
  }

  /** One task and the queues change, and what leaves the queues of that task is its new excess. */
  lemma {:induction false} MovedAccounts(c: Config, s: Sys, t: nat, task': Task, queues': seq<seq<Mid>>, moved: nat,
                                             u: nat, m: Mid)
    requires t < |s.tasks| && u < |s.tasks| && |s.queues| == |c.owner| == |queues'|
    requires Accounted(c, s, u, m) && (m in c.schMids ==> Excess(task', m) == Excess(s.tasks[t], m) + moved)
    requires Queued(c, queues', u, m, |queues'|)
          == Queued(c, s.queues, u, m, |s.queues|) - (if u == t then moved else 0)
    ensures Accounted(c, s.(tasks := s.tasks[t := task'], queues := queues'), u, m)
  {
  }

  lemma {:induction false} FetchAccounts(c: Config, s: Sys, t: nat, u: nat, m: Mid)
    requires Enabled(c, s, TaskStep(t, Fetch)) && u < |s.tasks| && Accounted(c, s, u, m)
    requires OwnPipe(c, t, s.tasks[t].pc)
    ensures Accounted(c, Apply(c, s, TaskStep(t, Fetch)), u, m)
  {
    var p := s.tasks[t].pc.pipe;
    var task' := Act(c, t, s.tasks[t], s.queues, Fetch);
    if m in c.schMids {
      ActExcess(c, t, s.tasks[t], s.queues, Fetch, m);
    }
    HeadLeaves(c, s.queues, p, u, m);
    MovedAccounts(c, s, t, task', s.queues[p := s.queues[p][1..]], if s.queues[p][0] == m then 1 else 0, u, m);
  }

  /** An included multiset is not larger. */
  lemma {:induction false} Included(a: seq<Mid>, b: multiset<Mid>)
    requires multiset(a) <= b
    ensures |a| <= |b|
  {
    assert b == multiset(a) + (b - multiset(a));
  }

  /** Every acknowledged id has its own trigger. */
  lemma {:induction false} AcknowledgedFitTriggered(c: Config, s: Sys, t: nat)
    requires Inv(c, s) && t < |s.tasks|
    ensures |s.tasks[t].ipc.acknowledged| <= |s.tasks[t].ipc.triggered|
  {
    var ipc := s.tasks[t].ipc;
    assert Kept(c, s.tasks[t]);
    forall m: Mid ensures multiset(ipc.acknowledged)[m] <= multiset(ipc.triggered)[m] {
      assert Accounted(c, s, t, m);
      if m !in c.schMids {
        assert m !in ipc.acknowledged;
      }
    }
    Included(ipc.acknowledged, multiset(ipc.triggered));
  }

  lemma {:induction false} TaskStepAccounts(c: Config, s: Sys, t: nat, act: TaskAct, u: nat, m: Mid)
    requires Enabled(c, s, TaskStep(t, act)) && u < |s.tasks| && Accounted(c, s, u, m)
    requires OwnPipe(c, t, s.tasks[t].pc)
    requires act.EnterReceive? && s.tasks[t].ipc.stacks != [] ==>
               s.tasks[t].ipc.acknowledged[|s.tasks[t].ipc.acknowledged| - 1] in s.tasks[t].ipc.triggered
    requires act.Acknowledge? && s.tasks[t].pc.mid in c.schMids ==> s.tasks[t].pc.mid in s.tasks[t].ipc.triggered
    ensures Accounted(c, Apply(c, s, TaskStep(t, act)), u, m)
  {
    if act.Fetch? {
      FetchAccounts(c, s, t, u, m);
    } else {
      if m in c.schMids {
        ActExcess(c, t, s.tasks[t], s.queues, act, m);
      }
      MovedAccounts(c, s, t, Act(c, t, s.tasks[t], s.queues, act), s.queues, 0, u, m);
    }
  }

  lemma {:induction false} HeadLeaves(c: Config, queues: seq<seq<Mid>>, p: Pipe, u: nat, m: Mid)
    requires |queues| == |c.owner| && p < |queues| && queues[p] != []
    ensures Queued(c, queues[p := queues[p][1..]], u, m, |queues|)
         == Queued(c, queues, u, m, |queues|) - (if c.owner[p] == u && queues[p][0] == m then 1 else 0)
  {
    var q := queues[p];
    QueuedUpdate(c, queues, p, q[1..], u, m, |queues|);
    assert q == [q[0]] + q[1..];
    assert Count(q, m) == Count(q[1..], m) + (if q[0] == m then 1 else 0);
  }

  lemma {:induction false} PushAccounts(c: Config, s: Sys, p: Pipe, mid: Mid, u: nat, m: Mid)
    requires u < |s.tasks| && |s.queues| == |c.owner| && p < |s.queues|
    ensures Coming(c, s.(queues := s.queues[p := s.queues[p] + [mid]]), u, m)
         == Coming(c, s, u, m) + (if mid == m && c.owner[p] == u then 1 else 0)
  {
    QueuedUpdate(c, s.queues, p, s.queues[p] + [mid], u, m, |s.queues|);
  }

  lemma {:induction false} MarkAccounts(c: Config, s: Sys, u: nat, m: Mid)
    requires Shaped(c, s) && SchEnabled(c, s, Mark) && u < |s.tasks| && Accounted(c, s, u, m)
    ensures Accounted(c, SchApply(c, s, Mark), u, m)
  {
    var dests, next := s.sch.dests, s.sch.next;
    CopiesAppend(c, dests[..next], dests[next], u);
    assert dests[..next + 1] == dests[..next] + [dests[next]];
  }

  lemma {:induction false} DeliverAccounts(c: Config, s: Sys, accepted: bool, u: nat, m: Mid)
    requires Shaped(c, s) && SchEnabled(c, s, Deliver(accepted)) && u < |s.tasks| && Accounted(c, s, u, m)
    ensures Accounted(c, SchApply(c, s, Deliver(accepted)), u, m)
  {
    var dests, next := s.sch.dests, s.sch.next;
    PushAccounts(c, s, dests[next], s.sch.mid, u, m);
    assert dests[next..][1..] == dests[next + 1..];
  }

  lemma {:induction false} QuietAccounts(c: Config, s: Sys, act: SchAct, u: nat, m: Mid)
    requires Shaped(c, s) && SchEnabled(c, s, act) && u < |s.tasks| && Accounted(c, s, u, m)
    requires !(act.Mark? || act.AllMarked? || act.Deliver?)
    ensures Accounted(c, SchApply(c, s, act), u, m)
  {
    var s' := SchApply(c, s, act);
    assert Unsent(c, s'.sch, u, m) == 0 && s'.queues == s.queues && s'.refused == s.refused;
    assert SameLists(s.tasks[u], s'.tasks[u]);
  }

  lemma {:induction false} SchStepAccounts(c: Config, s: Sys, act: SchAct, u: nat, m: Mid)
    requires Shaped(c, s) && SchEnabled(c, s, act) && u < |s.tasks| && Accounted(c, s, u, m)
    requires SendsOwnIds(c, s.sch)
    ensures Accounted(c, SchApply(c, s, act), u, m)
  {
    match act {
      case Mark => MarkAccounts(c, s, u, m);
      case AllMarked => assert s.sch.dests[..|s.sch.dests|] == s.sch.dests == s.sch.dests[0..];
      case Deliver(accepted) => DeliverAccounts(c, s, accepted, u, m);
      case _ => QuietAccounts(c, s, act, u, m);
    }
  }

  lemma {:induction false} MainStepAccounts(c: Config, s: Sys, act: MainAct, u: nat, m: Mid)
    requires Shaped(c, s) && MainEnabled(s, act) && u < |s.tasks| && Accounted(c, s, u, m)
    ensures Accounted(c, MainApply(c, s, act), u, m)
  {
    var s' := MainApply(c, s, act);
    assert s'.sch == s.sch && s'.queues == s.queues && SameLists(s.tasks[u], s'.tasks[u]);
  }

  lemma {:induction false} HeldIsTriggered(c: Config, s: Sys, t: nat)
    requires Inv(c, s) && t < |s.tasks| && s.tasks[t].pc.Fetched? && s.tasks[t].pc.mid in c.schMids
    ensures s.tasks[t].pc.mid in s.tasks[t].ipc.triggered
  {
    var m := s.tasks[t].pc.mid;
    assert Accounted(c, s, t, m) && Held(s.tasks[t].pc, m) == 1;
    assert m in multiset(s.tasks[t].ipc.triggered);
  }

  /** The premises under which completing and acknowledging are well behaved. */
  lemma {:induction false} CompletesTriggered(c: Config, s: Sys, step: Step)
    requires Inv(c, s) && Enabled(c, s, step) && step.TaskStep?
    ensures OwnPipe(c, step.t, s.tasks[step.t].pc) && Kept(c, s.tasks[step.t])
    ensures var ipc := s.tasks[step.t].ipc;
            step.act.EnterReceive? && ipc.stacks != [] ==>
              ipc.acknowledged[|ipc.acknowledged| - 1] in ipc.triggered
    ensures var task := s.tasks[step.t];
            step.act.Acknowledge? && task.pc.mid in c.schMids ==> task.pc.mid in task.ipc.triggered
  {
    if step.act.Acknowledge? && s.tasks[step.t].pc.mid in c.schMids {
      HeldIsTriggered(c, s, step.t);
    }
    if s.tasks[step.t].ipc.acknowledged != [] {
      LatestIsTriggered(c, s, step.t);
    }
  }

  lemma {:induction false} StepAccounts(c: Config, s: Sys, step: Step, u: nat, m: Mid)
    requires Inv(c, s) && Enabled(c, s, step) && u < |s.tasks|
    ensures Accounted(c, Apply(c, s, step), u, m)
  {
    assert Accounted(c, s, u, m);
    match step {
      case TaskStep(t, act) =>
        CompletesTriggered(c, s, step);
        TaskStepAccounts(c, s, t, act, u, m);
      case SchStep(act) => SchStepAccounts(c, s, act, u, m);
      case ForeignSend(p, mid) => PushAccounts(c, s, p, mid, u, m);
      case MainStep(act) => MainStepAccounts(c, s, act, u, m);
      case Register(_) =>
    }
  }

  lemma {:induction false} MarkedKept(c: Config, task: Task, mid: Mid)
    requires Kept(c, task) && mid in c.schMids
    ensures Kept(c, Marked(task, mid))
  {
  }

  lemma {:induction false} TouchedLists(c: Config, s: Sys, step: Step, u: nat)
    requires Enabled(c, s, step) && u < |s.tasks| && !(step.TaskStep? && step.t == u) && step != SchStep(Mark)
    ensures SameLists(s.tasks[u], Touched(c, s, step, u))
  {
  }

  predicate SameLists(a: Task, b: Task) {
    b == a.(ipc := a.ipc.(state := b.ipc.state, usRemaining := b.ipc.usRemaining))
  }

  lemma {:induction false} StepKeeps(c: Config, s: Sys, step: Step, u: nat)
    requires Enabled(c, s, step) && u < |s.tasks| && Kept(c, s.tasks[u]) && OwnPipe(c, u, s.tasks[u].pc)
    requires SendsOwnIds(c, s.sch)
    requires step.TaskStep? && step.act.EnterReceive? && s.tasks[step.t].ipc.stacks != [] ==>
               var ipc := s.tasks[step.t].ipc; ipc.acknowledged[|ipc.acknowledged| - 1] in ipc.triggered
    ensures Kept(c, Touched(c, s, step, u)) && OwnPipe(c, u, Touched(c, s, step, u).pc)
  {
    if step.TaskStep? && step.t == u {
      ActKept(c, u, s.tasks[u], s.queues, step.act);
    } else if step == SchStep(Mark) {
      MarkedKept(c, s.tasks[u], s.sch.mid);
    } else {
      TouchedLists(c, s, step, u);
    }
  }

  lemma {:induction false} OwnershipKept(c: Config, s: Sys, step: Step, u: nat)
    requires Enabled(c, s, step) && u < |s.tasks| && Touched(c, s, step, u).ipc.triggered != []
    requires s.tasks[u].ipc.triggered != [] ==> c.Owns(u)
    ensures c.Owns(u)
  {
    if step == SchStep(Mark) && c.owner[s.sch.dests[s.sch.next]] == u {
      assert c.Owns(u);
    } else if step.TaskStep? && step.t == u {
      ActTriggers(c, u, s.tasks[u], s.queues, step.act);
    }
  }

  lemma {:induction false} ActTriggers(c: Config, t: nat, task: Task, queues: seq<seq<Mid>>, act: TaskAct)
    requires TaskEnabled(c, t, task, queues, act)
    ensures |Act(c, t, task, queues, act).ipc.triggered| <= |task.ipc.triggered|
  {
  }

  lemma {:induction false} Keeps(c: Config, s: Sys, step: Step)
    requires Inv(c, s) && Enabled(c, s, step)
    ensures Inv(c, Apply(c, s, step))
  {
    var s' := Apply(c, s, step);
    forall u, m: Mid | 0 <= u < |s.tasks| ensures Accounted(c, s', u, m) {
      StepAccounts(c, s, step, u, m);
    }
    forall u | 0 <= u < |s.tasks| ensures Kept(c, s'.tasks[u]) && OwnPipe(c, u, s'.tasks[u].pc) {
      if step.TaskStep? {
        CompletesTriggered(c, s, step);
      }
      StepKeeps(c, s, step, u);
      assert s'.tasks[u] == Touched(c, s, step, u);
    }
    forall u | 0 <= u < |s.tasks| && s'.tasks[u].ipc.triggered != [] ensures c.Owns(u) {
      assert s'.tasks[u] == Touched(c, s, step, u);
      OwnershipKept(c, s, step, u);
    }
    assert SendsOwnIds(c, s'.sch);
  }

  lemma {:induction false} InitiallyNothing(c: Config, t: nat, m: Mid, n: nat)
    requires n <= |c.owner|
    ensures Queued(c, Init(c).queues, t, m, n) == 0
  {
    if n > 0 {
      InitiallyNothing(c, t, m, n - 1);
    }
  }

  lemma {:induction false} Always(c: Config, run: seq<Step>, s: Sys)
    requires Reaches(c, run, s)
    ensures Inv(c, s)
    decreases |run|
  {
    if run != [] {
      var n := |run| - 1;
      var r :| Reaches(c, run[..n], r) && Enabled(c, r, run[n]) && s == Apply(c, r, run[n]);
      Always(c, run[..n], r);
      Keeps(c, r, run[n]);
    } else {
      forall t, m: Mid | 0 <= t < |s.tasks| ensures Accounted(c, s, t, m) {
        InitiallyNothing(c, t, m, |s.queues|);
      }
    }
  }

  /** No untracked wake-up, in every interleaving of either mode: the triggers of an id are those of its
      messages that are on their way, and those of its messages that a full queue has dropped. */
  lemma {:induction false} NothingUntracked(c: Config, s: Sys, t: nat, m: Mid)
    requires Reachable(c, s) && t < |s.tasks| && m in c.schMids
    ensures |s.queues| == |c.owner|
    ensures Coming(c, s, t, m) + s.refused[Refusal(t, m)] == multiset(s.tasks[t].ipc.triggered)[m]
  {
    var run :| Reaches(c, run, s);
    Always(c, run, s);
    assert Accounted(c, s, t, m);
  }

  /** A fetched message finds its trigger exactly when SCH is its sender. */
  lemma {:induction false} AcknowledgingFindsTrigger(c: Config, s: Sys, t: nat)
    requires Reachable(c, s) && t < |s.tasks| && s.tasks[t].pc.Fetched?
    ensures s.tasks[t].pc.mid in s.tasks[t].ipc.triggered <==> s.tasks[t].pc.mid in c.schMids
  {
    var run :| Reaches(c, run, s);
    Always(c, run, s);
    var m := s.tasks[t].pc.mid;
    assert Kept(c, s.tasks[t]) && Accounted(c, s, t, m);
    assert Held(s.tasks[t].pc, m) == 1;
    assert m in c.schMids ==> m in multiset(s.tasks[t].ipc.triggered);
  }

  /** Every id marked for a task has either been completed by it, once, or is still triggered. */
  lemma {:induction false} TriggersConserved(c: Config, s: Sys, t: nat)
    requires Reachable(c, s) && t < |s.tasks|
    ensures s.tasks[t].marked == s.tasks[t].completed + multiset(s.tasks[t].ipc.triggered)
  {
    var run :| Reaches(c, run, s);
    Always(c, run, s);
    assert Kept(c, s.tasks[t]);
  }

  /** Each open receipt has its acknowledged id, but for those that a poll of another call site has taken. */
  lemma {:induction false} ReceiptsOf(c: Config, s: Sys, t: nat)
    requires Reachable(c, s) && t < |s.tasks|
    ensures |s.tasks[t].ipc.stacks| == |s.tasks[t].ipc.acknowledged| + s.tasks[t].foreign
  {
    var run :| Reaches(c, run, s);
    Always(c, run, s);
    assert Kept(c, s.tasks[t]);
  }

  /** When `acknowledgedMIDs.back()` would be read from an empty list: exactly when receipts are open and
      the task has so far entered as many receives at sites without a receipt of their own as it has
      receipts open. */
  lemma {:induction false} BackReadUndefined(c: Config, s: Sys, t: nat)
    requires Reachable(c, s) && t < |s.tasks|
    ensures !CompleteDefined(s.tasks[t].ipc)
       <==> s.tasks[t].ipc.stacks != [] && s.tasks[t].foreign == |s.tasks[t].ipc.stacks|
  {
    ReceiptsOf(c, s, t);
  }
}
