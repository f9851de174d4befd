/** The one-pass scan is a snapshot.

  In normal mode TrickWaitForCFSComplete tests the tasks one at a time while they run. Because SCH is
  blocked meanwhile, a task that has passed the test keeps passing it, so that at the moment the scan
  returns every registered task passes at once.
 */
module Snapshot {
  import opened TaskIpc
  import opened Handshake
  import Lockstep
  import TaskDiscipline

  /** The number of tasks that the current or last scan has passed. */
  function Passed(main: MainPc): nat {
    match main
    case Scan(ii) => ii
    case Blocked(ii) => ii
    case Active(passed) => passed
    case _ => 0
  }

  ghost predicate Inv(c: Config, s: Sys) {
    && Lockstep.Inv(s) && TaskDiscipline.Inv(c, s)
    && (!c.perfect ==> Passed(s.main) <= |s.tasks|)
    && (!c.perfect ==> forall t :: 0 <= t < Passed(s.main) ==> Settled(s.tasks[t].ipc))
    && (s.main.Blocked? ==> s.main.ii < |s.tasks|)
    && (s.main.Scan? ==> s.main.ii <= |s.tasks| && !c.perfect)
    && (s.main.Blocked? ==> !c.perfect)
  }

  /** `--ii` at 0 wraps around, and the loop's `++ii` wraps back: the same task is tested again. */
  lemma {:induction false} RetestsSameTask(ii: nat)
    requires ii < SIZE_T
    ensures Inc(Dec(ii)) == ii
  {
    if ii == 0 {
      assert Dec(ii) == SIZE_T - 1;
    } else {
      assert ii + SIZE_T - 1 == (ii - 1) + 1 * SIZE_T;
      assert Dec(ii) == ii - 1;
    }
  }

  /** Nothing but SCH and updateTaskTimes can unsettle a task: a sleeping one has no step of its own, and
      an idle one finds no trigger to acknowledge. */
  lemma {:induction false} StaysSettled(c: Config, t: nat, task: Task, queues: seq<seq<Mid>>, act: TaskAct)
    requires TaskDiscipline.StateFits(c, task) && TaskEnabled(c, t, task, queues, act) && Settled(task.ipc)
    ensures Settled(Act(c, t, task, queues, act).ipc)
  {
  }

  lemma {:induction false} TouchedStaysSettled(c: Config, s: Sys, step: Step, u: nat)
    requires Enabled(c, s, step) && u < |s.tasks|
    requires TaskDiscipline.StateFits(c, s.tasks[u]) && Settled(s.tasks[u].ipc)
    requires s.sch == AwaitTrigger && !s.main.Updating?
    ensures Settled(Touched(c, s, step, u).ipc)
  {
    if step.TaskStep? && step.t == u {
      StaysSettled(c, u, s.tasks[u], s.queues, step.act);
    }
  }

  lemma {:induction false} PassedKeeps(c: Config, s: Sys, step: Step, u: nat)
    requires Inv(c, s) && Enabled(c, s, step) && !c.perfect
    requires u < Passed(Apply(c, s, step).main)
    ensures u < |s.tasks| && Settled(Apply(c, s, step).tasks[u].ipc)
  {
    if s.main.Scan? || s.main.Blocked? {
      RetestsSameTask(s.main.ii);
    }
    if u < Passed(s.main) {
      TouchedStaysSettled(c, s, step, u);
    }
    assert Apply(c, s, step).tasks[u] == Touched(c, s, step, u);
  }

  lemma {:induction false} MainStays(c: Config, s: Sys, step: Step)
    requires Enabled(c, s, step)
    requires s.main.Blocked? ==> s.main.ii < |s.tasks| && !c.perfect
    requires s.main.Scan? ==> s.main.ii <= |s.tasks| && !c.perfect
    requires !c.perfect ==> Passed(s.main) <= |s.tasks|
    ensures var main := Apply(c, s, step).main;
            && (main.Blocked? ==> main.ii < |s.tasks| && !c.perfect)
            && (main.Scan? ==> main.ii <= |s.tasks| && !c.perfect)
            && (!c.perfect ==> Passed(main) <= |s.tasks|)
  {
    if s.main.Scan? || s.main.Blocked? {
      RetestsSameTask(s.main.ii);
    }
  }

  lemma {:induction false} Always(c: Config, run: seq<Step>, s: Sys)
    requires Reaches(c, run, s)
    ensures Inv(c, s)
    decreases |run|
  {
    Lockstep.Always(c, run, s);
    TaskDiscipline.Always(c, run, s);
    if run != [] {
      var n := |run| - 1;
      var r :| Reaches(c, run[..n], r) && Enabled(c, r, run[n]) && s == Apply(c, r, run[n]);
      Always(c, run[..n], r);
      MainStays(c, r, run[n]);
      if !c.perfect {
        forall u | 0 <= u < Passed(s.main) ensures Settled(s.tasks[u].ipc) {
          PassedKeeps(c, r, run[n], u);
        }
      }
    }
  }

  /** When the scan returns, all registered tasks are at that same moment asleep in simulated time, or
      have nothing triggered and no receipt open. Tasks may have registered or left during the scan. */
  lemma {:induction false} ScanIsSnapshot(c: Config, s: Sys)
    requires Reachable(c, s) && Enabled(c, s, MainStep(Return))
    ensures var s' := Apply(c, s, MainStep(Return));
            s'.main.Active? && forall t :: 0 <= t < s'.registered ==> Settled(s'.tasks[t].ipc)
  {
    var run :| Reaches(c, run, s);
    Always(c, run, s);
  }

  /** And it stays so for those tasks until Trick starts the next update, whatever the tasks do. */
  lemma {:induction false} SnapshotLasts(c: Config, s: Sys)
    requires Reachable(c, s) && s.main.Active? && !c.perfect
    ensures forall t :: 0 <= t < s.main.passed ==> t < |s.tasks| && Settled(s.tasks[t].ipc)
  {
    var run :| Reaches(c, run, s);
    Always(c, run, s);
  }
}
