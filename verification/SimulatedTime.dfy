/** Waiting in simulated time, in whole interleavings of normal mode.

  Between a task's addTaskDelay and its wake-up any number of steps of the other threads may lie. What
  counts are the updates that Trick main makes meanwhile.
 */
module SimulatedTime {
  import opened Arithmetic
  import opened TaskIpc
  import opened Handshake
  import TaskDiscipline
  import QueueGet
  import MessageQueue

  /** The step is the turn of updateTaskTimes for task `t`. */
  predicate Updated(s: Sys, step: Step, t: nat) { step == MainStep(UpdateOne) && s.main.Updating? && s.main.ii == t }

  /** The cycles of the updates of task `t` in the first `n` steps. */
  function Updates(states: seq<Sys>, steps: seq<Step>, t: nat, n: nat): seq<int>
    requires n <= |steps| <= |states|
  {
    if n == 0 then []
    else
      Updates(states, steps, t, n - 1)
      + (if Updated(states[n - 1], steps[n - 1], t) then [states[n - 1].main.cycleTics] else [])
  }

  // ---- One delay ----

  lemma {:induction false} SleeperStep(c: Config, s: Sys, step: Step, t: nat)
    requires TaskDiscipline.Inv(c, s) && Enabled(c, s, step) && !c.perfect && t < |s.tasks|
    requires s.tasks[t].pc == InDelay && step != TaskStep(t, LeaveDelay)
    ensures var ipc, task' := s.tasks[t].ipc, Touched(c, s, step, t);
            var after := if Updated(s, step, t) then Tick(ipc, s.main.cycleTics) else ipc;
            task'.pc == InDelay && SameTime(task'.ipc, after)
  {
  }

  lemma {:induction false} ReachableDiscipline(c: Config, s: Sys)
    requires Reachable(c, s)
    ensures TaskDiscipline.Inv(c, s)
  {
    var run :| Reaches(c, run, s);
    TaskDiscipline.Always(c, run, s);
  }

  lemma {:induction false} PathDiscipline(c: Config, states: seq<Sys>, steps: seq<Step>, n: nat)
    requires IsPath(c, states, steps) && n <= |steps| && TaskDiscipline.Inv(c, states[0])
    ensures TaskDiscipline.Inv(c, states[n]) && |states[n].tasks| == |states[0].tasks|
  {
    if n > 0 {
      PathDiscipline(c, states, steps, n - 1);
      TaskDiscipline.Keeps(c, states[n - 1], steps[n - 1]);
    }
  }

  /** What the last of `n` steps does to task `t`. */
  lemma {:induction false} PathStep(c: Config, states: seq<Sys>, steps: seq<Step>, t: nat, n: nat)
    requires IsPath(c, states, steps) && n < |steps| && t < |states[n].tasks|
    ensures Enabled(c, states[n], steps[n])
    ensures t < |states[n + 1].tasks| && states[n + 1].tasks[t] == Touched(c, states[n], steps[n], t)
  {
  }

  /** Only the time part of a record matters for ticking. */
  lemma {:induction false} TickSame(a: Ipc, b: Ipc, cycleTics: int)
    requires SameTime(a, b)
    ensures SameTime(Tick(a, cycleTics), Tick(b, cycleTics))
  {
  }

  lemma {:induction false} TicksPush(ipc: Ipc, cycles: seq<int>, cycleTics: int)
    ensures Ticks(ipc, cycles + [cycleTics]) == Tick(Ticks(ipc, cycles), cycleTics)
  {
    assert (cycles + [cycleTics])[..|cycles|] == cycles;
  }

  predicate SameTime(a: Ipc, b: Ipc) { a.state == b.state && a.usRemaining == b.usRemaining }

  lemma {:induction false} SleeperTicks(c: Config, s: Sys, step: Step, t: nat, start: Ipc, cycles: seq<int>)
    requires TaskDiscipline.Inv(c, s) && Enabled(c, s, step) && !c.perfect && t < |s.tasks|
    requires s.tasks[t].pc == InDelay && step != TaskStep(t, LeaveDelay)
    requires SameTime(s.tasks[t].ipc, Ticks(start, cycles))
    ensures var more := if Updated(s, step, t) then [s.main.cycleTics] else [];
            var task' := Touched(c, s, step, t);
            task'.pc == InDelay && SameTime(task'.ipc, Ticks(start, cycles + more))
  {
    SleeperStep(c, s, step, t);
    if Updated(s, step, t) {
      TicksPush(start, cycles, s.main.cycleTics);
      TickSame(s.tasks[t].ipc, Ticks(start, cycles), s.main.cycleTics);
    } else {
      assert cycles + [] == cycles;
    }
  }

  /** The task has slept through the first `n` steps. */
  ghost predicate Slept(states: seq<Sys>, steps: seq<Step>, t: nat, n: nat)
    requires n <= |steps| < |states| && t < |states[0].tasks|
  {
    && t < |states[n].tasks| && states[n].tasks[t].pc == InDelay
    && SameTime(states[n].tasks[t].ipc, Ticks(states[0].tasks[t].ipc, Updates(states, steps, t, n)))
  }

  lemma {:induction false} SleepGoesOn(c: Config, states: seq<Sys>, steps: seq<Step>, t: nat, n: nat)
    requires IsPath(c, states, steps) && n < |steps| && t < |states[0].tasks| && Slept(states, steps, t, n)
    requires TaskDiscipline.Inv(c, states[n]) && !c.perfect && steps[n] != TaskStep(t, LeaveDelay)
    ensures Slept(states, steps, t, n + 1)
  {
    PathStep(c, states, steps, t, n);
    SleeperTicks(c, states[n], steps[n], t, states[0].tasks[t].ipc, Updates(states, steps, t, n));
  }

  lemma {:induction false} SleepIsTicks(c: Config, states: seq<Sys>, steps: seq<Step>, t: nat, n: nat)
    requires IsPath(c, states, steps) && n <= |steps| && TaskDiscipline.Inv(c, states[0]) && !c.perfect
    requires t < |states[0].tasks| && states[0].tasks[t].pc == InDelay
    requires TaskStep(t, LeaveDelay) !in steps
    ensures Slept(states, steps, t, n)
  {
    if n > 0 {
      SleepIsTicks(c, states, steps, t, n - 1);
      PathDiscipline(c, states, steps, n - 1);
      assert steps[n - 1] in steps;
      SleepGoesOn(c, states, steps, t, n - 1);
    }
  }

  /** In normal mode a task that calls addTaskDelay(d) can return from it exactly when the updates that
      Trick main has made since then have reached d, in every interleaving. */
  lemma {:induction false} DelayEnds(c: Config, s: Sys, states: seq<Sys>, steps: seq<Step>, t: nat, d: nat)
    requires Reachable(c, s) && !c.perfect && Enabled(c, s, TaskStep(t, Delay(d)))
    requires IsPath(c, states, steps) && states[0] == Apply(c, s, TaskStep(t, Delay(d)))
    requires TaskStep(t, LeaveDelay) !in steps
    ensures var cycles := Updates(states, steps, t, |steps|);
            Enabled(c, states[|steps|], TaskStep(t, LeaveDelay))
            <==> exists k :: 0 < k <= |cycles| && Sum(cycles[..k]) >= d
  {
    ReachableDiscipline(c, s);
    TaskDiscipline.Keeps(c, s, TaskStep(t, Delay(d)));
    SleepIsTicks(c, states, steps, t, |steps|);
    PathDiscipline(c, states, steps, |steps|);
    SleepsUntilReached(states[0].tasks[t].ipc, Updates(states, steps, t, |steps|));
  }

  /** With a fixed frame of r tics, that is exactly when there have been ceil(d / r) updates, or one for a
      delay of zero. */
  lemma {:induction false} DelayTakesFrames(c: Config, s: Sys, states: seq<Sys>, steps: seq<Step>, t: nat, d: nat,
                                                r: nat)
    requires Reachable(c, s) && !c.perfect && Enabled(c, s, TaskStep(t, Delay(d))) && r > 0
    requires IsPath(c, states, steps) && states[0] == Apply(c, s, TaskStep(t, Delay(d)))
    requires TaskStep(t, LeaveDelay) !in steps
    requires forall x :: x in Updates(states, steps, t, |steps|) ==> x == r
    ensures Enabled(c, states[|steps|], TaskStep(t, LeaveDelay))
       <==> |Updates(states, steps, t, |steps|)| >= FramesNeeded(d, r)
  {
    DelayEnds(c, s, states, steps, t, d);
    FramesReach(Updates(states, steps, t, |steps|), d, r);
  }

  lemma {:induction false} FramesReach(cycles: seq<int>, d: nat, r: nat)
    requires r > 0 && forall x :: x in cycles ==> x == r
    ensures (exists k :: 0 < k <= |cycles| && Sum(cycles[..k]) >= d) <==> |cycles| >= FramesNeeded(d, r)
  {
    var n := |cycles|;
    assert forall i :: 0 <= i < n ==> cycles[i] in cycles;
    ReachedByTheLast(cycles, d);
    assert cycles == Frames(r, n);
    SumOfFrames(r, n);
    MulMono(0, n, r);
    if d > 0 {
      var q := CeilDiv(d, r);
      CeilDivIs(d, r, q);
      if n >= q {
        MulMono(q, n, r);
      } else {
        MulMono(n, q - 1, r);
      }
    }
  }

  // ---- A receive with a finite timeout ----

  /** How many updates of the first `n` steps find task `t` asleep. */
  function SleptUpdates(states: seq<Sys>, steps: seq<Step>, t: nat, n: nat): nat
    requires n <= |steps| <= |states|
  {
    if n == 0 then 0
    else
      SleptUpdates(states, steps, t, n - 1)
      + (if Updated(states[n - 1], steps[n - 1], t) && IsAsleep(states[n - 1], t) then 1 else 0)
  }

  predicate IsAsleep(s: Sys, t: nat) { t < |s.tasks| && s.tasks[t].ipc.state == TASK_DELAY }

  /** What task `t` itself does in the first `n` steps. */
  function Own(steps: seq<Step>, t: nat, n: nat): seq<TaskAct>
    requires n <= |steps|
  {
    if n == 0 then []
    else Own(steps, t, n - 1) + (if steps[n - 1].TaskStep? && steps[n - 1].t == t then [steps[n - 1].act] else [])
  }

  function Delays(acts: seq<TaskAct>): nat {
    if acts == [] then 0 else Delays(acts[..|acts| - 1]) + (if acts[|acts| - 1].Delay? then 1 else 0)
  }

  lemma {:induction false} DelaysConcat(a: seq<TaskAct>, b: seq<TaskAct>)
    ensures Delays(a + b) == Delays(a) + Delays(b)
  {
    if b == [] {
      assert a + b == a;
    } else {
      assert (a + b)[..|a + b| - 1] == a + b[..|b| - 1];
      DelaysConcat(a, b[..|b| - 1]);
    }
  }

  predicate ZeroDelays(acts: seq<TaskAct>) {
    forall i :: 0 <= i < |acts| && acts[i].Delay? ==> acts[i].msIn == 0
  }

  ghost predicate PositiveCycles(states: seq<Sys>) {
    forall i :: 0 <= i < |states| && states[i].main.Updating? ==> states[i].main.cycleTics > 0
  }

  /** A zero delay is over with the first update, and nothing else puts a task to sleep. */
  lemma {:induction false} ZeroDelayStep(c: Config, s: Sys, step: Step, t: nat)
    requires TaskDiscipline.Inv(c, s) && Enabled(c, s, step) && !c.perfect && t < |s.tasks|
    requires IsAsleep(s, t) ==> s.tasks[t].ipc.usRemaining == 0
    requires s.main.Updating? ==> s.main.cycleTics > 0
    requires IsDelay(step, t) ==> step.act.msIn == 0
    ensures var asleep, asleep' := IsAsleep(s, t), IsAsleep(Apply(c, s, step), t);
            && (asleep' ==> Touched(c, s, step, t).ipc.usRemaining == 0)
            && (asleep' <==> IsDelay(step, t) || (asleep && !Updated(s, step, t)))
            && (IsDelay(step, t) ==> !asleep)
  {
    assert Apply(c, s, step).tasks[t] == Touched(c, s, step, t);
    assert TaskDiscipline.StateFits(c, s.tasks[t]);
  }

  /** Each zero delay is found asleep by one update. */
  lemma {:induction false} ZeroDelaysSlept(c: Config, states: seq<Sys>, steps: seq<Step>, t: nat, n: nat)
    requires IsPath(c, states, steps) && n <= |steps| && TaskDiscipline.Inv(c, states[0]) && !c.perfect
    requires t < |states[0].tasks| && !IsAsleep(states[0], t)
    requires PositiveCycles(states) && ZeroDelays(Own(steps, t, n))
    ensures t < |states[n].tasks| && (IsAsleep(states[n], t) ==> states[n].tasks[t].ipc.usRemaining == 0)
    ensures SleptUpdates(states, steps, t, n) + (if IsAsleep(states[n], t) then 1 else 0) == Delays(Own(steps, t, n))
  {
    if n > 0 {
      OwnPush(steps, t, n);
      ZeroDelaysSlept(c, states, steps, t, n - 1);
      PathDiscipline(c, states, steps, n - 1);
      PathStep(c, states, steps, t, n - 1);
      ZeroDelayStep(c, states[n - 1], steps[n - 1], t);
    }
  }

  predicate IsDelay(step: Step, t: nat) { step.TaskStep? && step.t == t && step.act.Delay? }

  lemma {:induction false} OwnPush(steps: seq<Step>, t: nat, n: nat)
    requires 0 < n <= |steps| && ZeroDelays(Own(steps, t, n))
    ensures ZeroDelays(Own(steps, t, n - 1)) && (IsDelay(steps[n - 1], t) ==> steps[n - 1].act.msIn == 0)
    ensures Delays(Own(steps, t, n)) == Delays(Own(steps, t, n - 1)) + (if IsDelay(steps[n - 1], t) then 1 else 0)
  {
    var before, step := Own(steps, t, n - 1), steps[n - 1];
    assert before == Own(steps, t, n)[..|before|] && before + [] == before;
    if step.TaskStep? && step.t == t {
      assert Own(steps, t, n)[|before|] == step.act;
      DelaysConcat(before, [step.act]);
    }
  }

  /** The actions of a task that makes these calls without receiving anything. */
  function ActsOf(events: seq<QueueGet.Event>, pipe: Pipe, site: Site): seq<TaskAct> {
    if events == [] then []
    else ActsOf(events[..|events| - 1], pipe, site) + ActsOfOne(events[|events| - 1], pipe, site)
  }

  function ActsOfOne(event: QueueGet.Event, pipe: Pipe, site: Site): seq<TaskAct> {
    match event
    case MarkComplete => [EnterReceive(pipe, site)]
    case Poll => [FetchNothing]
    case Sleep => [Delay(0), LeaveDelay]
    case AcknowledgeTrigger => [Acknowledge]
  }

  lemma {:induction false} ActsDelays(events: seq<QueueGet.Event>, pipe: Pipe, site: Site)
    ensures Delays(ActsOf(events, pipe, site)) == QueueGet.CountOf(events, QueueGet.Sleep)
    ensures ZeroDelays(ActsOf(events, pipe, site))
  {
    if events != [] {
      var n := |events| - 1;
      ActsDelays(events[..n], pipe, site);
      var one := ActsOfOne(events[n], pipe, site);
      DelaysConcat(ActsOf(events[..n], pipe, site), one);
      OneDelays(events[n], pipe, site);
    }
  }

  lemma {:induction false} OneDelays(event: QueueGet.Event, pipe: Pipe, site: Site)
    ensures Delays(ActsOfOne(event, pipe, site)) == if event.Sleep? then 1 else 0
    ensures ZeroDelays(ActsOfOne(event, pipe, site))
  {
    if event.Sleep? {
      DelaysConcat([Delay(0)], [LeaveDelay]);
      assert [Delay(0)] + [LeaveDelay] == ActsOfOne(event, pipe, site);
    }
  }

  /** The task polls `n` times and sleeps between two polls. */
  lemma {:induction false} RoundsSpan(c: Config, states: seq<Sys>, steps: seq<Step>, t: nat, pipe: Pipe, site: Site,
                                          n: nat)
    requires IsPath(c, states, steps) && TaskDiscipline.Inv(c, states[0]) && !c.perfect && PositiveCycles(states)
    requires t < |states[0].tasks| && !IsAsleep(states[0], t) && !IsAsleep(states[|steps|], t) && n > 0
    requires Own(steps, t, |steps|) == ActsOf(QueueGet.Rounds(n), pipe, site)
    ensures SleptUpdates(states, steps, t, |steps|) == n - 1
  {
    ActsDelays(QueueGet.Rounds(n), pipe, site);
    QueueGet.RoundsCounts(n, QueueGet.Sleep);
    ZeroDelaysSlept(c, states, steps, t, |steps|);
  }

  lemma {:induction false} WorkingIsAwake(c: Config, s: Sys, t: nat)
    requires TaskDiscipline.Inv(c, s) && IsWorking(s, t)
    ensures !IsAsleep(s, t)
  {
    assert TaskDiscipline.StateFits(c, s.tasks[t]);
  }

  predicate IsWorking(s: Sys, t: nat) { t < |s.tasks| && s.tasks[t].pc == Working }

  /** In an interleaving in which task `t` does what these calls make it do, and is done with it. */
  ghost predicate Performs(c: Config, states: seq<Sys>, steps: seq<Step>, t: nat, events: seq<QueueGet.Event>,
                           pipe: Pipe, site: Site)
  {
    && IsPath(c, states, steps) && Reachable(c, states[0]) && !c.perfect && PositiveCycles(states)
    && IsWorking(states[0], t) && IsWorking(states[|steps|], t)
    && Own(steps, t, |steps|) == ActsOf(events, pipe, site)
  }

  /** A receive that finds nothing for T milliseconds, at a rate of R: in every interleaving in which task
      `t` makes the calls of this receive it is found asleep by exactly ceil(T / R) - 1 updates, whatever
      else happens meanwhile. */
  method TimedOutReceiveSpans(timeout: int, schRate: nat, poll: nat -> MessageQueue.ReceiveCode)
    returns (events: seq<QueueGet.Event>)
    requires 0 < timeout < QueueGet.TWO_31 && 0 < schRate < QueueGet.TWO_32 && schRate - timeout <= QueueGet.TWO_31
    requires forall k :: poll(k) == MessageQueue.TimedOut
    ensures QueueGet.CountOf(events, QueueGet.Poll) == CeilDiv(timeout, schRate)
    ensures forall c, states, steps, t, pipe, site :: Performs(c, states, steps, t, events, pipe, site) ==>
              SleptUpdates(states, steps, t, |steps|) == CeilDiv(timeout, schRate) - 1
  {
    events := QueueGet.TimedOutReceive(timeout, schRate, poll);
    forall c, states, steps, t, pipe, site | Performs(c, states, steps, t, events, pipe, site)
      ensures SleptUpdates(states, steps, t, |steps|) == CeilDiv(timeout, schRate) - 1
    {
      PerformedRoundsSpan(c, states, steps, t, pipe, site, CeilDiv(timeout, schRate));
    }
  }

  lemma {:induction false} PerformedRoundsSpan(c: Config, states: seq<Sys>, steps: seq<Step>, t: nat, pipe: Pipe,
                                                   site: Site, n: nat)
    requires n > 0 && Performs(c, states, steps, t, QueueGet.Rounds(n), pipe, site)
    ensures SleptUpdates(states, steps, t, |steps|) == n - 1
  {
    ReachableDiscipline(c, states[0]);
    PathDiscipline(c, states, steps, |steps|);
    WorkingIsAwake(c, states[0], t);
    WorkingIsAwake(c, states[|steps|], t);
    RoundsSpan(c, states, steps, t, pipe, site, n);
  }
}
