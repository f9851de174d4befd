/** A receive that finds nothing does occur: for every number of polls, some interleaving of normal mode in
    which a task makes exactly these calls, while SCH and Trick main go through a frame for each sleep. */
module ReceiveRun {
  import opened TaskIpc
  import opened Handshake
  import opened SimulatedTime
  import opened MultiSite
  import QueueGet

  /** `acts` is what the task does on the path. */
  ghost predicate MadeBy(states: seq<Sys>, steps: seq<Step>, acts: seq<TaskAct>, s: Sys) {
    && IsPath(TWO_SITES, states, steps) && Reachable(TWO_SITES, states[0]) && PositiveCycles(states)
    && IsWorking(states[0], 0) && states[|steps|] == s && Own(steps, 0, |steps|) == acts
  }

  ghost predicate Made(acts: seq<TaskAct>, s: Sys) {
    exists states, steps :: MadeBy(states, steps, acts, s)
  }

  function OwnAct(step: Step): seq<TaskAct> { if step.TaskStep? && step.t == 0 then [step.act] else [] }

  lemma {:induction false} OwnOfPrefix(steps: seq<Step>, more: seq<Step>, n: nat)
    requires n <= |steps|
    ensures Own(steps + more, 0, n) == Own(steps, 0, n)
  {
    if n > 0 {
      OwnOfPrefix(steps, more, n - 1);
    }
  }

  lemma {:induction false} PathGrows(states: seq<Sys>, steps: seq<Step>, step: Step)
    requires IsPath(TWO_SITES, states, steps) && Enabled(TWO_SITES, states[|steps|], step)
    ensures IsPath(TWO_SITES, states + [Apply(TWO_SITES, states[|steps|], step)], steps + [step])
  {
    var states', steps' := states + [Apply(TWO_SITES, states[|steps|], step)], steps + [step];
    forall i | 0 <= i < |steps'|
      ensures Enabled(TWO_SITES, states'[i], steps'[i]) && states'[i + 1] == Apply(TWO_SITES, states'[i], steps'[i])
    {
      if i < |steps| {
        assert states'[i] == states[i] && states'[i + 1] == states[i + 1] && steps'[i] == steps[i];
      }
    }
  }

  lemma {:induction false} OwnGrows(steps: seq<Step>, step: Step)
    ensures Own(steps + [step], 0, |steps| + 1) == Own(steps, 0, |steps|) + OwnAct(step)
  {
    OwnOfPrefix(steps, [step], |steps|);
  }

  lemma {:induction false} Go(acts: seq<TaskAct>, s: Sys, step: Step) returns (acts': seq<TaskAct>, s': Sys)
    requires Made(acts, s) && Enabled(TWO_SITES, s, step)
    requires step.MainStep? && step.main.BeginUpdate? ==> step.main.cycleTics > 0
    ensures Made(acts', s') && acts' == acts + OwnAct(step) && s' == Apply(TWO_SITES, s, step)
  {
    acts', s' := acts + OwnAct(step), Apply(TWO_SITES, s, step);
    var states, steps :| MadeBy(states, steps, acts, s);
    MadeGrows(states, steps, acts, s, step);
  }

  lemma {:induction false} MadeGrows(states: seq<Sys>, steps: seq<Step>, acts: seq<TaskAct>, s: Sys, step: Step)
    requires MadeBy(states, steps, acts, s) && Enabled(TWO_SITES, s, step)
    requires step.MainStep? && step.main.BeginUpdate? ==> step.main.cycleTics > 0
    ensures var s' := Apply(TWO_SITES, s, step);
            MadeBy(states + [s'], steps + [step], acts + OwnAct(step), s')
  {
    PathGrows(states, steps, step);
    OwnGrows(steps, step);
    CyclesStayPositive(s, step);
  }

  /** The same for a step of another thread. */
  lemma {:induction false} Others(acts: seq<TaskAct>, s: Sys, step: Step) returns (s': Sys)
    requires Made(acts, s) && Enabled(TWO_SITES, s, step) && !step.TaskStep?
    requires step.MainStep? && step.main.BeginUpdate? ==> step.main.cycleTics > 0
    ensures Made(acts, s') && s' == Apply(TWO_SITES, s, step)
  {
    var acts';
    acts', s' := Go(acts, s, step);
    assert acts + [] == acts;
  }

  lemma {:induction false} CyclesStayPositive(s: Sys, step: Step)
    requires Enabled(TWO_SITES, s, step) && (s.main.Updating? ==> s.main.cycleTics > 0)
    requires step.MainStep? && step.main.BeginUpdate? ==> step.main.cycleTics > 0
    ensures var main := Apply(TWO_SITES, s, step).main; main.Updating? ==> main.cycleTics > 0
  {
  }

  /** The task can start a receive, and Trick main an update. */
  predicate Resting(s: Sys) {
    && |s.tasks| == |s.queues| == 1 && s.tasks[0].pc == Working && s.tasks[0].ipc.stacks == []
    && s.tasks[0].ipc.triggered == [] && s.queues[0] == [] && s.registered == 0
    && s.sch == AwaitTrigger && s.main.Active? && s.triggerFd == 0 && s.doneFd == 0
  }

  lemma {:induction false} RestReached() returns (s: Sys)
    ensures Made([], s) && Resting(s)
  {
    s := Init(TWO_SITES);
    assert Reaches(TWO_SITES, [], s);
    s := Play(s, SchStep(WriteDone));
    s := Play(s, MainStep(ReadDone));
    s := Play(s, MainStep(Return));
    assert MadeBy([s], [], [], s);
  }

  lemma {:induction false} PollsOnce(acts: seq<TaskAct>, s0: Sys) returns (acts': seq<TaskAct>, s: Sys)
    requires Made(acts, s0) && Resting(s0)
    ensures Made(acts', s) && Resting(s) && acts' == acts + [EnterReceive(0, A)] + [FetchNothing]
  {
    acts', s := Go(acts, s0, TaskStep(0, EnterReceive(0, A)));
    acts', s := Go(acts', s, TaskStep(0, FetchNothing));
  }

  /** The task is asleep, or has been woken. */
  predicate Naps(s: Sys, state: TaskState, sch: SchPc, triggerFd: nat) {
    && |s.tasks| == |s.queues| == 1 && s.tasks[0].pc == InDelay && s.tasks[0].ipc.stacks == []
    && s.tasks[0].ipc.triggered == [] && s.tasks[0].ipc.state == state && s.queues[0] == [] && s.registered == 0
    && s.sch == sch && s.triggerFd == triggerFd && s.doneFd == 0
  }

  lemma {:induction false} FallsAsleep(acts: seq<TaskAct>, s0: Sys) returns (acts': seq<TaskAct>, s: Sys)
    requires Made(acts, s0) && Resting(s0)
    ensures Made(acts', s) && Naps(s, TASK_DELAY, AwaitTrigger, 0) && s.main.Active? && s.tasks[0].ipc.usRemaining == 0
    ensures acts' == acts + [Delay(0)]
  {
    acts', s := Go(acts, s0, TaskStep(0, Delay(0)));
  }

  lemma {:induction false} Woken(acts: seq<TaskAct>, s0: Sys) returns (s: Sys)
    requires Made(acts, s0) && Naps(s0, TASK_DELAY, AwaitTrigger, 0) && s0.main.Active?
    requires s0.tasks[0].ipc.usRemaining == 0
    ensures Made(acts, s) && Naps(s, TASK_CONTINUE, AwaitTrigger, 0) && s.main == Updating(1, 1)
  {
    s := Others(acts, s0, MainStep(BeginUpdate(1)));
    s := Others(acts, s, MainStep(UpdateOne));
  }

  /** SCH gets the token, while the woken task has yet to go on. */
  lemma {:induction false} FrameBegun(acts: seq<TaskAct>, s0: Sys) returns (s: Sys)
    requires Made(acts, s0) && Naps(s0, TASK_CONTINUE, AwaitTrigger, 0) && s0.main == Updating(1, 1)
    ensures Made(acts, s) && Naps(s, TASK_CONTINUE, AwaitTrigger, 1) && s.main == AwaitDone
  {
    s := Others(acts, s0, MainStep(EndUpdate));
    s := Others(acts, s, MainStep(WriteTrigger));
  }

  lemma {:induction false} FrameTurned(acts: seq<TaskAct>, s0: Sys) returns (s: Sys)
    requires Made(acts, s0) && Naps(s0, TASK_CONTINUE, AwaitTrigger, 1) && s0.main == AwaitDone
    ensures Made(acts, s) && Naps(s, TASK_CONTINUE, Signal, 0) && s.main == AwaitDone
  {
    s := Others(acts, s0, SchStep(ReadTrigger));
    s := Others(acts, s, SchStep(EndTable));
  }

  lemma {:induction false} FrameOver(acts: seq<TaskAct>, s0: Sys) returns (s: Sys)
    requires Made(acts, s0) && Naps(s0, TASK_CONTINUE, Signal, 0) && s0.main == AwaitDone
    ensures Made(acts, s) && Naps(s, TASK_CONTINUE, AwaitTrigger, 0) && s.main.Active?
  {
    s := Others(acts, s0, SchStep(WriteDone));
    s := Others(acts, s, MainStep(ReadDone));
    s := Others(acts, s, MainStep(Return));
  }

  lemma {:induction false} GoesOn(acts: seq<TaskAct>, s0: Sys) returns (acts': seq<TaskAct>, s: Sys)
    requires Made(acts, s0) && Naps(s0, TASK_CONTINUE, AwaitTrigger, 0) && s0.main.Active?
    ensures Made(acts', s) && Resting(s) && acts' == acts + [LeaveDelay]
  {
    acts', s := Go(acts, s0, TaskStep(0, LeaveDelay));
  }

  lemma {:induction false} SleepsOnce(acts: seq<TaskAct>, s0: Sys) returns (acts': seq<TaskAct>, s: Sys)
    requires Made(acts, s0) && Resting(s0)
    ensures Made(acts', s) && Resting(s) && acts' == acts + [Delay(0)] + [LeaveDelay]
  {
    acts', s := FallsAsleep(acts, s0);
    s := Woken(acts', s);
    s := FrameBegun(acts', s);
    s := FrameTurned(acts', s);
    s := FrameOver(acts', s);
    acts', s := GoesOn(acts', s);
  }

  lemma {:induction false} ActsPush(events: seq<QueueGet.Event>, e: QueueGet.Event)
    ensures ActsOf(events + [e], 0, A) == ActsOf(events, 0, A) + ActsOfOne(e, 0, A)
  {
    assert (events + [e])[..|events|] == events;
  }

  lemma {:induction false} ActsOfRounds(n: nat)
    requires n > 0
    ensures var before := ActsOf(QueueGet.Rounds(n - 1), 0, A);
            ActsOf(QueueGet.Rounds(n), 0, A)
            == (if n == 1 then [] else before + [Delay(0)] + [LeaveDelay]) + [EnterReceive(0, A)] + [FetchNothing]
  {
    var events := QueueGet.Rounds(n - 1);
    if n > 1 {
      ActsPush(events, QueueGet.Sleep);
      assert [Delay(0)] + [LeaveDelay] == ActsOfOne(QueueGet.Sleep, 0, A);
      events := events + [QueueGet.Sleep];
    }
    ActsPush(events, QueueGet.MarkComplete);
    ActsPush(events + [QueueGet.MarkComplete], QueueGet.Poll);
  }

  lemma {:induction false} RoundsMade(n: nat) returns (acts: seq<TaskAct>, s: Sys)
    requires n > 0
    ensures Made(acts, s) && Resting(s) && acts == ActsOf(QueueGet.Rounds(n), 0, A)
  {
    ActsOfRounds(n);
    if n == 1 {
      s := RestReached();
      acts := [];
    } else {
      acts, s := RoundsMade(n - 1);
      acts, s := SleepsOnce(acts, s);
    }
    acts, s := PollsOnce(acts, s);
  }

  /** For every number of polls there is a run in which the task performs that receive. */
  lemma {:induction false} FruitlessReceiveOccurs(polls: nat) returns (states: seq<Sys>, steps: seq<Step>)
    requires polls > 0
    ensures Performs(TWO_SITES, states, steps, 0, QueueGet.Rounds(polls), 0, A)
  {
    var acts, s := RoundsMade(polls);
    states, steps :| MadeBy(states, steps, acts, s);
  }
}
