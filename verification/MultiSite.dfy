/** Runs that lead to where the conditions of other modules fail.

  A task that polls a second pipe while the receipt of the first is open takes the acknowledged id away from
  that receipt: the condition of `Tracking.BackReadUndefined` occurs, and in perfect mode SCH's visit hangs.
  So it does when a full queue drops the message that the task was triggered for.
 */
module MultiSite {
  import opened TaskIpc
  import opened Handshake
  import Tracking
  import Progress

  /** From any reachable state in which a working task holds one receipt, in whichever mode: a poll of
      another of its call sites that brings nothing leaves the task where its next receive, from any
      site, reads `back()` of an empty list. */
  lemma {:induction false} PollingElsewhereBreaks(c: Config, s: Sys, t: nat, pipe: Pipe, site: Site)
    requires Reachable(c, s) && Enabled(c, s, TaskStep(t, EnterReceive(pipe, site)))
    requires |s.tasks[t].ipc.stacks| == 1 && !Matches(CompleteTrace(site), s.tasks[t].ipc.stacks[0])
    ensures var s1 := Apply(c, s, TaskStep(t, EnterReceive(pipe, site)));
            Enabled(c, s1, TaskStep(t, FetchNothing))
            && var s2 := Apply(c, s1, TaskStep(t, FetchNothing));
            Reachable(c, s2) && s2.tasks[t].pc == Working && !CompleteDefined(s2.tasks[t].ipc)
  {
    var enter, nothing := TaskStep(t, EnterReceive(pipe, site)), TaskStep(t, FetchNothing);
    var s1 := Apply(c, s, enter);
    Tracking.ReceiptsOf(c, s, t);
    Extend(c, s, enter);
    assert FindMatch(s.tasks[t].ipc.stacks, CompleteTrace(site)) == 1;
    assert s1.tasks[t].ipc.stacks == s.tasks[t].ipc.stacks && s1.tasks[t].foreign == 1;
    var s2 := Apply(c, s1, nothing);
    Extend(c, s1, nothing);
    Tracking.BackReadUndefined(c, s2, t);
  }

  // ---- Such a state is reached ----

  const A: Site := [7]
  const B: Site := [8]
  /** One task, which owns one pipe and receives from it at two call sites; SCH sends the id 5. */
  const TWO_SITES := Config(false, [1], [0], [{A, B}], {5})

  /** The first frame has begun: SCH is at its table and the task has done nothing yet. */
  predicate AtFirstTable(s: Sys) {
    && |s.tasks| == |s.queues| == 1 && s.tasks[0].ipc == FRESH && s.tasks[0].pc == Working && s.tasks[0].foreign == 0
    && s.queues[0] == [] && s.sch == Table && s.registered <= 1
  }

  lemma {:induction false} FirstTableReached() returns (s: Sys)
    ensures Reachable(TWO_SITES, s) && AtFirstTable(s)
  {
    s := Init(TWO_SITES);
    assert Reaches(TWO_SITES, [], s);
    s := Play(s, SchStep(WriteDone));
    s := Play(s, MainStep(ReadDone));
    s := Play(s, MainStep(Return));
    s := Play(s, MainStep(BeginUpdate(1)));
    s := Play(s, MainStep(UpdateOne));
    s := Play(s, MainStep(EndUpdate));
    s := Play(s, MainStep(WriteTrigger));
    s := Play(s, SchStep(ReadTrigger));
  }

  lemma {:induction false} Play(s: Sys, step: Step) returns (s': Sys)
    requires Reachable(TWO_SITES, s) && Enabled(TWO_SITES, s, step)
    ensures Reachable(TWO_SITES, s') && s' == Apply(TWO_SITES, s, step)
  {
    Extend(TWO_SITES, s, step);
    s' := Apply(TWO_SITES, s, step);
  }

  lemma {:induction false} MessageDelivered(s0: Sys) returns (s: Sys)
    requires Reachable(TWO_SITES, s0) && AtFirstTable(s0)
    ensures Reachable(TWO_SITES, s) && |s.tasks| == |s.queues| == 1 && s.registered <= 1
    ensures s.tasks[0].ipc == MarkSection(FRESH, 5) && s.tasks[0].pc == Working && s.tasks[0].foreign == 0
    ensures s.queues[0] == [5]
  {
    s := Play(s0, SchStep(Send(5, [0])));
    s := Play(s, SchStep(Mark));
    s := Play(s, SchStep(AllMarked));
    s := Play(s, SchStep(Deliver(true)));
  }

  /** The task fetches the message at A, polls B in vain, and is then stuck with an open receipt and no
      acknowledged id. */
  lemma {:induction false} BackReadUndefinedReached() returns (s: Sys)
    ensures Reachable(TWO_SITES, s) && |s.tasks| == 1 && !CompleteDefined(s.tasks[0].ipc)
  {
    s := FirstTableReached();
    s := MessageDelivered(s);
    s := Play(s, TaskStep(0, EnterReceive(0, A)));
    s := Play(s, TaskStep(0, Fetch));
    s := Play(s, TaskStep(0, Acknowledge));
    assert s.tasks[0].ipc.stacks == [AckTrace(A)];
    MatchIsSameCaller(COMPLETE_FRAMES, B, ACK_FRAMES, A);
    PollingElsewhereBreaks(TWO_SITES, s, 0, 0, B);
    s := Play(s, TaskStep(0, EnterReceive(0, B)));
    s := Play(s, TaskStep(0, FetchNothing));
  }

  // ---- In perfect mode ----

  const PERFECT := TWO_SITES.(perfect := true)

  lemma {:induction false} Do(s: Sys, step: Step) returns (s': Sys)
    requires Reachable(PERFECT, s) && Enabled(PERFECT, s, step)
    ensures Reachable(PERFECT, s') && s' == Apply(PERFECT, s, step)
  {
    Extend(PERFECT, s, step);
    s' := Apply(PERFECT, s, step);
  }

  predicate AtPerfectTable(s: Sys) {
    && |s.tasks| == |s.queues| == 1 && s.tasks[0] == Task(FRESH, Working, multiset{}, multiset{}, 0)
    && s.queues[0] == [] && s.sch == Table && s.registered <= 1 && s.perfectFDMap == [] && s.refused == multiset{}
  }

  lemma {:induction false} PerfectTableReached() returns (s: Sys)
    ensures Reachable(PERFECT, s) && AtPerfectTable(s)
  {
    s := Init(PERFECT);
    assert Reaches(PERFECT, [], s);
    s := Do(s, SchStep(EndVisits));
    s := Do(s, SchStep(WriteDone));
    s := Do(s, MainStep(ReadDone));
    s := Do(s, MainStep(BeginUpdate(1)));
    s := Do(s, MainStep(UpdateOne));
    s := Do(s, MainStep(EndUpdate));
    s := Do(s, MainStep(WriteTrigger));
    s := Do(s, SchStep(ReadTrigger));
  }

  /** The marked task, with SCH at `sch`. */
  predicate Marks(s: Sys, sch: SchPc) {
    && |s.tasks| == |s.queues| == 1 && s.registered <= 1
    && s.sch == sch && s.perfectFDMap == [MapEntry(1, 0)] && s.tasks[0].foreign == 0
  }

  lemma {:induction false} MarkedInPerfect(s0: Sys) returns (s: Sys)
    requires Reachable(PERFECT, s0) && AtPerfectTable(s0)
    ensures Reachable(PERFECT, s) && Marks(s, Marking(5, [0], 1)) && s.refused == multiset{}
    ensures s.tasks[0].ipc == MarkSection(FRESH, 5) && s.tasks[0].pc == Working && s.queues[0] == []
  {
    s := Do(s0, SchStep(Send(5, [0])));
    s := Do(s, SchStep(Mark));
    assert Insert([], MapEntry(1, 0)) == [MapEntry(1, 0)];
  }

  /** SCH has begun to visit the task, whose queue has taken the message or dropped it. */
  lemma {:induction false} VisitReached(accepted: bool) returns (s: Sys)
    ensures Reachable(PERFECT, s) && Marks(s, Visiting(0, 1, 0, 0, 0))
    ensures s.tasks[0].ipc == MarkSection(FRESH, 5) && s.tasks[0].pc == Working
    ensures if accepted then s.queues[0] == [5] && s.refused == multiset{} else Refusal(0, 5) in s.refused
  {
    s := PerfectTableReached();
    s := MarkedInPerfect(s);
    s := Do(s, SchStep(AllMarked));
    s := Do(s, SchStep(Deliver(accepted)));
    s := Do(s, SchStep(Sent));
    s := Do(s, SchStep(EndTable));
    s := Do(s, SchStep(StartVisit));
  }

  lemma {:induction false} MessageFetched(s0: Sys) returns (s: Sys)
    requires Reachable(PERFECT, s0) && Marks(s0, Visiting(0, 1, 0, 0, 0))
    requires s0.tasks[0].ipc == MarkSection(FRESH, 5) && s0.tasks[0].pc == Working && s0.queues[0] == [5]
    ensures Reachable(PERFECT, s) && Marks(s, Visiting(0, 1, 0, 0, 0)) && s.refused == s0.refused
    ensures s.tasks[0].pc == Fetched(5, A) && s.tasks[0].ipc == MarkSection(FRESH, 5).(state := TASK_RUNNING)
  {
    s := Do(s0, TaskStep(0, EnterReceive(0, A)));
    s := Do(s, TaskStep(0, Fetch));
  }

  lemma {:induction false} ReceiptWaits(s0: Sys) returns (s: Sys)
    requires Reachable(PERFECT, s0) && Marks(s0, Visiting(0, 1, 0, 0, 0))
    requires s0.tasks[0].ipc == MarkSection(FRESH, 5) && s0.tasks[0].pc == Working && s0.queues[0] == [5]
    ensures Reachable(PERFECT, s) && Marks(s, Visiting(0, 1, 0, 0, 0)) && s.refused == s0.refused
    ensures s.tasks[0].pc == InAck && s.tasks[0].ipc == Ipc([5], [AckTrace(A)], [5], -1, MSG_RCV)
  {
    s := MessageFetched(s0);
    s := Do(s, TaskStep(0, Acknowledge));
  }

  lemma {:induction false} ReceiptReleased(s0: Sys) returns (s: Sys)
    requires Reachable(PERFECT, s0) && Marks(s0, Visiting(0, 1, 0, 0, 0))
    requires s0.tasks[0].pc == InAck && s0.tasks[0].ipc == Ipc([5], [AckTrace(A)], [5], -1, MSG_RCV)
    ensures Reachable(PERFECT, s) && Marks(s, Visiting(0, 1, 1, 0, 0)) && s.refused == s0.refused
    ensures s.tasks[0].pc == Working && s.tasks[0].ipc == Ipc([5], [AckTrace(A)], [5], -1, TASK_RUNNING)
  {
    s := Do(s0, SchStep(Poll));
    s := Do(s, TaskStep(0, LeaveAck));
  }

  lemma {:induction false} PolledElsewhere(s0: Sys) returns (s: Sys)
    requires Reachable(PERFECT, s0) && Marks(s0, Visiting(0, 1, 1, 0, 0))
    requires s0.tasks[0].pc == Working && s0.tasks[0].ipc == Ipc([5], [AckTrace(A)], [5], -1, TASK_RUNNING)
    ensures Reachable(PERFECT, s) && Progress.Hangs(PERFECT, s, 0) && s.refused == s0.refused
  {
    MatchIsSameCaller(COMPLETE_FRAMES, B, ACK_FRAMES, A);
    assert FindMatch(s0.tasks[0].ipc.stacks, CompleteTrace(B)) == 1;
    s := Do(s0, TaskStep(0, EnterReceive(0, B)));
  }

  /** The task fetches the message at A, is released, and polls B: the visit hangs, though no message was
      dropped. */
  lemma {:induction false} ForeignPollHangs() returns (s: Sys)
    ensures Reachable(PERFECT, s) && Progress.Hangs(PERFECT, s, 0) && s.refused == multiset{}
  {
    s := VisitReached(true);
    s := ReceiptWaits(s);
    s := ReceiptReleased(s);
    s := PolledElsewhere(s);
  }

  /** The task's queue is full when SCH sends: the visit hangs from its beginning, though the task has polled
      nothing. */
  lemma {:induction false} FullQueueHangs() returns (s: Sys)
    ensures Reachable(PERFECT, s) && Progress.Hangs(PERFECT, s, 0) && s.tasks[0].foreign == 0
  {
    s := VisitReached(false);
  }
}
