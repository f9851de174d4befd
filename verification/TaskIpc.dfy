/** The per-task synchronisation record of TrickCFSInterface.

  `Ipc` is the value of one record. Each function below is one section that the
  program runs while it holds the record's mutex; a `pthread_cond_wait` ends a
  section, so a call that waits is two sections: the one that ends at the wait
  (its second result says that it waits) and `Resume`. The class `TaskIPC` at
  the end is the record as the program keeps it, with lists updated in place
  and searched by loops; its methods are proved against the functions.
 */
module TaskIpc {
  import opened Arithmetic

  type Mid = nat
  type Frame = int

  datatype TaskState = NONE | TASK_DELAY | MSG_RCV | TASK_RUNNING | TASK_COMPLETE | TASK_CONTINUE

  const SIZE_TRACE: nat := 10

  /** The frames that `backtrace` stored, innermost first. */
  datatype StackInfo = StackInfo(frames: seq<Frame>)

  datatype Ipc = Ipc(
    triggered: seq<Mid>,
    stacks: seq<StackInfo>,
    acknowledged: seq<Mid>,
    usRemaining: int,
    state: TaskState)

  const FRESH := Ipc([], [], [], -1, NONE)

  // ---- Call sites ----

  /** Equal depth, and equal frames from index 3 outwards. */
  predicate Matches(a: StackInfo, b: StackInfo) {
    && |a.frames| == |b.frames|
    && forall ii :: 3 <= ii < |a.frames| ==> a.frames[ii] == b.frames[ii]
  }

  /** The trace taken `own` (three frames) below the caller's frames `site`. */
  function Backtrace(own: seq<Frame>, site: seq<Frame>): StackInfo
    requires |own| == 3
  {
    var all := own + site;
    StackInfo(if |all| <= SIZE_TRACE then all else all[..SIZE_TRACE])
  }

  /** The part of a caller's frames that a trace has room for. */
  function Visible(site: seq<Frame>): seq<Frame> {
    if |site| <= SIZE_TRACE - 3 then site else site[..SIZE_TRACE - 3]
  }

  /** Whatever three frames lie below them, two traces match exactly when their callers agree on every
      frame that fits, so a trace taken while acknowledging can be found again while completing. */
  lemma {:induction false} MatchIsSameCaller(own: seq<Frame>, site: seq<Frame>, own': seq<Frame>, site': seq<Frame>)
    requires |own| == |own'| == 3
    ensures Matches(Backtrace(own, site), Backtrace(own', site')) <==> Visible(site) == Visible(site')
  {
    var a, b := Backtrace(own, site).frames, Backtrace(own', site').frames;
    assert a[3..] == Visible(site);
    assert b[3..] == Visible(site');
    forall ii | 3 <= ii < |a| && |a| == |b| ensures a[ii] == Visible(site)[ii - 3] && b[ii] == Visible(site')[ii - 3] {}
    assert Matches(Backtrace(own, site), Backtrace(own', site')) ==> Visible(site) == Visible(site');
  }

  /** A trace has room for seven of the caller's frames: callers that agree on those are the same to it, and
      callers that differ in one of those are not. */
  lemma {:induction false} SevenFramesCount(own: seq<Frame>, site: seq<Frame>, own': seq<Frame>, site': seq<Frame>)
    requires |own| == |own'| == 3 && |site| >= 7 && |site'| >= 7
    ensures Matches(Backtrace(own, site), Backtrace(own', site')) <==> forall i :: 0 <= i < 7 ==> site[i] == site'[i]
  {
    MatchIsSameCaller(own, site, own', site');
    assert Visible(site) == site[..7] && Visible(site') == site'[..7];
    assert site[..7] == site'[..7] <==> forall i :: 0 <= i < 7 ==> site[i] == site'[i];
  }

  /** No two open receipts were opened at matching call sites. */
  ghost predicate Distinct(stacks: seq<StackInfo>) {
    forall i, j :: 0 <= i < j < |stacks| ==> !Matches(stacks[i], stacks[j])
  }

  /** None of the first `n` receipts matches. */
  ghost predicate NoneMatches(stacks: seq<StackInfo>, n: nat, trace: StackInfo)
    requires n <= |stacks|
  {
    forall i :: 0 <= i < n ==> !Matches(trace, stacks[i])
  }

  // ---- List searches ----

  /** Where `std::find` stops: the first occurrence, or the length. */
  function Find(xs: seq<Mid>, x: Mid): (i: nat)
    ensures i <= |xs|
    ensures i < |xs| ==> xs[i] == x
    ensures forall j :: 0 <= j < i ==> xs[j] != x
    ensures i < |xs| <==> x in xs
  {
    if xs == [] || xs[0] == x then 0 else Find(xs[1..], x) + 1
  }

  function FindMatch(stacks: seq<StackInfo>, trace: StackInfo): (i: nat)
    ensures i <= |stacks|
    ensures i < |stacks| ==> Matches(trace, stacks[i])
    ensures NoneMatches(stacks, i, trace)
  {
    if stacks == [] || Matches(trace, stacks[0]) then 0 else FindMatch(stacks[1..], trace) + 1
  }

  function Erase<T>(xs: seq<T>, i: nat): (r: seq<T>)
    ensures i >= |xs| ==> r == xs
    ensures i < |xs| ==> |r| == |xs| - 1 && multiset(r) == multiset(xs) - multiset{xs[i]}
  {
    if i < |xs| then
      assert xs == xs[..i] + [xs[i]] + xs[i + 1..];
      xs[..i] + xs[i + 1..]
    else xs
  }

  // ---- Sections run by the task ----

  /** addTaskDelay up to its wait. In perfect mode a task that still has triggers does not sleep. */
  function DelaySection(perfect: bool, s: Ipc, msIn: nat): (Ipc, bool) {
    if perfect && |s.triggered| > 0 then (s.(usRemaining := -1), false)
    else (s.(state := TASK_DELAY, usRemaining := msIn), true)
  }

  /** `acknowledged.back()` is read whenever a receipt is open; reading it from an empty list has no
      defined meaning. */
  predicate CompleteDefined(s: Ipc) {
    s.stacks != [] ==> s.acknowledged != []
  }

  /** markPipeAsComplete up to its wait. */
  function CompleteSection(perfect: bool, s: Ipc, trace: StackInfo): (Ipc, bool)
    requires CompleteDefined(s)
  {
    if s.stacks == [] then (s.(state := TASK_RUNNING), false)
    else
      var last := |s.acknowledged| - 1;
      var at := Find(s.triggered, s.acknowledged[last]);
      var s1 := if at < |s.triggered|
                then s.(triggered := Erase(s.triggered, at), acknowledged := s.acknowledged[..last])
                else s;
      var m := FindMatch(s.stacks, trace);
      if m < |s.stacks| then (s1.(stacks := Erase(s.stacks, m), state := TASK_COMPLETE), perfect)
      else (s1.(state := TASK_RUNNING), false)
  }

  /** acknowledgePipeTrigger up to its wait. */
  function AckSection(perfect: bool, s: Ipc, mid: Mid, trace: StackInfo): (Ipc, bool) {
    if mid in s.triggered then
      (s.(stacks := s.stacks + [trace], acknowledged := s.acknowledged + [mid],
          state := if perfect then MSG_RCV else TASK_RUNNING), perfect)
    else (s.(state := TASK_RUNNING), false)
  }

  /** What follows every wait once it has seen TASK_CONTINUE. */
  function Resume(s: Ipc): Ipc { s.(state := TASK_RUNNING) }

  // ---- Sections run by the Trick main thread and by SCH ----

  /** One task of updateTaskTimes. */
  function Tick(s: Ipc, cycleTics: int): Ipc {
    if s.state != TASK_DELAY then s
    else if s.usRemaining - cycleTics <= 0 then s.(usRemaining := -1, state := TASK_CONTINUE)
    else s.(usRemaining := s.usRemaining - cycleTics)
  }

  function MarkSection(s: Ipc, mid: Mid): Ipc { s.(triggered := s.triggered + [mid]) }

  /** What one turn of the visit loop of signalMainAppComplete did. */
  datatype Effect = Nothing | WokeSleeper | ReleasedReceipt | CountedCompletion

  function PollSection(s: Ipc, numTriggers: nat, reqTriggers: nat): (Ipc, Effect) {
    match s.state
    case TASK_DELAY => (s.(state := TASK_CONTINUE), WokeSleeper)
    case MSG_RCV =>
      if numTriggers != reqTriggers then (s.(state := TASK_CONTINUE), ReleasedReceipt) else (s, Nothing)
    case TASK_COMPLETE => (s.(state := TASK_CONTINUE), CountedCompletion)
    case _ => (s, Nothing)
  }

  /** The test with which the Trick main thread passes a task over. */
  predicate Settled(s: Ipc) {
    s.state == TASK_DELAY || (|s.triggered| == 0 && |s.stacks| == 0)
  }

  // ---- What closing a receipt does ----

  /** Removing the first match removes the only one: afterwards no open receipt matches, and the others
      are still pairwise apart. */
  lemma {:induction false} CloseReceipt(stacks: seq<StackInfo>, trace: StackInfo)
    requires Distinct(stacks)
    ensures var rest := Erase(stacks, FindMatch(stacks, trace));
            Distinct(rest) && NoneMatches(rest, |rest|, trace)
            && (forall x :: x in rest ==> x in stacks)
  {
    var m := FindMatch(stacks, trace);
    var rest := Erase(stacks, m);
    if m < |stacks| {
      forall i | 0 <= i < |rest| ensures !Matches(trace, rest[i]) && rest[i] in stacks {
        if m <= i {
          assert !Matches(stacks[m], stacks[i + 1]);
        }
      }
    }
  }

  // ---- Simulated time ----

  function Sum(cycles: seq<int>): int {
    if cycles == [] then 0 else Sum(cycles[..|cycles| - 1]) + cycles[|cycles| - 1]
  }

  function Ticks(s: Ipc, cycles: seq<int>): Ipc {
    if cycles == [] then s else Tick(Ticks(s, cycles[..|cycles| - 1]), cycles[|cycles| - 1])
  }

  /** A sleeper with `d` left is still asleep after a history of updates exactly when no non-empty prefix
      of the history has reached `d`, and until then its remainder is what is missing; it is released
      once, by the first update that reaches `d`. */
  lemma {:induction false} SleepsUntilReached(s: Ipc, cycles: seq<int>)
    requires s.state == TASK_DELAY
    ensures var r := Ticks(s, cycles);
            var reached := exists k :: 0 < k <= |cycles| && Sum(cycles[..k]) >= s.usRemaining;
            if reached then r == s.(state := TASK_CONTINUE, usRemaining := -1)
            else r == s.(usRemaining := s.usRemaining - Sum(cycles))
  {
    if cycles != [] {
      var n := |cycles|;
      var before := cycles[..n - 1];
      SleepsUntilReached(s, before);
      assert cycles[..n] == cycles;
      forall k | 0 < k <= n - 1 ensures before[..k] == cycles[..k] {}
      if k :| 0 < k <= n - 1 && Sum(before[..k]) >= s.usRemaining {
        assert Sum(cycles[..k]) >= s.usRemaining;
      } else if Sum(cycles) >= s.usRemaining {
        assert Sum(cycles[..n]) >= s.usRemaining;
      }
    }
  }

  /** With positive cycles the reaching update is unique: update number `k` is the one that releases a
      delay of `d` exactly when the updates before it fall short of `d` and it does not, or when it is
      the very first and `d` is not positive. */
  lemma {:induction false} ReleasingUpdate(s: Ipc, cycles: seq<int>, k: nat)
    requires s.state == TASK_DELAY
    requires forall i :: 0 <= i < |cycles| ==> cycles[i] > 0
    requires 0 < k <= |cycles|
    ensures (Ticks(s, cycles[..k - 1]).state == TASK_DELAY && Ticks(s, cycles[..k]).state == TASK_CONTINUE)
       <==> (Sum(cycles[..k]) >= s.usRemaining && (k == 1 || Sum(cycles[..k - 1]) < s.usRemaining))
  {
    ReachedByTheLast(cycles[..k - 1], s.usRemaining);
    ReachedByTheLast(cycles[..k], s.usRemaining);
    SleepsUntilReached(s, cycles[..k - 1]);
    SleepsUntilReached(s, cycles[..k]);
  }

  lemma {:induction false} ReachedByTheLast(cycles: seq<int>, d: int)
    requires forall i :: 0 <= i < |cycles| ==> cycles[i] > 0
    ensures (exists k :: 0 < k <= |cycles| && Sum(cycles[..k]) >= d) <==> cycles != [] && Sum(cycles) >= d
  {
    assert cycles[..|cycles|] == cycles;
    forall j | 0 < j <= |cycles| ensures Sum(cycles[..j]) <= Sum(cycles) {
      SumGrows(cycles, j, |cycles|);
    }
  }

  lemma {:induction false} SumGrows(cycles: seq<int>, j: nat, k: nat)
    requires j <= k <= |cycles|
    requires forall i :: 0 <= i < |cycles| ==> cycles[i] > 0
    ensures Sum(cycles[..j]) <= Sum(cycles[..k])
    decreases k
  {
    if j < k {
      SumGrows(cycles, j, k - 1);
      assert cycles[..k][..k - 1] == cycles[..k - 1];
    }
  }

  // ---- Delays of a simulation with a fixed frame ----

  /** `n` updates of `r` tics each. */
  function Frames(r: nat, n: nat): seq<int> { seq(n, _ => r) }

  lemma {:induction false} SumOfFrames(r: nat, n: nat)
    ensures Sum(Frames(r, n)) == n * r
  {
    if n > 0 {
      assert Frames(r, n)[..n - 1] == Frames(r, n - 1);
      SumOfFrames(r, n - 1);
      MulSucc(n, r);
    }
  }

  /** Update number `k` releases the sleeper. */
  ghost predicate ReleasedBy(s: Ipc, r: nat, k: nat) {
    k > 0 && Ticks(s, Frames(r, k - 1)).state == TASK_DELAY && Ticks(s, Frames(r, k)).state == TASK_CONTINUE
  }

  /** The updates that a delay of `d` takes. */
  function FramesNeeded(d: nat, r: nat): int
    requires r > 0
  {
    if d == 0 then 1 else CeilDiv(d, r)
  }

  /** A delay of d is released by update number ceil(d / r), and a delay of 0 by the first. */
  lemma {:induction false} ReleasedAfter(s: Ipc, r: nat, k: nat)
    requires s.state == TASK_DELAY && s.usRemaining >= 0 && r > 0
    ensures ReleasedBy(s, r, k) <==> k == FramesNeeded(s.usRemaining, r)
  {
    var d := s.usRemaining;
    if k > 0 {
      assert Frames(r, k)[..k - 1] == Frames(r, k - 1) && Frames(r, k)[..k] == Frames(r, k);
      ReleasingUpdate(s, Frames(r, k), k);
      SumOfFrames(r, k);
      SumOfFrames(r, k - 1);
      MulMono(0, k - 1, r);
    }
    if d > 0 {
      CeilDivIs(d, r, k);
    }
  }

  /** The tics of `n` frames amount to at least `ms` milliseconds. */
  predicate Passed(r: nat, n: nat, ms: nat, ticsPerSec: nat) { n * r * 1000 >= ms * ticsPerSec }

  /** Update number `n` is the first by which `ms` milliseconds have passed. */
  ghost predicate RightUpdate(r: nat, n: nat, ms: nat, ticsPerSec: nat) {
    n > 0 && forall j: nat :: 0 < j <= n ==> (Passed(r, j, ms, ticsPerSec) <==> j == n)
  }

  /** The remainder is set in milliseconds and reduced in tics. So with frames of r tics a delay of d
      milliseconds ends after n = ceil(d / r) updates (1 for d = 0) whatever a tic is, and that is the right
      update if and only if n frames are long enough and n - 1 are not. The latter is no condition when a
      tic is at most a millisecond: then a delay can only end too early. */
  lemma {:induction false} DelayKeepsTime(s: Ipc, r: nat, ticsPerSec: nat)
    requires s.state == TASK_DELAY && s.usRemaining >= 0 && r > 0
    ensures var d, n := s.usRemaining, FramesNeeded(s.usRemaining, r);
            && n > 0 && ReleasedBy(s, r, n)
            && (RightUpdate(r, n, d, ticsPerSec)
                <==> n * r * 1000 >= d * ticsPerSec && (n == 1 || (n - 1) * r * 1000 < d * ticsPerSec))
            && (ticsPerSec >= 1000 ==> (RightUpdate(r, n, d, ticsPerSec) <==> n * r * 1000 >= d * ticsPerSec))
  {
    var d, n := s.usRemaining, FramesNeeded(s.usRemaining, r);
    if d > 0 {
      CeilDivIs(d, r, n);
      if n <= 0 {
        MulMono(n, 0, r);
      }
    }
    ReleasedAfter(s, r, n);
    IsRightUpdate(r, n, d, ticsPerSec);
    if n > 1 && ticsPerSec >= 1000 {
      Scales((n - 1) * r, d, ticsPerSec);
    }
  }

  lemma {:induction false} IsRightUpdate(r: nat, n: nat, ms: nat, ticsPerSec: nat)
    requires n > 0
    ensures RightUpdate(r, n, ms, ticsPerSec)
       <==> n * r * 1000 >= ms * ticsPerSec && (n == 1 || (n - 1) * r * 1000 < ms * ticsPerSec)
  {
    assert Passed(r, n, ms, ticsPerSec) <==> n * r * 1000 >= ms * ticsPerSec;
    if n > 1 {
      assert Passed(r, n - 1, ms, ticsPerSec) <==> (n - 1) * r * 1000 >= ms * ticsPerSec;
      if !Passed(r, n - 1, ms, ticsPerSec) {
        forall j: nat | 0 < j < n ensures !Passed(r, j, ms, ticsPerSec) {
          MulMono(j, n - 1, r);
        }
      }
    }
  }

  lemma {:induction false} Scales(a: int, b: int, ticsPerSec: nat)
    requires a < b && 0 <= b && 1000 <= ticsPerSec
    ensures a * 1000 < b * ticsPerSec
  {
    assert b * 1000 <= b * ticsPerSec;
  }

  /** With a million tics in a second, a delay of 500 ms is over after one frame of 10 ms. */
  lemma {:induction false} HalfASecondIsOneFrame(s: Ipc)
    requires s.state == TASK_DELAY && s.usRemaining == 500
    ensures ReleasedBy(s, 10000, 1) && !Passed(10000, 1, 500, 1000000) && !RightUpdate(10000, 1, 500, 1000000)
  {
    DivIs(10499, 10000, 1);
    DelayKeepsTime(s, 10000, 1000000);
  }

  // ---- The record as the program keeps it ----

  class TaskIPC {
    var triggeredMIDs: seq<Mid>
    var stacks: seq<StackInfo>
    var acknowledgedMIDs: seq<Mid>
    var usRemaining: int
    var state: TaskState

    function View(): Ipc
      reads this
    {
      Ipc(triggeredMIDs, stacks, acknowledgedMIDs, usRemaining, state)
    }

    constructor ()
      ensures View() == FRESH
    {
      triggeredMIDs, stacks, acknowledgedMIDs, usRemaining, state := [], [], [], -1, NONE;
    }

    /** addTaskDelay, when nothing but updates happens to the task meanwhile: `cycles` are those that Trick
        main makes from here on. The call returns at the update that is the first to reach the delay, or at
        once in perfect mode if there are triggers; otherwise it is still waiting, with the missing
        remainder, when all of `cycles` have been made. */
    method AddTaskDelay(perfect: bool, msIn: nat, cycles: seq<int>) returns (returned: bool, updates: nat)
      modifies this
      ensures View() == old(View()).(state := state, usRemaining := usRemaining) && updates <= |cycles|
      ensures if perfect && old(triggeredMIDs) != [] then
                returned && updates == 0 && state == old(state) && usRemaining == -1
              else
                && (forall k :: 0 < k <= updates && (returned ==> k < updates) ==> Sum(cycles[..k]) < msIn)
                && (if returned then state == TASK_RUNNING && updates > 0 && Sum(cycles[..updates]) >= msIn
                    else updates == |cycles| && state == TASK_DELAY && usRemaining == msIn - Sum(cycles))
    {
      updates := 0;
      var waits := BeginDelay(perfect, msIn);
      if !waits {
        return true, 0;
      }
      ghost var asleep := View();
      assert cycles[..0] == [];
      while state != TASK_CONTINUE
        invariant updates <= |cycles| && View() == Ticks(asleep, cycles[..updates])
        invariant state in {TASK_DELAY, TASK_CONTINUE} && (state == TASK_CONTINUE ==> updates > 0)
        invariant forall k :: 0 < k < updates ==> Sum(cycles[..k]) < msIn
        invariant if state == TASK_DELAY then usRemaining == msIn - Sum(cycles[..updates])
                  else Sum(cycles[..updates]) >= msIn
        invariant state == TASK_DELAY && updates > 0 ==> Sum(cycles[..updates]) < msIn
        invariant View() == asleep.(state := state, usRemaining := usRemaining)
        decreases |cycles| - updates, state != TASK_CONTINUE
      {
        if updates == |cycles| {
          assert cycles[..updates] == cycles;
          return false, updates;
        }
        assert cycles[..updates + 1][..updates] == cycles[..updates];
        UpdateTime(cycles[updates]);
        updates := updates + 1;
      }
      state := TASK_RUNNING;
      returned := true;
    }

    /** The section before the wait. Returns whether there is one. */
    method BeginDelay(perfect: bool, msIn: nat) returns (waits: bool)
      modifies this
      ensures (View(), waits) == DelaySection(perfect, old(View()), msIn)
    {
      if perfect && |triggeredMIDs| > 0 {
        usRemaining := -1;
        waits := false;
      } else {
        state := TASK_DELAY;
        usRemaining := msIn;
        waits := true;
      }
    }

    method UpdateTime(cycleTics: int)
      modifies this
      ensures View() == Tick(old(View()), cycleTics)
    {
      if state == TASK_DELAY {
        usRemaining := usRemaining - cycleTics;
        if usRemaining <= 0 {
          usRemaining := -1;
          state := TASK_CONTINUE;
        }
      }
    }

    method MarkTriggered(mid: Mid)
      modifies this
      ensures View() == MarkSection(old(View()), mid)
    {
      triggeredMIDs := triggeredMIDs + [mid];
    }

    method Poll(numTriggers: nat, reqTriggers: nat) returns (effect: Effect)
      modifies this
      ensures (View(), effect) == PollSection(old(View()), numTriggers, reqTriggers)
    {
      effect := Nothing;
      if state == TASK_DELAY {
        state := TASK_CONTINUE;
        effect := WokeSleeper;
      } else if state == MSG_RCV {
        if numTriggers != reqTriggers {
          state := TASK_CONTINUE;
          effect := ReleasedReceipt;
        }
      } else if state == TASK_COMPLETE {
        state := TASK_CONTINUE;
        effect := CountedCompletion;
      }
    }

    method AcknowledgePipeTrigger(perfect: bool, mid: Mid, trace: StackInfo) returns (waits: bool)
      modifies this
      ensures (View(), waits) == AckSection(perfect, old(View()), mid, trace)
      // only a triggered id opens a receipt, at the end of both lists, and only perfect mode waits for it
      ensures waits == (perfect && mid in triggeredMIDs) && triggeredMIDs == old(triggeredMIDs)
      ensures state == if waits then MSG_RCV else TASK_RUNNING
      ensures stacks == old(stacks) + (if mid in triggeredMIDs then [trace] else [])
      ensures acknowledgedMIDs == old(acknowledgedMIDs) + (if mid in triggeredMIDs then [mid] else [])
    {
      var it := FindMid(triggeredMIDs, mid);
      waits := false;
      if it != |triggeredMIDs| {
        stacks := stacks + [trace];
        acknowledgedMIDs := acknowledgedMIDs + [mid];
        if perfect {
          state := MSG_RCV;
          waits := true;
        } else {
          state := TASK_RUNNING;
        }
      } else {
        state := TASK_RUNNING;
      }
    }

    method MarkPipeAsComplete(perfect: bool, trace: StackInfo) returns (waits: bool)
      requires CompleteDefined(View())
      modifies this
      ensures (View(), waits) == CompleteSection(perfect, old(View()), trace)
      // without receipts nothing is completed; with some, the latest acknowledged id, if it is triggered, goes
      // from both lists, and the receipt of this site, if there is one, is closed and reported
      ensures old(stacks) == [] ==> triggeredMIDs == old(triggeredMIDs) && acknowledgedMIDs == old(acknowledgedMIDs)
      ensures old(stacks) != [] ==>
                var last := |old(acknowledgedMIDs)| - 1;
                var mid := old(acknowledgedMIDs)[last];
                if mid in old(triggeredMIDs) then
                  && acknowledgedMIDs == old(acknowledgedMIDs)[..last]
                  && multiset(triggeredMIDs) == multiset(old(triggeredMIDs)) - multiset{mid}
                else triggeredMIDs == old(triggeredMIDs) && acknowledgedMIDs == old(acknowledgedMIDs)
      ensures if NoneMatches(old(stacks), |old(stacks)|, trace) then
                stacks == old(stacks) && state == TASK_RUNNING && !waits
              else |stacks| == |old(stacks)| - 1 && state == TASK_COMPLETE && waits == perfect
    {
      waits := false;
      if |stacks| > 0 {
        var it := FindMid(triggeredMIDs, acknowledgedMIDs[|acknowledgedMIDs| - 1]);
        if it != |triggeredMIDs| {
          triggeredMIDs := triggeredMIDs[..it] + triggeredMIDs[it + 1..];
          acknowledgedMIDs := acknowledgedMIDs[..|acknowledgedMIDs| - 1];
        }
        var prevSize := |stacks|;
        var m := FindReceipt(stacks, trace);
        if m != |stacks| {
          stacks := stacks[..m] + stacks[m + 1..];
        }
        if |stacks| != prevSize {
          state := TASK_COMPLETE;
          waits := perfect;
        } else {
          state := TASK_RUNNING;
        }
      } else {
        state := TASK_RUNNING;
      }
    }
  }

  method FindMid(xs: seq<Mid>, x: Mid) returns (it: nat)
    ensures it == Find(xs, x)
  {
    it := 0;
    while it < |xs| && xs[it] != x
      invariant it <= |xs|
      invariant forall j :: 0 <= j < it ==> xs[j] != x
    {
      it := it + 1;
    }
  }

  method FindReceipt(stacks: seq<StackInfo>, trace: StackInfo) returns (m: nat)
    ensures m == FindMatch(stacks, trace)
  {
    m := 0;
    while m < |stacks|
      invariant m <= |stacks|
      invariant NoneMatches(stacks, m, trace)
    {
      var found := SameSite(trace, stacks[m]);
      if found {
        break;
      }
      m := m + 1;
    }
  }

  /** The frame-by-frame comparison, which leaves at the first difference. */
  method SameSite(curr: StackInfo, stack: StackInfo) returns (found: bool)
    ensures found == Matches(curr, stack)
  {
    found := true;
    if |curr.frames| == |stack.frames| {
      var ii := 3;
      while ii < |curr.frames| && found
        invariant 3 <= ii
        invariant found ==> forall k :: 3 <= k < ii && k < |curr.frames| ==> curr.frames[k] == stack.frames[k]
        invariant !found ==> !Matches(curr, stack)
      {
        if curr.frames[ii] != stack.frames[ii] {
          found := false;
        }
        ii := ii + 1;
      }
    } else {
      found := false;
    }
  }
}
