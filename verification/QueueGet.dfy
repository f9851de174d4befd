/** OS_QueueGet_Impl: complete, receive, acknowledge, and the polling loop of a finite timeout.

  The answers of the queue, which other threads fill meanwhile, are given by the number of the poll.
 */
module QueueGet {
  import opened Arithmetic
  import opened MessageQueue
  import SchLabScheduler

  const OS_PEND := -1
  const OS_CHECK := 0
  const TWO_32 := 0x1_0000_0000
  const TWO_31 := 0x8000_0000

  /** `timeout -= schRate` on an int32 and a uint32: unsigned subtraction, then conversion back. */
  function Sub32(timeout: int, schRate: int): int {
    var u := (timeout - schRate) % TWO_32;
    if u >= TWO_31 then u - TWO_32 else u
  }

  lemma {:induction false} Sub32Is(timeout: int, schRate: int)
    requires -TWO_31 <= timeout < TWO_31 && 0 <= schRate < TWO_32
    ensures var d := timeout - schRate;
            Sub32(timeout, schRate) == if d >= -TWO_31 then d else d + TWO_32
  {
    var d := timeout - schRate;
    if d >= 0 {
      assert d % TWO_32 == d;
    } else if d >= -TWO_32 {
      assert d % TWO_32 == (d + TWO_32) % TWO_32;
    } else {
      assert d % TWO_32 == (d + TWO_32 + TWO_32) % TWO_32;
    }
  }

  /** The timeout that is left after `k` polls that found nothing. */
  function Left(timeout: int, schRate: nat, k: nat): int {
    if k == 0 then timeout else Sub32(Left(timeout, schRate, k - 1), schRate)
  }

  /** Finding nothing, the loop ends with its `n`-th poll. */
  ghost predicate EndsAt(timeout: int, schRate: nat, n: nat) {
    n >= 1 && Left(timeout, schRate, n) <= 0 && forall k :: 1 <= k < n ==> Left(timeout, schRate, k) > 0
  }

  lemma {:induction false} LeftFalls(timeout: int, schRate: nat, k: nat)
    requires 0 < timeout < TWO_31 && 0 < schRate
    requires k * schRate - timeout <= TWO_31 && (k - 1) * schRate < timeout
    ensures Left(timeout, schRate, k) == timeout - k * schRate
  {
    if k > 0 {
      assert k * schRate == (k - 1) * schRate + schRate;
      assert (k - 2) * schRate == (k - 1) * schRate - schRate;
      LeftFalls(timeout, schRate, k - 1);
      Sub32Is(timeout - (k - 1) * schRate, schRate);
    }
  }

  /** A rate above 2^31 wraps: subtracting it adds what it lacks to 2^32. */
  lemma {:induction false} LeftRises(timeout: int, schRate: nat, k: nat)
    requires 0 < timeout < TWO_31 < schRate < TWO_32
    requires timeout + k * (TWO_32 - schRate) < TWO_31
    ensures Left(timeout, schRate, k) == timeout + k * (TWO_32 - schRate)
  {
    if k > 0 {
      var step := TWO_32 - schRate;
      assert k * step == (k - 1) * step + step;
      LeftRises(timeout, schRate, k - 1);
      Sub32Is(timeout + (k - 1) * step, schRate);
    }
  }

  /** A finite receive that finds nothing polls exactly ceil(T / R) times if and only if the rate is
      positive and does not exceed the timeout by more than 2^31. */
  lemma {:induction false} EndsOnTime(timeout: int, schRate: nat)
    requires 0 < timeout < TWO_31 && 0 < schRate < TWO_32
    ensures EndsAt(timeout, schRate, CeilDiv(timeout, schRate)) <==> schRate - timeout <= TWO_31
  {
    var n := CeilDiv(timeout, schRate);
    CeilDivIs(timeout, schRate, n);
    assert n * schRate == (n - 1) * schRate + schRate;
    if schRate - timeout <= TWO_31 {
      if n > 1 {
        OneRateFits(schRate, n);
      }
      LeftFalls(timeout, schRate, n);
      forall k | 1 <= k < n ensures Left(timeout, schRate, k) > 0 {
        PartFits(schRate, k, n);
        LeftFalls(timeout, schRate, k);
      }
    } else {
      CeilDivIs(timeout, schRate, 1);
      Sub32Is(timeout, schRate);
      assert Left(timeout, schRate, 1) == Sub32(Left(timeout, schRate, 0), schRate);
    }
  }

  lemma {:induction false} OneRateFits(schRate: nat, n: nat)
    requires n > 1
    ensures (n - 1) * schRate >= schRate
  {
  }

  lemma {:induction false} PartFits(schRate: nat, k: nat, n: nat)
    requires k < n
    ensures k * schRate <= (n - 1) * schRate && (k - 1) * schRate == k * schRate - schRate
  {
  }

  lemma {:induction false} LeftStays(timeout: int, k: nat)
    requires 0 < timeout < TWO_31
    ensures Left(timeout, 0, k) == timeout
  {
    if k > 0 {
      LeftStays(timeout, k - 1);
      Sub32Is(timeout, 0);
    }
  }

  /** The first poll at which nothing is left, counting up from `k`, given that one is to come. */
  lemma {:induction false} FirstEnd(timeout: int, schRate: nat, k: nat, n: nat) returns (end: nat)
    requires 1 <= k <= n && Left(timeout, schRate, n) <= 0
    requires forall j :: 1 <= j < k ==> Left(timeout, schRate, j) > 0
    ensures EndsAt(timeout, schRate, end)
    decreases n - k
  {
    if Left(timeout, schRate, k) <= 0 {
      end := k;
    } else {
      end := FirstEnd(timeout, schRate, k + 1, n);
    }
  }

  /** The loop ends at all if and only if a frame lasts at least a millisecond: at rate 0 a receive with a
      positive timeout never times out. */
  lemma {:induction false} EndsAtAll(timeout: int, schRate: nat)
    requires 0 < timeout < TWO_31 && schRate < TWO_32
    ensures (exists n :: EndsAt(timeout, schRate, n)) <==> schRate > 0
  {
    if schRate == 0 {
      forall n ensures !EndsAt(timeout, schRate, n) {
        if n > 0 {
          LeftStays(timeout, n);
        }
      }
    } else if schRate - timeout <= TWO_31 {
      EndsOnTime(timeout, schRate);
    } else {
      var step := TWO_32 - schRate;
      var k := (TWO_31 - 1 - timeout) / step;
      assert k * step <= TWO_31 - 1 - timeout < k * step + step;
      LeftRises(timeout, schRate, k);
      Sub32Is(timeout + k * step, schRate);
      assert Left(timeout, schRate, k + 1) == Sub32(Left(timeout, schRate, k), schRate);
      var end := FirstEnd(timeout, schRate, 1, k + 1);
    }
  }

  /** The rate comes from the scheduler's table. A tick rate of 0 stands for one tick per second; with any
      other, a receive with a positive timeout ends at all if and only if the table asks for at most 1000
      ticks per second, which is when its period is at least 1000 microseconds. */
  lemma {:induction false} EndsAtTickRate(timeout: int, tickRate: nat)
    requires 0 < timeout < TWO_31
    ensures var period := SchLabScheduler.TimerPeriod(tickRate);
            var schRate := SchLabScheduler.GetMinorFrameMsTics(period);
            && ((exists n :: EndsAt(timeout, schRate, n)) <==> period >= 1000)
            && (period >= 1000 <==> tickRate <= 1000)
  {
    var period := SchLabScheduler.TimerPeriod(tickRate);
    SchLabScheduler.PeriodBounds(tickRate);
    DivBounds(period, 1000);
    EndsAtAll(timeout, SchLabScheduler.GetMinorFrameMsTics(period));
    if tickRate > 0 {
      if tickRate <= 1000 && period < 1000 {
        MulMono(period + 1, 1000, tickRate);
      } else if tickRate > 1000 && period >= 1000 {
        MulMono(1000, period, tickRate);
      }
    }
  }

  // ---- The calls that a receive makes ----

  datatype Event = MarkComplete | Poll | Sleep | AcknowledgeTrigger
  datatype ReturnCode = Success(sizeCopied: nat) | QueueEmpty | Failure(code: ReceiveCode)

  /** `n` polls, each after completing, with a zero task delay between two of them. */
  function Rounds(n: nat): seq<Event> {
    if n == 0 then [] else (if n > 1 then Rounds(n - 1) + [Sleep] else []) + [MarkComplete] + [Poll]
  }

  function CountOf(events: seq<Event>, e: Event): nat {
    if events == [] then 0
    else CountOf(events[..|events| - 1], e) + (if events[|events| - 1] == e then 1 else 0)
  }

  lemma {:induction false} CountPush(events: seq<Event>, last: Event, e: Event)
    ensures CountOf(events + [last], e) == CountOf(events, e) + (if last == e then 1 else 0)
  {
    assert (events + [last])[..|events|] == events;
  }

  lemma {:induction false} RoundsCounts(n: nat, e: Event)
    requires n > 0
    ensures CountOf(Rounds(n), e) == match e case Sleep => n - 1 case AcknowledgeTrigger => 0 case _ => n
  {
    var start := if n > 1 then Rounds(n - 1) + [Sleep] else [];
    if n > 1 {
      RoundsCounts(n - 1, e);
      CountPush(Rounds(n - 1), Sleep, e);
    }
    CountPush(start, MarkComplete, e);
    CountPush(start + [MarkComplete], Poll, e);
  }

  /** Every poll comes directly after completing and every completing directly before a poll; a sleep stands
      between two such pairs; and nothing but the last call acknowledges, directly after a poll. */
  predicate InOrder(events: seq<Event>) {
    events != [] && events[0] == MarkComplete && forall i :: 0 <= i < |events| ==> InPlace(events, i)
  }

  predicate InPlace(events: seq<Event>, i: nat)
    requires i < |events|
  {
    match events[i]
    case MarkComplete => i + 1 < |events| && events[i + 1] == Poll
    case Poll => i > 0 && events[i - 1] == MarkComplete
    case Sleep => i > 0 && events[i - 1] == Poll && i + 1 < |events| && events[i + 1] == MarkComplete
    case AcknowledgeTrigger => i > 0 && events[i - 1] == Poll && i + 1 == |events|
  }

  lemma {:induction false} RoundsInOrder(n: nat)
    requires n > 0
    ensures InOrder(Rounds(n)) && Rounds(n)[|Rounds(n)| - 1] == Poll && AcknowledgeTrigger !in Rounds(n)
  {
    if n > 1 {
      var before := Rounds(n - 1);
      RoundsInOrder(n - 1);
      forall i | 0 <= i < |Rounds(n)| ensures InPlace(Rounds(n), i) {
        if i < |before| {
          assert InPlace(before, i);
        }
      }
    }
  }

  /** The calls of a receive that polls `n` times. */
  function Calls(n: nat, acknowledged: bool): seq<Event> {
    Rounds(n) + (if acknowledged then [AcknowledgeTrigger] else [])
  }

  lemma {:induction false} CallsInOrder(n: nat, acknowledged: bool)
    requires n > 0
    ensures InOrder(Calls(n, acknowledged)) && (AcknowledgeTrigger in Calls(n, acknowledged) <==> acknowledged)
  {
    var events, rounds := Calls(n, acknowledged), Rounds(n);
    RoundsInOrder(n);
    forall i | 0 <= i < |events| ensures InPlace(events, i) {
      if i < |rounds| {
        assert InPlace(rounds, i);
      }
    }
  }

  lemma {:induction false} CallsCount(n: nat, acknowledged: bool, e: Event)
    requires n > 0
    ensures CountOf(Calls(n, acknowledged), e)
         == match e case Sleep => n - 1 case AcknowledgeTrigger => (if acknowledged then 1 else 0) case _ => n
  {
    RoundsCounts(n, e);
    if acknowledged {
      CountPush(Rounds(n), AcknowledgeTrigger, e);
    } else {
      assert Calls(n, acknowledged) == Rounds(n);
    }
  }

  /** When the loop ends: a frame has a length, or the first poll is the last, or some poll is answered.
      Otherwise it does not, as `EndsAtAll` shows. */
  ghost predicate Terminates(timeout: int, schRate: nat, poll: nat -> ReceiveCode) {
    schRate > 0 || timeout <= 0 || exists k :: poll(k) != TimedOut
  }

  /** The do-while loop. It stops at the first poll that is answered, and otherwise when its time is up. */
  method PollForTimeout(timeout0: int, schRate: nat, poll: nat -> ReceiveCode)
    returns (result: ReceiveCode, events: seq<Event>, polls: nat)
    requires -TWO_31 <= timeout0 < TWO_31 && schRate < TWO_32 && Terminates(timeout0, schRate, poll)
    ensures polls >= 1 && events == Rounds(polls) && result == poll(polls - 1)
    ensures forall k :: 0 <= k < polls - 1 ==> poll(k) == TimedOut
    ensures forall k :: 1 <= k < polls ==> Left(timeout0, schRate, k) > 0
    ensures result == TimedOut ==> EndsAt(timeout0, schRate, polls)
  {
    var timeout := timeout0;
    var n := 0;
    events := [];
    ghost var answered: nat := 0;
    if k: nat :| poll(k) != TimedOut {
      answered := k;
    }
    while true
      invariant events == Rounds(n) + (if n > 0 then [Sleep] else [])
      invariant timeout == Left(timeout0, schRate, n)
      invariant -TWO_31 <= timeout < TWO_31 && (n > 0 ==> timeout > 0)
      invariant forall k :: 0 <= k < n ==> poll(k) == TimedOut
      invariant forall k :: 1 <= k <= n ==> Left(timeout0, schRate, k) > 0
      invariant schRate == 0 ==> timeout == timeout0 && (n > 0 ==> poll(answered) != TimedOut)
      decreases n == 0,
                if schRate == 0 then answered - n else if schRate <= TWO_31 then timeout else TWO_31 - timeout
    {
      events := events + [MarkComplete];
      result := poll(n);
      events := events + [Poll];
      n := n + 1;
      polls := n;
      assert events == Rounds(n);
      if result != TimedOut {
        return;
      }
      Sub32Is(timeout, schRate);
      timeout := Sub32(timeout, schRate);
      if timeout > 0 {
        events := events + [Sleep];
      } else {
        return;
      }
    }
  }

  /** A call that polls `n` times. */
  ghost predicate IsCall(events: seq<Event>, n: nat, acknowledged: bool) {
    && InOrder(events) && (AcknowledgeTrigger in events <==> acknowledged)
    && CountOf(events, Poll) == CountOf(events, MarkComplete) == n && CountOf(events, Sleep) == n - 1
  }

  lemma {:induction false} CallsAreCalls(n: nat, acknowledged: bool)
    requires n > 0
    ensures IsCall(Calls(n, acknowledged), n, acknowledged)
    ensures !acknowledged ==> Calls(n, acknowledged) == Rounds(n)
  {
    CallsInOrder(n, acknowledged);
    CallsCount(n, acknowledged, Poll);
    CallsCount(n, acknowledged, MarkComplete);
    CallsCount(n, acknowledged, Sleep);
  }

  /** The whole call. `busMessage` tells whether the received data is a software bus buffer. */
  method OsQueueGet(timeout: int, initializing: bool, schRate: nat, poll: nat -> ReceiveCode, busMessage: bool)
    returns (ret: ReturnCode, events: seq<Event>, polls: nat)
    requires -TWO_31 <= timeout < TWO_31 && schRate < TWO_32
    requires timeout == OS_PEND || timeout == OS_CHECK || initializing || Terminates(timeout, schRate, poll)
    ensures polls >= 1
    ensures var last := poll(polls - 1);
            var got := last.Received?;
            && ret == (if got then Success(last.size)
                       else if timeout == OS_CHECK && last == TimedOut then QueueEmpty else Failure(last))
            && events == Calls(polls, got && busMessage)
    ensures forall k :: 0 <= k < polls - 1 ==> poll(k) == TimedOut
    ensures if timeout == OS_PEND || timeout == OS_CHECK || initializing then polls == 1
            else poll(polls - 1) == TimedOut ==> EndsAt(timeout, schRate, polls)
    ensures IsCall(events, polls, poll(polls - 1).Received? && busMessage)
  {
    var code: ReceiveCode;
    if timeout == OS_PEND || timeout == OS_CHECK || initializing {
      events := [MarkComplete];
      code := poll(0);
      events := events + [Poll];
      polls := 1;
    } else {
      code, events, polls := PollForTimeout(timeout, schRate, poll);
    }
    CallsAreCalls(polls, code.Received? && busMessage);
    if code.Received? {
      ret := Success(code.size);
      if busMessage {
        events := events + [AcknowledgeTrigger];
      }
    } else if timeout == OS_CHECK && code == TimedOut {
      ret := QueueEmpty;
    } else {
      ret := Failure(code);
    }
  }

  /** A finite receive that finds nothing completes and polls ceil(T / R) times, sleeps one time fewer, and
      acknowledges nothing. */
  method TimedOutReceive(timeout: int, schRate: nat, poll: nat -> ReceiveCode) returns (events: seq<Event>)
    requires 0 < timeout < TWO_31 && 0 < schRate < TWO_32 && schRate - timeout <= TWO_31
    requires forall k :: poll(k) == TimedOut
    ensures CeilDiv(timeout, schRate) > 0 && events == Rounds(CeilDiv(timeout, schRate))
    ensures CountOf(events, Poll) == CountOf(events, MarkComplete) == CeilDiv(timeout, schRate)
    ensures CountOf(events, Sleep) == CeilDiv(timeout, schRate) - 1
    ensures CountOf(events, AcknowledgeTrigger) == 0
  {
    var ret: ReturnCode;
    var polls: nat;
    ret, events, polls := OsQueueGet(timeout, false, schRate, poll, true);
    EndsOnTime(timeout, schRate);
    var n := CeilDiv(timeout, schRate);
    assert EndsAt(timeout, schRate, polls) && EndsAt(timeout, schRate, n);
    assert polls == n;
    assert Rounds(polls) + [] == Rounds(polls);
    CeilDivIs(timeout, schRate, n);
    forall e {
      RoundsCounts(polls, e);
    }
  }
}
