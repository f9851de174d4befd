/** TrickCFSQueue, a ring buffer of messages, and the manager's array of such queues.

  The ring keeps its bookkeeping three times over (`ringBufferIdx`, `numMessages` and a `hasData` flag in
  every slot). `QState` and the functions on it are the plain FIFO that it implements.
 */
module MessageQueue {
  newtype byte = b: int | 0 <= b < 256
  type Payload = seq<byte>

  // ---- The FIFO ----

  datatype QState = Closed | Open(maxMsgs: nat, maxSize: nat, contents: seq<Payload>)

  datatype SendCode = Accepted | SendError | QueueFull
  /** `Corrupt` is the "Improper queue state" branch. */
  datatype ReceiveCode = Received(size: nat) | BadQueueId | TimedOut | InvalidSize | Corrupt

  function OpenQ(q: QState, depth: nat, maxSize: nat): QState {
    if q.Open? then q else Open(depth, maxSize, [])
  }

  function SendQ(q: QState, msg: Payload): (QState, SendCode) {
    if q.Closed? || |msg| > q.maxSize then (q, SendError)
    else if |q.contents| < q.maxMsgs then (q.(contents := q.contents + [msg]), Accepted)
    else (q, QueueFull)
  }

  /** Receiving when no wait is left: the time is up, or a message is there. */
  function ReceiveQ(q: QState, buffSize: nat): (QState, ReceiveCode, Payload) {
    if q.Closed? then (q, BadQueueId, [])
    else if buffSize < q.maxSize then (q, InvalidSize, [])
    else if q.contents == [] then (q, TimedOut, [])
    else (q.(contents := q.contents[1..]), Received(|q.contents[0]|), q.contents[0])
  }

  // ---- Waiting for a message ----

  function SendAll(q: QState, msgs: seq<Payload>): QState
    decreases msgs
  {
    if msgs == [] then q else SendAll(SendQ(q, msgs[0]).0, msgs[1..])
  }

  /** What other threads send while a receiver waits, by the time it has the mutex again: element k of
      `woken` during its k-th wait on the condition variable, if that wait returns without a timeout, and
      `expired` during the wait that times out, after which the receiver looks no more. A wait may return
      for no reason; the receiver stops waiting once it finds a message. */
  datatype Waits = Waits(woken: seq<seq<Payload>>, expired: seq<Payload>)

  /** The queue when the receiver goes on, and whether it has found a message. */
  function WaitFor(q: QState, w: Waits): (QState, bool)
    decreases |w.woken|
  {
    if q.Closed? || q.contents != [] then (q, true)
    else if w.woken == [] then (SendAll(q, w.expired), false)
    else WaitFor(SendAll(q, w.woken[0]), w.(woken := w.woken[1..]))
  }

  /** A receive that is granted these waits. */
  function WaitAndReceive(q: QState, buffSize: nat, w: Waits): (QState, ReceiveCode, Payload) {
    if q.Closed? || buffSize < q.maxSize then ReceiveQ(q, buffSize)
    else
      var (q', found) := WaitFor(q, w);
      if found then ReceiveQ(q', buffSize) else (q', TimedOut, [])
  }

  lemma {:induction false} SendAllConcat(q: QState, a: seq<Payload>, b: seq<Payload>)
    ensures SendAll(q, a + b) == SendAll(SendAll(q, a), b)
    decreases a
  {
    if a == [] {
      assert a + b == b;
    } else {
      assert (a + b)[1..] == a[1..] + b;
      SendAllConcat(SendQ(q, a[0]).0, a[1..], b);
    }
  }

  lemma {:induction false} SendAllStaysOpen(q: QState, msgs: seq<Payload>)
    requires q.Open?
    ensures var r := SendAll(q, msgs);
            r.Open? && r.maxMsgs == q.maxMsgs && r.maxSize == q.maxSize && q.contents <= r.contents
    decreases msgs
  {
    if msgs != [] {
      SendAllStaysOpen(SendQ(q, msgs[0]).0, msgs[1..]);
    }
  }

  predicate Fits(q: QState, m: Payload) { q.Open? && |m| <= q.maxSize && q.maxMsgs > 0 }

  /** A receive with a time limit times out if and only if the queue is empty and nothing that fits is sent
      before the wait that expires. What is sent during that wait makes no difference to it and stays in the
      queue, as far as it fits, and nothing else is in it. */
  lemma {:induction false} TimesOutOnNothing(q: QState, buffSize: nat, w: Waits)
    requires q.Open? && buffSize >= q.maxSize
    ensures WaitAndReceive(q, buffSize, w).1 == TimedOut
       <==> q.contents == [] && forall k, m :: 0 <= k < |w.woken| && m in w.woken[k] ==> !Fits(q, m)
    ensures WaitAndReceive(q, buffSize, w).1 == TimedOut ==> WaitAndReceive(q, buffSize, w).0 == SendAll(q, w.expired)
    decreases |w.woken|
  {
    if q.contents == [] && w.woken != [] {
      NothingFits(q, w.woken[0]);
      SendAllStaysOpen(q, w.woken[0]);
      TimesOutOnNothing(SendAll(q, w.woken[0]), buffSize, w.(woken := w.woken[1..]));
      assert forall k :: 0 <= k < |w.woken| ==> w.woken[k] == if k == 0 then w.woken[0] else w.woken[1..][k - 1];
    }
  }

  /** So a receive can time out with a fitting message in the queue. */
  lemma {:induction false} TimesOutWithMessage(q: QState, buffSize: nat, m: Payload)
    requires q.Open? && q.contents == [] && Fits(q, m) && buffSize >= q.maxSize
    ensures WaitAndReceive(q, buffSize, Waits([], [m])) == (q.(contents := [m]), TimedOut, [])
  {
    assert SendAll(q, [m]) == SendAll(SendQ(q, m).0, []) == q.(contents := q.contents + [m]);
    assert q.contents + [m] == [m];
  }

  lemma {:induction false} FoundIsNonEmpty(q: QState, w: Waits)
    requires q.Open?
    ensures var (q', found) := WaitFor(q, w);
            q'.Open? && q'.maxSize == q.maxSize && (found ==> q'.contents != [])
    decreases |w.woken|
  {
    if q.contents == [] {
      if w.woken == [] {
        SendAllStaysOpen(q, w.expired);
      } else {
        SendAllStaysOpen(q, w.woken[0]);
        FoundIsNonEmpty(SendAll(q, w.woken[0]), w.(woken := w.woken[1..]));
      }
    }
  }

  lemma {:induction false} NothingFits(q: QState, msgs: seq<Payload>)
    requires q.Open? && q.contents == []
    ensures SendAll(q, msgs).Open?
    ensures SendAll(q, msgs).contents == [] <==> forall m :: m in msgs ==> !Fits(q, m)
    ensures SendAll(q, msgs).contents == [] ==> SendAll(q, msgs) == q
  {
    SendAllStaysOpen(q, msgs);
    if msgs != [] {
      assert forall m :: m in msgs <==> m == msgs[0] || m in msgs[1..];
      if !Fits(q, msgs[0]) {
        NothingFits(q, msgs[1..]);
      } else {
        SendAllStaysOpen(SendQ(q, msgs[0]).0, msgs[1..]);
      }
    }
  }

  // ---- Histories ----

  datatype Op = DoOpen(depth: nat, maxSize: nat) | DoClose | DoSend(msg: Payload) | DoReceive(buffSize: nat)

  /** A queue with what it has accepted and handed out since it was last opened, and the sizes it has
      reported for the latter. */
  datatype Log = Log(q: QState, accepted: seq<Payload>, received: seq<Payload>, sizes: seq<nat>)

  function Perform(l: Log, op: Op): Log {
    match op
    case DoOpen(d, m) => if l.q.Open? then l else Log(OpenQ(l.q, d, m), [], [], [])
    case DoClose => l.(q := Closed)
    case DoSend(msg) =>
      var (q, code) := SendQ(l.q, msg);
      l.(q := q, accepted := if code == Accepted then l.accepted + [msg] else l.accepted)
    case DoReceive(n) =>
      var (q, code, msg) := ReceiveQ(l.q, n);
      if code.Received? then l.(q := q, received := l.received + [msg], sizes := l.sizes + [code.size]) else l.(q := q)
  }

  function History(ops: seq<Op>): Log {
    if ops == [] then Log(Closed, [], [], []) else Perform(History(ops[..|ops| - 1]), ops[|ops| - 1])
  }

  ghost predicate Conserved(l: Log) {
    l.q.Open? ==>
      && l.accepted == l.received + l.q.contents
      && |l.q.contents| <= l.q.maxMsgs
      && (forall m :: m in l.q.contents ==> |m| <= l.q.maxSize)
      && |l.sizes| == |l.received| && forall i :: 0 <= i < |l.sizes| ==> l.sizes[i] == |l.received[i]|
  }

  lemma {:induction false} PerformConserves(l: Log, op: Op)
    requires Conserved(l)
    ensures Conserved(Perform(l, op))
  {
    if op.DoReceive? && l.q.Open? && l.q.contents != [] {
      assert l.q.contents == [l.q.contents[0]] + l.q.contents[1..];
    }
  }

  /** Nothing accepted is lost, doubled, reordered or altered, nothing else is handed out, and no more is
      kept than fits: for every history, the payloads accepted since the opening are those received since,
      followed by those still queued. Each is received with its own length as the reported size. */
  lemma {:induction false} AcceptedIsReceivedPlusContents(ops: seq<Op>)
    ensures var l := History(ops);
            l.q.Open? ==>
              && l.accepted == l.received + l.q.contents
              && |l.q.contents| <= l.q.maxMsgs
              && (forall m :: m in l.q.contents ==> |m| <= l.q.maxSize)
              && |l.sizes| == |l.received| && forall i :: 0 <= i < |l.sizes| ==> l.sizes[i] == |l.received[i]|
  {
    if ops != [] {
      AcceptedIsReceivedPlusContents(ops[..|ops| - 1]);
      PerformConserves(History(ops[..|ops| - 1]), ops[|ops| - 1]);
    }
  }

  /** In every history, a message is accepted if and only if it fits into the queue's messages and fewer than
      its capacity are accepted and not yet received; a queue that is full drops it and changes nothing. */
  lemma {:induction false} AcceptedIffRoom(ops: seq<Op>, depth: nat, size: nat, msg: Payload)
    requires var q := History(ops).q; q.Open? && q.maxMsgs == depth && q.maxSize == size
    ensures var l, l' := History(ops), History(ops + [DoSend(msg)]);
            var room := |l.accepted| - |l.received| < depth;
            && (l'.accepted == l.accepted + [msg] <==> |msg| <= size && room)
            && (!(|msg| <= size && room) ==> l' == l)
            && SendQ(l.q, msg).1 == (if |msg| > size then SendError else if room then Accepted else QueueFull)
  {
    AcceptedIsReceivedPlusContents(ops);
    assert (ops + [DoSend(msg)])[..|ops|] == ops;
  }

  /** And the capacity is that of the opening. */
  lemma {:induction false} OpenedAsAsked(ops: seq<Op>, depth: nat, size: nat)
    ensures var l, l' := History(ops), History(ops + [DoOpen(depth, size)]);
            if l.q.Closed? then l' == Log(Open(depth, size, []), [], [], []) else l' == l
  {
    assert (ops + [DoOpen(depth, size)])[..|ops|] == ops;
  }

  // ---- The ring buffer ----

  datatype Message = Message(data: seq<byte>, size: nat, hasData: bool)

  class TrickCFSQueue {
    var maxMsgs: nat
    var maxSize: nat
    var myId: int
    var isEnabled: bool
    var messages: array?<Message>
    var ringBufferIdx: nat
    var numMessages: nat
    ghost var contents: seq<Payload>

    /** How far slot `i` is from the read position, going round. */
    function Offset(i: nat): int
      reads this
    {
      if i >= ringBufferIdx then i - ringBufferIdx else i + maxMsgs - ringBufferIdx
    }

    ghost predicate SlotOk(i: nat)
      reads this, messages
      requires messages != null && i < messages.Length
    {
      var m := messages[i];
      && |m.data| == maxSize && m.size <= maxSize
      && (m.hasData <==> Offset(i) < numMessages)
      && (0 <= Offset(i) < |contents| ==> m.data[..m.size] == contents[Offset(i)])
    }

    ghost predicate Valid()
      reads this, messages
    {
      isEnabled ==>
        && messages != null && messages.Length == maxMsgs
        && numMessages == |contents| <= maxMsgs
        && (ringBufferIdx < maxMsgs || ringBufferIdx == maxMsgs == 0)
        && forall i :: 0 <= i < maxMsgs ==> SlotOk(i)
    }

    ghost function View(): QState
      reads this
    {
      if isEnabled then Open(maxMsgs, maxSize, contents) else Closed
    }

    constructor ()
      ensures Valid() && View() == Closed && messages == null
    {
      maxMsgs, maxSize, myId, isEnabled, messages, ringBufferIdx, numMessages := 0, 0, -1, false, null, 0, 0;
      contents := [];
    }

    method SetId(idx: int)
      requires Valid()
      modifies this`myId
      ensures Valid() && myId == idx
    {
      myId := idx;
      forall i | isEnabled && 0 <= i < maxMsgs ensures SlotOk(i) {
        assert old(SlotOk(i)) && Offset(i) == old(Offset(i));
      }
    }

    method OpenQueue(depthIn: nat, maxSizeIn: nat) returns (id: int)
      requires Valid()
      modifies this
      ensures Valid() && View() == OpenQ(old(View()), depthIn, maxSizeIn)
      ensures id == myId == old(myId)
      ensures if old(isEnabled) then View() == old(View()) else View() == Open(depthIn, maxSizeIn, [])
      ensures messages == old(messages) || fresh(messages)
    {
      if !isEnabled {
        isEnabled := true;
        var zeros := seq(maxSizeIn, _ => 0 as byte);
        messages := new Message[depthIn](_ => Message(zeros, 0, false));
        maxMsgs, maxSize := depthIn, maxSizeIn;
        ringBufferIdx, numMessages := 0, 0;
        contents := [];
      }
      return myId;
    }

    method CloseQueue() returns (ret: int)
      requires Valid()
      modifies this
      ensures Valid() && View() == Closed
      ensures ret == if old(View()).Closed? then -1 else 0
      ensures messages == old(messages) || messages == null
      ensures myId == old(myId)
    {
      if !isEnabled {
        ret := -1;
      } else {
        messages := null;
        isEnabled := false;
        ret := 0;
      }
    }

    method Send(msg: Payload) returns (code: SendCode)
      requires Valid()
      modifies this`numMessages, this`contents, messages
      ensures Valid() && (View(), code) == SendQ(old(View()), msg)
      ensures code == SendError <==> !isEnabled || |msg| > maxSize
      ensures code == Accepted <==> isEnabled && |msg| <= maxSize && |old(contents)| < maxMsgs
    {
      if !isEnabled || |msg| > maxSize {
        return SendError;
      }
      if numMessages + 1 <= maxMsgs {
        var testIdx := ringBufferIdx + numMessages;
        if testIdx >= maxMsgs {
          testIdx := testIdx - maxMsgs;
        }
        assert SlotOk(testIdx) && Offset(testIdx) == numMessages;
        var m := messages[testIdx];
        messages[testIdx] := Message(msg + m.data[|msg|..], |msg|, true);
        numMessages := numMessages + 1;
        contents := contents + [msg];
        code := Accepted;
        forall i | 0 <= i < maxMsgs ensures SlotOk(i) {
          assert old(SlotOk(i)) && Offset(i) == old(Offset(i));
        }
      } else {
        code := QueueFull;
      }
    }

    /** The payload goes to the front of the caller's buffer; the rest of the buffer is not touched. */
    method Receive(msgPtr: array<byte>, buffSize: nat, waits: Waits) returns (code: ReceiveCode)
      requires Valid() && buffSize <= msgPtr.Length
      modifies this`ringBufferIdx, this`numMessages, this`contents, messages, msgPtr
      ensures Valid()
      ensures var (q, c, payload) := WaitAndReceive(old(View()), buffSize, waits);
              && View() == q && code == c && code != Corrupt
              && |payload| <= msgPtr.Length
              && msgPtr[..] == payload + old(msgPtr[..])[|payload|..]
      // the size handed out is that of the oldest message, whose bytes are at the front of the buffer
      ensures code.Received? ==>
                var q := WaitFor(old(View()), waits).0;
                && q.Open? && q.contents != [] && View() == q.(contents := q.contents[1..])
                && code.size <= msgPtr.Length && msgPtr[..code.size] == q.contents[0]
                && msgPtr[code.size..] == old(msgPtr[code.size..])
      ensures code == BadQueueId <==> !old(isEnabled)
      ensures code == InvalidSize <==> old(isEnabled) && buffSize < old(maxSize)
      ensures !code.Received? ==> msgPtr[..] == old(msgPtr[..])
    {
      if !isEnabled {
        return BadQueueId;
      }
      if buffSize < maxSize {
        return InvalidSize;
      }
      ghost var before := View();
      var found := AwaitMessage(waits);
      if !found {
        return TimedOut;
      }
      FoundIsNonEmpty(before, waits);
      var idx := ringBufferIdx;
      var next := messages[idx];
      assert SlotOk(idx) && Offset(idx) == 0;
      if next.hasData {
        CopyTo(msgPtr, next.data[..next.size]);
        code := Received(next.size);
        TakeHead();
      } else {
        code := Corrupt;
      }
    }

    /** The loop around the condition variable. A wait that times out ends it without another look. */
    method AwaitMessage(waits: Waits) returns (found: bool)
      requires Valid() && isEnabled
      modifies this`numMessages, this`contents, messages
      ensures Valid() && (View(), found) == WaitFor(old(View()), waits) && (found ==> numMessages > 0)
    {
      var k := 0;
      ghost var rest := waits;
      while numMessages == 0
        invariant Valid() && k <= |waits.woken| && rest == Waits(waits.woken[k..], waits.expired)
        invariant WaitFor(old(View()), waits) == WaitFor(View(), rest)
        decreases |waits.woken| - k
      {
        if k == |waits.woken| {
          OthersSend(waits.expired);
          return false;
        }
        OthersSend(waits.woken[k]);
        rest := rest.(woken := rest.woken[1..]);
        k := k + 1;
      }
      found := true;
    }

    /** Other threads, while this one waits. */
    method OthersSend(msgs: seq<Payload>)
      requires Valid() && isEnabled
      modifies this`numMessages, this`contents, messages
      ensures Valid() && View() == SendAll(old(View()), msgs)
    {
      ghost var q := View();
      for i := 0 to |msgs|
        invariant Valid() && View() == SendAll(q, msgs[..i])
      {
        assert msgs[..i + 1] == msgs[..i] + [msgs[i]];
        SendAllConcat(q, msgs[..i], [msgs[i]]);
        var _ := Send(msgs[i]);
      }
      assert msgs[..|msgs|] == msgs;
    }

    method TakeHead()
      requires Valid() && isEnabled && numMessages > 0
      modifies this`ringBufferIdx, this`numMessages, this`contents, messages
      ensures Valid() && contents == old(contents)[1..]
    {
      messages[ringBufferIdx] := messages[ringBufferIdx].(hasData := false);
      ringBufferIdx := ringBufferIdx + 1;
      numMessages := numMessages - 1;
      contents := contents[1..];
      if ringBufferIdx >= maxMsgs {
        ringBufferIdx := 0;
      }
      forall i | 0 <= i < maxMsgs ensures SlotOk(i) {
        assert old(SlotOk(i));
        assert i != old(ringBufferIdx) ==> Offset(i) == old(Offset(i)) - 1;
        assert i == old(ringBufferIdx) ==> Offset(i) == maxMsgs - 1 && old(Offset(i)) == 0;
      }
    }

    method GetNumMessages() returns (n: nat)
      requires Valid()
      ensures n == if View().Open? then |View().contents| else 0
    {
      n := if isEnabled then numMessages else 0;
    }
  }

  method CopyTo(a: array<byte>, msg: Payload)
    requires |msg| <= a.Length
    modifies a
    ensures a[..] == msg + old(a[..])[|msg|..]
  {
    for i := 0 to |msg|
      invariant forall k :: 0 <= k < i ==> a[k] == msg[k]
      invariant forall k :: i <= k < a.Length ==> a[k] == old(a[k])
    {
      a[i] := msg[i];
    }
  }
}
