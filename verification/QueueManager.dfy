/** TrickCFSQueueManager: queues by index, which do not affect one another. */
module QueueManager {
  import opened MessageQueue

  class TrickCFSQueueManager {
    const queues: seq<TrickCFSQueue>

    ghost function Buffers(): set<object>
      reads queues
    {
      set q | q in queues && q.messages != null :: q.messages
    }

    ghost predicate Valid()
      reads queues, Buffers()
    {
      && (forall i :: 0 <= i < |queues| ==> queues[i].Valid() && queues[i].myId == i)
      && forall i, j :: 0 <= i < j < |queues| ==>
           queues[i] != queues[j] && (queues[i].messages != null ==> queues[i].messages != queues[j].messages)
    }

    ghost function Views(): (r: seq<QState>)
      reads queues
      ensures |r| == |queues|
      ensures forall i :: 0 <= i < |queues| ==> r[i] == queues[i].View()
    {
      seq(|queues|, i requires 0 <= i < |queues| reads queues => queues[i].View())
    }

    constructor (osMaxQueues: nat)
      ensures Valid() && |queues| == osMaxQueues && Views() == seq(osMaxQueues, _ => Closed)
    {
      var qs: seq<TrickCFSQueue> := [];
      for ii := 0 to osMaxQueues
        invariant |qs| == ii
        invariant forall i :: 0 <= i < ii ==> fresh(qs[i]) && qs[i].Valid() && qs[i].myId == i
        invariant forall i :: 0 <= i < ii ==> qs[i].View() == Closed && qs[i].messages == null
        invariant forall i, j :: 0 <= i < j < ii ==> qs[i] != qs[j]
      {
        var q := new TrickCFSQueue();
        q.SetId(ii);
        qs := qs + [q];
      }
      queues := qs;
    }

    method OpenQueue(idx: nat, depthIn: nat, maxSizeIn: nat) returns (id: int)
      requires Valid()
      modifies queues
      ensures Valid()
      ensures idx < |queues| ==>
                id == idx && Views() == old(Views())[idx := OpenQ(old(Views())[idx], depthIn, maxSizeIn)]
      ensures idx >= |queues| ==> id == -1 && Views() == old(Views())
    {
      if idx < |queues| {
        id := queues[idx].OpenQueue(depthIn, maxSizeIn);
      } else {
        id := -1;
      }
    }

    method CloseQueue(idx: nat) returns (ret: int)
      requires Valid()
      modifies queues
      ensures Valid()
      ensures idx < |queues| ==> Views() == old(Views())[idx := Closed] && (ret == -1 <==> old(Views())[idx].Closed?)
      ensures idx >= |queues| ==> ret == -1 && Views() == old(Views())
    {
      if idx < |queues| {
        ret := queues[idx].CloseQueue();
      } else {
        ret := -1;
      }
    }

    /** The second result is false for an index the manager does not have. This index is an int, of which
        only the upper bound is tested; below zero there is no queue. */
    method Send(idx: int, msg: Payload) returns (code: SendCode, known: bool)
      requires Valid() && idx >= 0
      modifies queues, Buffers()
      ensures Valid() && known == (idx < |queues|)
      ensures known ==> var (q, c) := SendQ(old(Views())[idx], msg); code == c && Views() == old(Views())[idx := q]
      ensures !known ==> Views() == old(Views())
    {
      known := idx < |queues|;
      if known {
        code := queues[idx].Send(msg);
      } else {
        code := SendError;
      }
    }

    method Receive(idx: nat, msgPtr: array<byte>, buffSize: nat, waits: Waits)
      returns (code: ReceiveCode, known: bool)
      requires Valid() && buffSize <= msgPtr.Length
      modifies queues, Buffers(), msgPtr
      ensures Valid() && known == (idx < |queues|)
      ensures known ==> var (q, c, payload) := WaitAndReceive(old(Views())[idx], buffSize, waits);
                && code == c && Views() == old(Views())[idx := q]
                && |payload| <= msgPtr.Length && msgPtr[..] == payload + old(msgPtr[..])[|payload|..]
      ensures !known ==> Views() == old(Views()) && msgPtr[..] == old(msgPtr[..])
    {
      known := idx < |queues|;
      if known {
        code := queues[idx].Receive(msgPtr, buffSize, waits);
      } else {
        code := BadQueueId;
      }
    }
  }

  // ---- Independence over whole histories ----

  /** An operation on the queue of one index. */
  datatype IndexedOp = At(idx: nat, op: Op)

  function HistoryOf(ops: seq<IndexedOp>, idx: nat): seq<Op> {
    if ops == [] then []
    else HistoryOf(ops[..|ops| - 1], idx) + (if ops[|ops| - 1].idx == idx then [ops[|ops| - 1].op] else [])
  }

  function PerformAll(n: nat, ops: seq<IndexedOp>): (logs: seq<Log>)
    ensures |logs| == n
  {
    if ops == [] then seq(n, _ => History([]))
    else
      var logs, last := PerformAll(n, ops[..|ops| - 1]), ops[|ops| - 1];
      if last.idx < n then logs[last.idx := Perform(logs[last.idx], last.op)] else logs
  }

  /** However operations on many queues interleave, each queue does what it does under its own alone. */
  lemma {:induction false} QueuesAreIndependent(n: nat, ops: seq<IndexedOp>, idx: nat)
    requires idx < n
    ensures PerformAll(n, ops)[idx] == History(HistoryOf(ops, idx))
  {
    if ops != [] {
      var last := ops[|ops| - 1];
      var own := HistoryOf(ops[..|ops| - 1], idx);
      QueuesAreIndependent(n, ops[..|ops| - 1], idx);
      if last.idx == idx {
        assert (own + [last.op])[..|own|] == own;
      } else {
        assert own + [] == own;
      }
    }
  }
}
