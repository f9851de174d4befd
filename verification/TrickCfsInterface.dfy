/** The loops that one thread runs over all task records: updateTaskTimes of Trick main, and the
    destination loop with which SCH marks the receivers of a scheduled message.

  Each iteration is one mutex-held section, that is, one step of `Handshake`; here the records stay as
  the loop finds them, which for updateTaskTimes only means that no task moves of its own accord between
  two iterations.
 */
module TrickCfsInterface {
  import opened TaskIpc
  import opened Handshake
  import PerfectMode

  /** A software bus destination of a message id. */
  datatype Destination = Destination(active: bool, ignoreMine: bool, appId: nat, pipe: Pipe)

  /** The pipes to which a message from `appId` goes, in list order. */
  function Receivers(dests: seq<Destination>, appId: nat): (pipes: seq<Pipe>)
    ensures forall k :: 0 <= k < |pipes| ==> exists d :: d in dests && d.pipe == pipes[k]
  {
    if dests == [] then []
    else
      var d := dests[|dests| - 1];
      var rest := Receivers(dests[..|dests| - 1], appId);
      if Skipped(d, appId) then rest else rest + [d.pipe]
  }

  /** Every pipe has an owner among the first `n` tasks. */
  predicate Owned(owner: seq<nat>, n: nat, pipes: seq<Pipe>) {
    forall k :: 0 <= k < |pipes| ==> pipes[k] < |owner| && owner[pipes[k]] < n
  }

  /** The records after marking `mid` for the owners of `pipes`. */
  function MarkAll(views: seq<Ipc>, owner: seq<nat>, pipes: seq<Pipe>, mid: Mid): (r: seq<Ipc>)
    requires Owned(owner, |views|, pipes)
    ensures |r| == |views|
  {
    if pipes == [] then views
    else
      var r := MarkAll(views, owner, pipes[..|pipes| - 1], mid);
      var t := owner[pipes[|pipes| - 1]];
      r[t := MarkSection(r[t], mid)]
  }

  /** The map after the same marks, in perfect mode. */
  function MapAll(m: seq<MapEntry>, owner: seq<nat>, priority: seq<nat>, pipes: seq<Pipe>): seq<MapEntry>
    requires Owned(owner, |priority|, pipes)
  {
    if pipes == [] then m
    else
      var t := owner[pipes[|pipes| - 1]];
      Insert(MapAll(m, owner, priority, pipes[..|pipes| - 1]), MapEntry(priority[t], t))
  }

  function OwnedBy(owner: seq<nat>, pipes: seq<Pipe>, t: nat): nat
    requires forall k :: 0 <= k < |pipes| ==> pipes[k] < |owner|
  {
    if pipes == [] then 0
    else OwnedBy(owner, pipes[..|pipes| - 1], t) + (if owner[pipes[|pipes| - 1]] == t then 1 else 0)
  }

  predicate Skipped(d: Destination, appId: nat) { !d.active || (d.ignoreMine && d.appId == appId) }

  lemma {:induction false} ReceiversPush(dests: seq<Destination>, appId: nat, k: nat)
    requires k < |dests|
    ensures Receivers(dests[..k + 1], appId)
         == if Skipped(dests[k], appId) then Receivers(dests[..k], appId)
            else Receivers(dests[..k], appId) + [dests[k].pipe]
  {
    assert dests[..k + 1][..k] == dests[..k];
  }

  lemma {:induction false} MarkPush(views: seq<Ipc>, m: seq<MapEntry>, owner: seq<nat>, priority: seq<nat>,
                                        pipes: seq<Pipe>, p: Pipe, mid: Mid)
    requires |priority| == |views| && Owned(owner, |views|, pipes) && p < |owner| && owner[p] < |views|
    ensures Owned(owner, |views|, pipes + [p])
    ensures var r := MarkAll(views, owner, pipes, mid);
            MarkAll(views, owner, pipes + [p], mid) == r[owner[p] := MarkSection(r[owner[p]], mid)]
    ensures MapAll(m, owner, priority, pipes + [p])
         == Insert(MapAll(m, owner, priority, pipes), MapEntry(priority[owner[p]], owner[p]))
  {
    assert (pipes + [p])[..|pipes|] == pipes;
  }

  /** A task gains one trigger for each of its pipes among the receivers, at the end of its list, and
      nothing else of it changes. */
  lemma {:induction false} MarkAllCounts(views: seq<Ipc>, owner: seq<nat>, pipes: seq<Pipe>, mid: Mid, t: nat)
    requires Owned(owner, |views|, pipes)
    requires t < |views|
    ensures MarkAll(views, owner, pipes, mid)[t]
         == views[t].(triggered := views[t].triggered + seq(OwnedBy(owner, pipes, t), _ => mid))
  {
    var n := OwnedBy(owner, pipes, t);
    if pipes == [] {
      assert views[t].triggered + seq(n, _ => mid) == views[t].triggered;
    } else {
      var before := pipes[..|pipes| - 1];
      MarkAllCounts(views, owner, before, mid, t);
      if owner[pipes[|pipes| - 1]] == t {
        assert seq(n, _ => mid) == seq(n - 1, _ => mid) + [mid];
      }
    }
  }

  // ---- Which destinations, in the fields of the list ----

  /** The receivers are the pipes of those destinations that are active and do not ignore a message of their
      own application, in list order, and of no others. */
  lemma {:induction false} ReceiversInOrder(dests: seq<Destination>, appId: nat) returns (ks: seq<nat>)
    ensures forall i, j :: 0 <= i < j < |ks| ==> ks[i] < ks[j]
    ensures forall k: nat :: k in ks <==>
              k < |dests| && dests[k].active && !(dests[k].ignoreMine && dests[k].appId == appId)
    ensures |Receivers(dests, appId)| == |ks|
    ensures forall j :: 0 <= j < |ks| ==> ks[j] in ks && Receivers(dests, appId)[j] == dests[ks[j]].pipe
  {
    if dests == [] {
      ks := [];
    } else {
      var n := |dests| - 1;
      ks := ReceiversInOrder(dests[..n], appId);
      if dests[n].active && !(dests[n].ignoreMine && dests[n].appId == appId) {
        ks := ks + [n];
      }
    }
  }

  predicate Hit(d: Destination, appId: nat, owner: seq<nat>, t: nat) {
    d.active && !(d.ignoreMine && d.appId == appId) && d.pipe < |owner| && owner[d.pipe] == t
  }

  ghost function Hits(dests: seq<Destination>, appId: nat, owner: seq<nat>, t: nat): set<nat> {
    set k: nat | k < |dests| && Hit(dests[k], appId, owner, t)
  }

  lemma {:induction false} HitsPush(dests: seq<Destination>, appId: nat, owner: seq<nat>, t: nat, d: Destination)
    ensures |Hits(dests + [d], appId, owner, t)|
         == |Hits(dests, appId, owner, t)| + (if Hit(d, appId, owner, t) then 1 else 0)
  {
    var before, n := Hits(dests, appId, owner, t), |dests|;
    assert forall k: nat :: k < n ==> (dests + [d])[k] == dests[k];
    assert n !in before;
    assert Hits(dests + [d], appId, owner, t) == if Hit(d, appId, owner, t) then before + {n} else before;
  }

  lemma {:induction false} OwnedByPush(owner: seq<nat>, pipes: seq<Pipe>, p: Pipe, t: nat)
    requires p < |owner| && forall k :: 0 <= k < |pipes| ==> pipes[k] < |owner|
    ensures OwnedBy(owner, pipes + [p], t) == OwnedBy(owner, pipes, t) + (if owner[p] == t then 1 else 0)
  {
    assert (pipes + [p])[..|pipes|] == pipes;
  }

  /** A task owns as many receivers as there are such destinations of its pipes. */
  lemma {:induction false} ReceiversCount(dests: seq<Destination>, appId: nat, owner: seq<nat>, t: nat)
    requires forall d :: d in dests ==> d.pipe < |owner|
    ensures OwnedBy(owner, Receivers(dests, appId), t) == |Hits(dests, appId, owner, t)|
  {
    if dests == [] {
      assert Hits(dests, appId, owner, t) == {};
    } else {
      var front, d := dests[..|dests| - 1], dests[|dests| - 1];
      assert dests == front + [d];
      ReceiversCount(front, appId, owner, t);
      HitsPush(front, appId, owner, t, d);
      if d.active && !(d.ignoreMine && d.appId == appId) {
        OwnedByPush(owner, Receivers(front, appId), d.pipe, t);
      }
    }
  }

  /** The map entries for the owners of `pipes`. */
  function Entries(owner: seq<nat>, priority: seq<nat>, pipes: seq<Pipe>): seq<MapEntry>
    requires Owned(owner, |priority|, pipes)
  {
    seq(|pipes|, j requires 0 <= j < |pipes| => MapEntry(priority[owner[pipes[j]]], owner[pipes[j]]))
  }

  lemma {:induction false} EntriesPush(owner: seq<nat>, priority: seq<nat>, pipes: seq<Pipe>)
    requires Owned(owner, |priority|, pipes) && pipes != []
    ensures var front, t := pipes[..|pipes| - 1], owner[pipes[|pipes| - 1]];
            Entries(owner, priority, pipes) == Entries(owner, priority, front) + [MapEntry(priority[t], t)]
  {
  }

  lemma {:induction false} SameAfterOneMore(m: seq<MapEntry>, entries: seq<MapEntry>, e: MapEntry, p: nat)
    requires PerfectMode.WithPriority(m, p) == PerfectMode.WithPriority(entries, p)
    ensures PerfectMode.WithPriority(Insert(m, e), p) == PerfectMode.WithPriority(entries + [e], p)
  {
    PerfectMode.InsertIsStable(m, e, p);
    PerfectMode.WithPriorityPush(entries, e, p);
  }

  /** The map gains one entry for each marked pipe, stays sorted, and keeps the order of marking within each
      priority. */
  lemma {:induction false} MapAllByPriority(m: seq<MapEntry>, owner: seq<nat>, priority: seq<nat>, pipes: seq<Pipe>,
                                            p: nat)
    requires Owned(owner, |priority|, pipes)
    ensures PerfectMode.WithPriority(MapAll(m, owner, priority, pipes), p)
         == PerfectMode.WithPriority(m + Entries(owner, priority, pipes), p)
    ensures PerfectMode.Sorted(m) ==> PerfectMode.Sorted(MapAll(m, owner, priority, pipes))
  {
    if pipes == [] {
      assert m + Entries(owner, priority, pipes) == m;
    } else {
      var front, t := pipes[..|pipes| - 1], owner[pipes[|pipes| - 1]];
      var e, before := MapEntry(priority[t], t), MapAll(m, owner, priority, front);
      MapAllByPriority(m, owner, priority, front, p);
      SameAfterOneMore(before, m + Entries(owner, priority, front), e, p);
      assert m + Entries(owner, priority, pipes) == m + Entries(owner, priority, front) + [e] by {
        EntriesPush(owner, priority, pipes);
      }
      if PerfectMode.Sorted(m) {
        PerfectMode.InsertSorted(before, e);
      }
    }
  }

  class TrickCFSInterface {
    const perfectScheduleMode: bool
    const taskStates: seq<TaskIPC>
    const priority: seq<nat>
    var prevPipeTaskOwner: seq<nat>
    var perfectFDMap: seq<MapEntry>

    ghost predicate Valid()
      reads this
    {
      && |priority| == |taskStates|
      && (forall i, j :: 0 <= i < j < |taskStates| ==> taskStates[i] != taskStates[j])
      && (forall p :: 0 <= p < |prevPipeTaskOwner| ==> prevPipeTaskOwner[p] < |taskStates|)
    }

    ghost function Views(): (r: seq<Ipc>)
      reads taskStates
      ensures |r| == |taskStates|
      ensures forall i :: 0 <= i < |taskStates| ==> r[i] == taskStates[i].View()
    {
      seq(|taskStates|, i requires 0 <= i < |taskStates| reads taskStates => taskStates[i].View())
    }

    /** `owners` is what setPipeOwner has recorded for every pipe. */
    constructor (perfect: bool, tasks: seq<TaskIPC>, prio: seq<nat>, owners: seq<nat>)
      requires |prio| == |tasks| && forall p :: 0 <= p < |owners| ==> owners[p] < |tasks|
      requires forall i, j :: 0 <= i < j < |tasks| ==> tasks[i] != tasks[j]
      ensures Valid() && perfectFDMap == [] && taskStates == tasks && perfectScheduleMode == perfect
      ensures prevPipeTaskOwner == owners && priority == prio
    {
      perfectScheduleMode, taskStates, priority := perfect, tasks, prio;
      prevPipeTaskOwner := owners;
      perfectFDMap := [];
    }

    method UpdateTaskTimes(cycleTics: int)
      requires Valid()
      modifies taskStates
      ensures forall i :: 0 <= i < |taskStates| ==> Views()[i] == Tick(old(Views())[i], cycleTics)
    {
      for ii := 0 to |taskStates|
        invariant forall i :: 0 <= i < ii ==> taskStates[i].View() == Tick(old(taskStates[i].View()), cycleTics)
        invariant forall i :: ii <= i < |taskStates| ==> taskStates[i].View() == old(taskStates[i].View())
      {
        taskStates[ii].UpdateTime(cycleTics);
      }
    }

    method MarkPipeAsTriggered(pipeId: nat, mid: Mid)
      requires Valid() && pipeId < |prevPipeTaskOwner|
      modifies this`perfectFDMap, taskStates
      ensures Valid()
      ensures var t := prevPipeTaskOwner[pipeId];
              && Views() == old(Views())[t := MarkSection(old(Views())[t], mid)]
              && perfectFDMap == (if perfectScheduleMode then Insert(old(perfectFDMap), MapEntry(priority[t], t))
                                  else old(perfectFDMap))
    {
      var t := prevPipeTaskOwner[pipeId];
      taskStates[t].MarkTriggered(mid);
      if perfectScheduleMode {
        perfectFDMap := Insert(perfectFDMap, MapEntry(priority[t], t));
      }
    }

    /** Marking one more of a list of pipes, of which `pipes` have been marked since `views` and `m`. */
    method MarkNext(pipeId: nat, mid: Mid, ghost views: seq<Ipc>, ghost m: seq<MapEntry>, ghost pipes: seq<Pipe>)
      requires Valid() && pipeId < |prevPipeTaskOwner|
      requires |views| == |taskStates| && Owned(prevPipeTaskOwner, |views|, pipes)
      requires Views() == MarkAll(views, prevPipeTaskOwner, pipes, mid)
      requires perfectFDMap == if perfectScheduleMode then MapAll(m, prevPipeTaskOwner, priority, pipes) else m
      modifies this`perfectFDMap, taskStates
      ensures Valid() && Owned(prevPipeTaskOwner, |views|, pipes + [pipeId])
      ensures Views() == MarkAll(views, prevPipeTaskOwner, pipes + [pipeId], mid)
      ensures perfectFDMap == if perfectScheduleMode
                              then MapAll(m, prevPipeTaskOwner, priority, pipes + [pipeId]) else m
    {
      MarkPipeAsTriggered(pipeId, mid);
      MarkPush(views, m, prevPipeTaskOwner, priority, pipes, pipeId, mid);
    }

    /** The marking half of sendScheduledMessage; the transmission follows it. */
    method MarkDestinations(dests: seq<Destination>, appId: nat, mid: Mid)
      requires Valid() && forall d :: d in dests ==> d.pipe < |prevPipeTaskOwner|
      modifies this`perfectFDMap, taskStates
      ensures Valid()
      ensures var pipes := Receivers(dests, appId);
              && Views() == MarkAll(old(Views()), prevPipeTaskOwner, pipes, mid)
              && perfectFDMap == (if perfectScheduleMode
                                  then MapAll(old(perfectFDMap), prevPipeTaskOwner, priority, pipes)
                                  else old(perfectFDMap))
      // each task gains as many triggers as it has pipes among the active destinations that are not SCH's own
      ensures forall t :: 0 <= t < |taskStates| ==>
                var n := |set k: nat | k < |dests| && dests[k].active
                                       && !(dests[k].ignoreMine && dests[k].appId == appId)
                                       && prevPipeTaskOwner[dests[k].pipe] == t|;
                Views()[t] == old(Views())[t].(triggered := old(Views())[t].triggered + seq(n, _ => mid))
    {
      ghost var views, m, pipes: seq<Pipe> := Views(), perfectFDMap, [];
      for k := 0 to |dests|
        invariant Valid()
        invariant pipes == Receivers(dests[..k], appId) && Owned(prevPipeTaskOwner, |taskStates|, pipes)
        invariant Views() == MarkAll(views, prevPipeTaskOwner, pipes, mid)
        invariant perfectFDMap == if perfectScheduleMode
                                  then MapAll(m, prevPipeTaskOwner, priority, pipes) else m
      {
        var d := dests[k];
        ReceiversPush(dests, appId, k);
        if !d.active {
          continue;
        }
        if d.ignoreMine && d.appId == appId {
          continue;
        }
        MarkNext(d.pipe, mid, views, m, pipes);
        pipes := pipes + [d.pipe];
      }
      assert dests[..|dests|] == dests;
      forall t | 0 <= t < |taskStates|
        ensures var n := |Hits(dests, appId, prevPipeTaskOwner, t)|;
                Views()[t] == views[t].(triggered := views[t].triggered + seq(n, _ => mid))
      {
        ReceiversCount(dests, appId, prevPipeTaskOwner, t);
        MarkAllCounts(views, prevPipeTaskOwner, pipes, mid, t);
      }
      forall t | 0 <= t < |taskStates|
        ensures Hits(dests, appId, prevPipeTaskOwner, t)
             == set k: nat | k < |dests| && dests[k].active && !(dests[k].ignoreMine && dests[k].appId == appId)
                             && prevPipeTaskOwner[dests[k].pipe] == t
      {
      }
    }
  }
}
