/** SchLabTrickCFSScheduler: entries that count table passes, and commands added by the user. */
module SchLabScheduler {
  import opened Arithmetic

  type MsgId = nat
  const INVALID_MSG_ID: MsgId := 0

  /** A row of `State`, without the message it holds. */
  datatype Row = Row(msgId: MsgId, packetRate: nat, counter: nat)
  /** A row of the configuration table. */
  datatype ConfigEntry = ConfigEntry(messageId: MsgId, packetRate: nat)
  /** A command of the user, with its period in microseconds. */
  datatype Command = Command(msgId: MsgId, periodMicros: nat)

  const UINT32: nat := 0x1_0000_0000

  // ---- One table pass ----

  function StepRow(r: Row): Row {
    if r.packetRate == 0 then r
    else if r.counter + 1 >= r.packetRate then r.(counter := 0)
    else r.(counter := r.counter + 1)
  }

  predicate Sends(r: Row) { r.packetRate != 0 && r.counter + 1 >= r.packetRate }

  /** The ids that one pass sends, in table order. */
  function SentBy(rows: seq<Row>): seq<MsgId> {
    if rows == [] then []
    else
      var last := rows[|rows| - 1];
      SentBy(rows[..|rows| - 1]) + (if Sends(last) then [last.msgId] else [])
  }

  method ProcessScheduleTable(state: array<Row>) returns (sent: seq<MsgId>)
    modifies state
    ensures sent == SentBy(old(state[..]))
    ensures forall i :: 0 <= i < state.Length ==> state[i] == StepRow(old(state[i]))
  {
    sent := [];
    ghost var before := state[..];
    for i := 0 to state.Length
      invariant forall j :: 0 <= j < i ==> state[j] == StepRow(before[j])
      invariant forall j :: i <= j < state.Length ==> state[j] == before[j]
      invariant sent == SentBy(before[..i])
    {
      assert before[..i + 1][..i] == before[..i];
      if state[i].packetRate != 0 {
        state[i] := state[i].(counter := state[i].counter + 1);
        if state[i].counter >= state[i].packetRate {
          state[i] := state[i].(counter := 0);
          sent := sent + [state[i].msgId];
        }
      }
    }
    assert before[..state.Length] == before;
  }

  // ---- Whole runs ----

  /** A row after `n` passes, and how often it has been sent by then. */
  function RowAfter(r: Row, n: nat): Row {
    if n == 0 then r else StepRow(RowAfter(r, n - 1))
  }

  function TimesSent(r: Row, n: nat): nat {
    if n == 0 then 0 else TimesSent(r, n - 1) + (if Sends(RowAfter(r, n - 1)) then 1 else 0)
  }

  /** Every row of rate q has counted to n mod q and been sent n / q times after n passes; a row without a
      rate is never sent. The counter stays below 2^32. */
  lemma {:induction false} RateIsExact(r: Row, n: nat)
    requires r.counter == 0 && r.packetRate < UINT32
    ensures RowAfter(r, n) == r.(counter := if r.packetRate == 0 then 0 else n % r.packetRate)
    ensures TimesSent(r, n) == if r.packetRate == 0 then 0 else n / r.packetRate
    ensures RowAfter(r, n).counter < UINT32
  {
    var q := r.packetRate;
    if q > 0 {
      DivBounds(n, q);
    }
    if n == 0 {
      if q > 0 {
        DivIs(0, q, 0);
      }
    } else {
      RateIsExact(r, n - 1);
      if q > 0 {
        var d := (n - 1) / q;
        DivBounds(n - 1, q);
        MulSucc(d, q);
        if (n - 1) % q + 1 == q {
          DivIs(n, q, d + 1);
        } else {
          DivIs(n, q, d);
        }
      }
    }
  }

  /** Pass number n (from 1) sends a row exactly when its rate divides n. */
  lemma {:induction false} SentEveryRate(r: Row, n: nat)
    requires r.counter == 0 && r.packetRate < UINT32 && n > 0
    ensures Sends(RowAfter(r, n - 1)) <==> r.packetRate > 0 && n % r.packetRate == 0
  {
    var q := r.packetRate;
    RateIsExact(r, n - 1);
    if q > 0 {
      var d := (n - 1) / q;
      DivBounds(n - 1, q);
      MulSucc(d, q);
      if (n - 1) % q + 1 == q {
        DivIs(n, q, d + 1);
      } else {
        DivIs(n, q, d);
      }
    }
  }

  function TableAfter(rows: seq<Row>, n: nat): (r: seq<Row>)
    ensures |r| == |rows|
  {
    seq(|rows|, i requires 0 <= i < |rows| => RowAfter(rows[i], n))
  }

  /** The ids whose rate divides `n`, in table order. */
  function IdsDue(rows: seq<Row>, n: nat): seq<MsgId> {
    if rows == [] then []
    else
      var last := rows[|rows| - 1];
      IdsDue(rows[..|rows| - 1], n)
      + (if last.packetRate > 0 && n % last.packetRate == 0 then [last.msgId] else [])
  }

  /** A configured table: the counters start at zero, and the rates fit. */
  ghost predicate Fresh(rows: seq<Row>) {
    forall i :: 0 <= i < |rows| ==> rows[i].counter == 0 && rows[i].packetRate < UINT32
  }

  lemma {:induction false} PassSendsDue(rows: seq<Row>, n: nat)
    requires Fresh(rows) && n > 0
    ensures SentBy(TableAfter(rows, n - 1)) == IdsDue(rows, n)
  {
    if rows != [] {
      var rest, last := rows[..|rows| - 1], rows[|rows| - 1];
      PassSendsDue(rest, n);
      SentEveryRate(last, n);
      RateIsExact(last, n - 1);
      assert TableAfter(rows, n - 1) == TableAfter(rest, n - 1) + [RowAfter(last, n - 1)];
    }
  }

  /** The run loop for `n` frames: every row has counted to n mod q at the same moment, and each pass has
      sent, in table order, the rows whose rate divides the number of the pass. */
  method RunPasses(state: array<Row>, n: nat) returns (log: seq<seq<MsgId>>)
    requires Fresh(state[..])
    modifies state
    ensures forall i :: 0 <= i < state.Length ==>
              var r := old(state[i]); state[i] == r.(counter := if r.packetRate == 0 then 0 else n % r.packetRate)
    ensures |log| == n && forall p :: 0 <= p < n ==> log[p] == IdsDue(old(state[..]), p + 1)
  {
    log := [];
    ghost var rows := state[..];
    for p := 0 to n
      invariant state[..] == TableAfter(rows, p)
      invariant |log| == p && forall j :: 0 <= j < p ==> log[j] == IdsDue(rows, j + 1)
    {
      PassSendsDue(rows, p + 1);
      var sent := ProcessScheduleTable(state);
      log := log + [sent];
      assert state[..] == TableAfter(rows, p + 1);
    }
    forall i | 0 <= i < state.Length
      ensures state[i] == rows[i].(counter := if rows[i].packetRate == 0 then 0 else n % rows[i].packetRate)
    {
      RateIsExact(rows[i], n);
      assert state[..][i] == RowAfter(rows[i], n);
    }
  }

  // ---- Initialisation ----

  function TimerPeriod(tickRate: nat): nat { if tickRate == 0 then 1000000 else 1000000 / tickRate }

  lemma {:induction false} PeriodBounds(tickRate: nat)
    ensures var p := TimerPeriod(tickRate);
            if tickRate == 0 then p == 1000000 else p * tickRate <= 1000000 < p * tickRate + tickRate
    ensures TimerPeriod(tickRate) <= 1000000 && (TimerPeriod(tickRate) == 0 <==> tickRate > 1000000)
  {
    var p := TimerPeriod(tickRate);
    if tickRate > 0 {
      DivBounds(1000000, tickRate);
      MulMono(1, tickRate, p);
      if tickRate > 1000000 {
        DivIs(1000000, tickRate, 0);
      }
    }
  }

  function GetMinorFrameMsTics(schedRateInMicros: nat): (rate: nat)
    ensures rate * 1000 <= schedRateInMicros < rate * 1000 + 1000
  {
    schedRateInMicros / 1000
  }

  /** A table row that a command may take. */
  predicate Free(r: Row) { r.packetRate == 0 && r.msgId == INVALID_MSG_ID }

  function Configured(config: ConfigEntry): Row {
    if config.packetRate != 0 then Row(config.messageId, config.packetRate, 0) else Row(INVALID_MSG_ID, 0, 0)
  }

  function Placed(cmd: Command, period: nat): Row
    requires period > 0
  {
    Row(cmd.msgId, cmd.periodMicros / period, 0)
  }

  /** The first free row, or the length. */
  function FirstFree(rows: seq<Row>): (i: nat)
    ensures i <= |rows| && (i < |rows| ==> Free(rows[i]))
    ensures forall j :: 0 <= j < i ==> !Free(rows[j])
  {
    if rows == [] || Free(rows[0]) then 0 else FirstFree(rows[1..]) + 1
  }

  /** Placing a command in a free row divides by the period. */
  predicate CanPlace(rows: seq<Row>, period: nat) { period > 0 || FirstFree(rows) == |rows| }

  function PlaceOne(rows: seq<Row>, cmd: Command, period: nat): (r: seq<Row>)
    requires CanPlace(rows, period)
    ensures |r| == |rows| && CanPlace(r, period)
  {
    var i := FirstFree(rows);
    if i < |rows| then rows[i := Placed(cmd, period)] else rows
  }

  function PlaceAll(rows: seq<Row>, cmds: seq<Command>, period: nat): (r: seq<Row>)
    requires cmds == [] || CanPlace(rows, period)
    ensures |r| == |rows| && (CanPlace(rows, period) ==> CanPlace(r, period))
  {
    if cmds == [] then rows else PlaceOne(PlaceAll(rows, cmds[..|cmds| - 1], period), cmds[|cmds| - 1], period)
  }

  function ConfiguredRows(config: seq<ConfigEntry>): seq<Row> {
    seq(|config|, i requires 0 <= i < |config| => Configured(config[i]))
  }

  /** The table part of initTables, on a `State` that starts out zeroed. A tick rate above one million
      leaves no period to divide by, which matters when a command finds a free row. */
  method InitTables(config: seq<ConfigEntry>, tickRate: nat, cmds: seq<Command>)
    returns (state: array<Row>, period: nat)
    requires tickRate <= 1000000 || cmds == [] || FirstFree(ConfiguredRows(config)) == |config|
    ensures period == TimerPeriod(tickRate) && (cmds == [] || CanPlace(ConfiguredRows(config), period))
    ensures state[..] == PlaceAll(ConfiguredRows(config), cmds, period) && fresh(state)
  {
    state := new Row[|config|](_ => Row(INVALID_MSG_ID, 0, 0));
    for i := 0 to |config|
      invariant forall j :: 0 <= j < i ==> state[j] == Configured(config[j])
      invariant forall j :: i <= j < |config| ==> state[j] == Row(INVALID_MSG_ID, 0, 0)
    {
      if config[i].packetRate != 0 {
        state[i] := state[i].(msgId := config[i].messageId);
        state[i] := state[i].(packetRate := config[i].packetRate);
      }
    }
    if tickRate == 0 {
      period := 1000000;
    } else {
      period := 1000000 / tickRate;
    }
    PeriodBounds(tickRate);
    ghost var configured := state[..];
    assert configured == ConfiguredRows(config);
    for u := 0 to |cmds|
      invariant state[..] == PlaceAll(configured, cmds[..u], period)
    {
      assert cmds[..u + 1][..u] == cmds[..u];
      PlaceCommand(state, cmds[u], period);
    }
    assert cmds[..|cmds|] == cmds;
  }

  method PlaceCommand(state: array<Row>, cmd: Command, period: nat)
    requires CanPlace(state[..], period)
    modifies state
    ensures state[..] == PlaceOne(old(state[..]), cmd, period)
  {
    ghost var before := state[..];
    for i := 0 to state.Length
      invariant state[..] == before
      invariant forall j :: 0 <= j < i ==> !Free(before[j])
    {
      if state[i].packetRate == 0 && state[i].msgId == INVALID_MSG_ID {
        assert FirstFree(before) == i;
        state[i] := Row(cmd.msgId, cmd.periodMicros, 0);
        state[i] := state[i].(packetRate := cmd.periodMicros / period);
        return;
      }
    }
    assert FirstFree(before) == |before|;
  }

  // ---- Where commands land ----

  /** How many free rows come before position `i`. */
  function FreeBefore(rows: seq<Row>, i: nat): nat
    requires i <= |rows|
  {
    if i == 0 then 0 else FreeBefore(rows, i - 1) + (if Free(rows[i - 1]) then 1 else 0)
  }

  /** With valid ids, each row ends as follows: a configured one as it was; the free row number k with the
      k-th command, or free if there are not that many commands. Surplus commands are dropped. */
  lemma {:induction false} CommandsLandInOrder(rows: seq<Row>, cmds: seq<Command>, period: nat, i: nat)
    requires period > 0 && i < |rows|
    requires forall u :: 0 <= u < |cmds| ==> cmds[u].msgId != INVALID_MSG_ID
    ensures PlaceAll(rows, cmds, period)[i]
         == if Free(rows[i]) && FreeBefore(rows, i) < |cmds| then Placed(cmds[FreeBefore(rows, i)], period) else rows[i]
  {
    if cmds != [] {
      var n := |cmds| - 1;
      var before := PlaceAll(rows, cmds[..n], period);
      var first := FirstFree(before);
      forall j | 0 <= j < |rows|
        ensures before[j] == if Free(rows[j]) && FreeBefore(rows, j) < n
                             then Placed(cmds[FreeBefore(rows, j)], period) else rows[j]
      {
        CommandsLandInOrder(rows, cmds[..n], period, j);
      }
      StillFree(rows, before, n, i);
    }
  }

  /** After `n` placements the first free row is the one with exactly n free rows before it. */
  lemma {:induction false} StillFree(rows: seq<Row>, before: seq<Row>, n: nat, i: nat)
    requires |before| == |rows| && i < |rows|
    requires forall j :: 0 <= j < |rows| ==> (Free(before[j]) <==> Free(rows[j]) && FreeBefore(rows, j) >= n)
    ensures i == FirstFree(before) <==> Free(rows[i]) && FreeBefore(rows, i) == n
  {
    var first := FirstFree(before);
    if first < i {
      FreeBeforeGrows(rows, first + 1, i);
    }
    if i <= first && Free(rows[i]) && FreeBefore(rows, i) >= n {
      assert Free(before[i]);
    }
    if first < |rows| && FreeBefore(rows, first) > n {
      var j := FreeAt(rows, n, first);
    }
  }

  lemma {:induction false} FreeBeforeGrows(rows: seq<Row>, i: nat, j: nat)
    requires i <= j <= |rows|
    ensures FreeBefore(rows, i) <= FreeBefore(rows, j)
    decreases j
  {
    if i < j {
      FreeBeforeGrows(rows, i, j - 1);
    }
  }

  /** Below a row with more than n free rows before it there is a free row with exactly n. */
  lemma {:induction false} FreeAt(rows: seq<Row>, n: nat, top: nat) returns (j: nat)
    requires top <= |rows| && FreeBefore(rows, top) > n
    ensures j < top && Free(rows[j]) && FreeBefore(rows, j) == n
  {
    if FreeBefore(rows, top - 1) > n {
      j := FreeAt(rows, n, top - 1);
    } else {
      j := top - 1;
    }
  }

  /** A command with a requested period of at least one frame is sent with the greatest whole number of
      frames that fits into it, and after n passes has been sent once for each such period; a shorter
      request is never sent. */
  lemma {:induction false} CommandPeriod(cmd: Command, period: nat, n: nat)
    requires period > 0 && cmd.periodMicros < UINT32
    ensures var q := Placed(cmd, period).packetRate;
            && q * period <= cmd.periodMicros < q * period + period
            && (q == 0 <==> cmd.periodMicros < period)
            && TimesSent(Placed(cmd, period), n) == if q == 0 then 0 else n / q
  {
    var q := cmd.periodMicros / period;
    DivBounds(cmd.periodMicros, period);
    if cmd.periodMicros < period {
      DivIs(cmd.periodMicros, period, 0);
    }
    if q >= UINT32 {
      MulMono(1, period, q);
    }
    RateIsExact(Placed(cmd, period), n);
  }

  // ---- From the tables to what is sent ----

  /** A row in use stays as it is. */
  lemma {:induction false} UsedRowStays(rows: seq<Row>, cmds: seq<Command>, period: nat, i: nat)
    requires (cmds == [] || CanPlace(rows, period)) && i < |rows| && !Free(rows[i])
    ensures PlaceAll(rows, cmds, period)[i] == rows[i]
  {
    if cmds != [] {
      UsedRowStays(rows, cmds[..|cmds| - 1], period, i);
    }
  }

  /** Every row is a configured one, or has a command's id and its period in frames. */
  lemma {:induction false} RowsCome(rows: seq<Row>, cmds: seq<Command>, period: nat, i: nat)
    requires (cmds == [] || CanPlace(rows, period)) && i < |rows|
    ensures var r := PlaceAll(rows, cmds, period)[i];
            r == rows[i]
            || exists u :: 0 <= u < |cmds| && period > 0 && r == Row(cmds[u].msgId, cmds[u].periodMicros / period, 0)
  {
    if cmds != [] {
      var n := |cmds| - 1;
      RowsCome(rows, cmds[..n], period, i);
      var before := PlaceAll(rows, cmds[..n], period);
      if FirstFree(before) != i {
        assert PlaceAll(rows, cmds, period)[i] == before[i];
        if before[i] != rows[i] {
          var u :| 0 <= u < n && period > 0 && before[i] == Row(cmds[u].msgId, cmds[u].periodMicros / period, 0);
          assert cmds[..n][u] == cmds[u];
        }
      } else {
        assert period > 0 && PlaceAll(rows, cmds, period)[i] == Row(cmds[n].msgId, cmds[n].periodMicros / period, 0);
      }
    }
  }

  /** How often an id is sent in all passes. */
  function TotalSent(log: seq<seq<MsgId>>, id: MsgId): nat {
    if log == [] then 0 else TotalSent(log[..|log| - 1], id) + multiset(log[|log| - 1])[id]
  }

  /** n / q for every row of the id with a rate of q. */
  function Share(rows: seq<Row>, id: MsgId, n: nat): nat {
    if rows == [] then 0
    else
      var last := rows[|rows| - 1];
      Share(rows[..|rows| - 1], id, n)
      + (if last.msgId == id && last.packetRate > 0 then n / last.packetRate else 0)
  }

  lemma {:induction false} QuotientStep(n: nat, q: nat)
    requires n > 0 && q > 0
    ensures n / q == (n - 1) / q + (if n % q == 0 then 1 else 0)
  {
    var d := (n - 1) / q;
    DivBounds(n - 1, q);
    MulSucc(d, q);
    if (n - 1) % q + 1 == q {
      DivIs(n, q, d + 1);
    } else {
      DivIs(n, q, d);
    }
  }

  lemma {:induction false} ShareStep(rows: seq<Row>, id: MsgId, n: nat)
    requires n > 0
    ensures Share(rows, id, n) == Share(rows, id, n - 1) + multiset(IdsDue(rows, n))[id]
  {
    if rows != [] {
      var last := rows[|rows| - 1];
      ShareStep(rows[..|rows| - 1], id, n);
      if last.packetRate > 0 {
        QuotientStep(n, last.packetRate);
      }
    }
  }

  lemma {:induction false} ShareOfNone(rows: seq<Row>, id: MsgId)
    ensures Share(rows, id, 0) == 0
  {
    if rows != [] {
      var q := rows[|rows| - 1].packetRate;
      ShareOfNone(rows[..|rows| - 1], id);
      if q > 0 {
        DivIs(0, q, 0);
      }
    }
  }

  /** In n passes every id is sent n / q times for each of its rows of rate q. */
  lemma {:induction false} TotalIsShare(rows: seq<Row>, log: seq<seq<MsgId>>, id: MsgId)
    requires forall p :: 0 <= p < |log| ==> log[p] == IdsDue(rows, p + 1)
    ensures TotalSent(log, id) == Share(rows, id, |log|)
  {
    if log == [] {
      ShareOfNone(rows, id);
    } else {
      TotalIsShare(rows, log[..|log| - 1], id);
      ShareStep(rows, id, |log|);
    }
  }

  lemma {:induction false} ShareOfOne(rows: seq<Row>, id: MsgId, n: nat, i: nat)
    requires forall j :: 0 <= j < |rows| && j != i ==> rows[j].msgId != id || rows[j].packetRate == 0
    ensures Share(rows, id, n)
         == if i < |rows| && rows[i].msgId == id && rows[i].packetRate > 0 then n / rows[i].packetRate else 0
  {
    if rows != [] {
      ShareOfOne(rows[..|rows| - 1], id, n, i);
    }
  }

  /** initTables and `n` frames of the run loop: an entry of the configuration table with a rate of q, whose id
      no other entry and no command has, has been sent n / q times. */
  method InitAndRun(config: seq<ConfigEntry>, tickRate: nat, cmds: seq<Command>, n: nat)
    returns (log: seq<seq<MsgId>>)
    requires tickRate <= 1000000 || cmds == [] || FirstFree(ConfiguredRows(config)) == |config|
    requires forall i :: 0 <= i < |config| ==> config[i].packetRate < UINT32
    requires forall u :: 0 <= u < |cmds| ==> cmds[u].periodMicros < UINT32
    ensures |log| == n
    ensures forall i :: 0 <= i < |config| && IsOnlyEntry(config, cmds, i) ==>
              TotalSent(log, config[i].messageId) == n / config[i].packetRate
  {
    var state, period := InitTables(config, tickRate, cmds);
    ghost var rows := state[..];
    RowsAreFresh(ConfiguredRows(config), cmds, period);
    log := RunPasses(state, n);
    forall i | 0 <= i < |config| && IsOnlyEntry(config, cmds, i)
      ensures TotalSent(log, config[i].messageId) == n / config[i].packetRate
    {
      OnlyRow(config, cmds, period, i);
      TotalIsShare(rows, log, config[i].messageId);
      ShareOfOne(rows, config[i].messageId, n, i);
    }
  }

  /** Entry `i` has a rate, and its id is nobody else's. */
  predicate IsOnlyEntry(config: seq<ConfigEntry>, cmds: seq<Command>, i: nat)
    requires i < |config|
  {
    && config[i].packetRate > 0
    && (forall j :: 0 <= j < |config| && j != i ==>
          config[j].packetRate == 0 || config[j].messageId != config[i].messageId)
    && forall u :: 0 <= u < |cmds| ==> cmds[u].msgId != config[i].messageId
  }

  lemma {:induction false} OnlyRow(config: seq<ConfigEntry>, cmds: seq<Command>, period: nat, i: nat)
    requires (cmds == [] || CanPlace(ConfiguredRows(config), period)) && i < |config| && IsOnlyEntry(config, cmds, i)
    ensures var rows := PlaceAll(ConfiguredRows(config), cmds, period);
            && rows[i] == Row(config[i].messageId, config[i].packetRate, 0)
            && forall j :: 0 <= j < |rows| && j != i ==> rows[j].msgId != config[i].messageId || rows[j].packetRate == 0
  {
    var rows := PlaceAll(ConfiguredRows(config), cmds, period);
    UsedRowStays(ConfiguredRows(config), cmds, period, i);
    forall j | 0 <= j < |rows| && j != i
      ensures rows[j].msgId != config[i].messageId || rows[j].packetRate == 0
    {
      RowsCome(ConfiguredRows(config), cmds, period, j);
    }
  }

  lemma {:induction false} RowsAreFresh(rows: seq<Row>, cmds: seq<Command>, period: nat)
    requires (cmds == [] || CanPlace(rows, period)) && Fresh(rows)
    requires forall u :: 0 <= u < |cmds| ==> cmds[u].periodMicros < UINT32
    ensures Fresh(PlaceAll(rows, cmds, period))
  {
    if cmds != [] {
      var n := |cmds| - 1;
      RowsAreFresh(rows, cmds[..n], period);
      if period > 0 {
        QuotientFits(cmds[n].periodMicros, period);
      }
    }
  }

  lemma {:induction false} QuotientFits(a: nat, b: nat)
    requires b > 0
    ensures 0 <= a / b <= a
  {
    DivBounds(a, b);
    MulMono(1, b, a / b);
  }
}
