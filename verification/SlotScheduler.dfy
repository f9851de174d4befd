/** TrickCFSScheduler: slots of one second, and entries that fire by frequency and remainder. */
module SlotScheduler {
  import opened Arithmetic

  const MICROS_PER_MAJOR_FRAME: nat := 1000000

  /** Constants from headers that are not part of this model. */
  datatype Consts = Consts(totalSlots: nat, entriesPerSlot: nat, maxMessages: nat,
                           unused: nat, enabled: nat, disabled: nat, sendMsg: nat)
  {
    predicate Valid() { 1 <= totalSlots <= MICROS_PER_MAJOR_FRAME && enabled != unused }

    function TableEntries(): nat { totalSlots * entriesPerSlot }

    function Period(): (p: nat)
      requires Valid()
      ensures p >= 1
    {
      MICROS_PER_MAJOR_FRAME / totalSlots
    }
  }

  datatype Entry = Entry(enableState: nat, kind: nat, frequency: nat, remainder: nat, messageIndex: nat, groupData: nat)

  // ---- Slot arithmetic ----

  /** updateTimeTics, for a time within the second. */
  function SlotOf(k: Consts, simTimeMicros: nat): int
    requires k.Valid()
  {
    var schSlot := simTimeMicros / k.Period();
    var remainder := simTimeMicros - schSlot * k.Period() + 1;
    var rounded := schSlot + remainder / k.Period();
    if rounded == k.totalSlots then 0 else rounded
  }

  /** Rounding up within a microsecond of the next slot: the slot of a moment is the slot count of the
      microsecond after it, taken back to 0 at the end of the second. */
  lemma {:induction false} SlotOfIs(k: Consts, micros: nat)
    requires k.Valid()
    ensures var count := (micros + 1) / k.Period();
            SlotOf(k, micros) == (if count == k.totalSlots then 0 else count) && count >= 0
  {
    NextQuotient(micros, k.Period());
    DivBounds(micros + 1, k.Period());
  }

  lemma {:induction false} CountBelow(k: Consts, micros: nat, bound: nat)
    requires k.Valid()
    ensures (micros + 1) / k.Period() <= bound <==> micros + 1 < (bound + 1) * k.Period()
  {
    var p := k.Period();
    var q := (micros + 1) / p;
    DivBounds(micros + 1, p);
    if q <= bound {
      MulSucc(q, p);
      MulMono(q + 1, bound + 1, p);
    } else {
      MulMono(bound + 1, q, p);
    }
  }

  /** The slot always exists if and only if one more slot of the same period would not fit in a second. */
  lemma {:induction false} SlotInRange(k: Consts)
    requires k.Valid()
    ensures (forall micros :: 0 <= micros < MICROS_PER_MAJOR_FRAME ==> 0 <= SlotOf(k, micros) < k.totalSlots)
       <==> MICROS_PER_MAJOR_FRAME < (k.totalSlots + 1) * k.Period()
  {
    var n := k.totalSlots;
    var last := MICROS_PER_MAJOR_FRAME - 1;
    SlotOfIs(k, last);
    CountBelow(k, last, n);
    if MICROS_PER_MAJOR_FRAME < (n + 1) * k.Period() {
      forall micros | 0 <= micros < MICROS_PER_MAJOR_FRAME ensures 0 <= SlotOf(k, micros) < n {
        SlotOfIs(k, micros);
        CountBelow(k, micros, n);
      }
    }
  }

  /** Which fails for 1500 slots: their period of 666 microseconds leaves room for slot 1501. */
  lemma {:induction false} SlotOutOfRange(k: Consts)
    requires k.totalSlots == 1500 && k.enabled != k.unused
    ensures SlotOf(k, 999665) == 1501
  {
    DivIs(MICROS_PER_MAJOR_FRAME, 1500, 666);
    DivIs(999666, 666, 1501);
    SlotOfIs(k, 999665);
  }

  /** Slots that divide the second: the slot number is the rounded-up slot count modulo the slots. */
  lemma {:induction false} SlotIsModular(k: Consts, micros: nat)
    requires k.Valid() && k.totalSlots * k.Period() == MICROS_PER_MAJOR_FRAME && micros < MICROS_PER_MAJOR_FRAME
    ensures SlotOf(k, micros) == ((micros + 1) / k.Period()) % k.totalSlots
  {
    var n := k.totalSlots;
    var q := (micros + 1) / k.Period();
    SlotOfIs(k, micros);
    MulSucc(n, k.Period());
    CountBelow(k, micros, n);
    if q == n {
      DivIs(q, n, 1);
    } else {
      DivIs(q, n, 0);
    }
  }

  // ---- Whole runs: one table pass per period ----

  /** Trick calls the scheduler at every multiple of the period. */
  function Tics(k: Consts, frame: nat): nat
    requires k.Valid()
  {
    frame * k.Period()
  }

  function SecsAt(k: Consts, frame: nat): nat
    requires k.Valid()
  {
    Tics(k, frame) / MICROS_PER_MAJOR_FRAME
  }

  function SlotAt(k: Consts, frame: nat): int
    requires k.Valid()
  {
    SlotOf(k, Tics(k, frame) % MICROS_PER_MAJOR_FRAME)
  }

  /** Where in a second its slot `slot` is processed. A period of one microsecond rounds up every time. */
  function FrameOfSlot(k: Consts, slot: nat): nat
    requires k.Valid()
  {
    if k.Period() > 1 then slot else if slot == 0 then k.totalSlots - 1 else slot - 1
  }

  lemma {:induction false} TimeAt(k: Consts, second: nat, j: nat)
    requires k.Valid() && k.totalSlots * k.Period() == MICROS_PER_MAJOR_FRAME && j < k.totalSlots
    ensures var frame := second * k.totalSlots + j;
            SecsAt(k, frame) == second && Tics(k, frame) % MICROS_PER_MAJOR_FRAME == j * k.Period()
  {
    var p, n := k.Period(), k.totalSlots;
    var frame := second * n + j;
    assert frame * p == second * (n * p) + j * p;
    MulSucc(j, p);
    MulMono(j + 1, n, p);
    DivIs(frame * p, MICROS_PER_MAJOR_FRAME, second);
  }

  lemma {:induction false} SlotWithinSecond(k: Consts, second: nat, j: nat, slot: nat)
    requires k.Valid() && k.totalSlots * k.Period() == MICROS_PER_MAJOR_FRAME
    requires j < k.totalSlots && slot < k.totalSlots
    ensures SlotAt(k, second * k.totalSlots + j) == slot <==> j == FrameOfSlot(k, slot)
  {
    var p, n := k.Period(), k.totalSlots;
    TimeAt(k, second, j);
    MulSucc(j, p);
    MulMono(j + 1, n, p);
    SlotIsModular(k, j * p);
    if p > 1 {
      DivIs(j * p + 1, p, j);
      DivIs(j, n, 0);
    } else {
      assert (j * p + 1) / p == j + 1;
      if j + 1 == n {
        DivIs(j + 1, n, 1);
      } else {
        DivIs(j + 1, n, 0);
      }
    }
  }

  /** An entry of slot `slot` is active in table pass `frame`. */
  predicate Fires(k: Consts, slot: nat, e: Entry, frame: nat)
    requires k.Valid() && e.frequency > 0
  {
    SlotAt(k, frame) == slot && SecsAt(k, frame) % e.frequency == e.remainder
  }

  /** The second in which it fires, among the `frequency` seconds from `start`. */
  function FiringSecond(e: Entry, start: nat): (s: nat)
    requires e.remainder < e.frequency
  {
    start + (e.remainder - start) % e.frequency
  }

  lemma {:induction false} FiringSecondIs(e: Entry, start: nat, second: nat)
    requires e.remainder < e.frequency && start <= second < start + e.frequency
    ensures second % e.frequency == e.remainder <==> second == FiringSecond(e, start)
  {
    var f, r := e.frequency, e.remainder;
    var d := (r - start) % f;
    var q := (r - start) / f;
    assert r - start == q * f + d;
    // second == start + x with 0 <= x < f, and start == r - d - q * f
    var x := second - start;
    assert second == (r - d + x) + (-q) * f by { assert (-q) * f == -(q * f); }
    ModShift(r - d + x, f, -q);
    if x == d {
      DivIs(r, f, 0);
    } else if 0 <= r - d + x < f {
      DivIs(r - d + x, f, 0);
    } else if r - d + x >= f {
      DivIs(r - d + x, f, 1);
    } else {
      DivIs(r - d + x, f, -1);
    }
  }

  /** In any `frequency` consecutive seconds an entry fires in exactly one table pass. */
  lemma {:induction false} FiresExactlyOnce(k: Consts, slot: nat, e: Entry, start: nat, frame: nat)
    requires k.Valid() && k.totalSlots * k.Period() == MICROS_PER_MAJOR_FRAME
    requires slot < k.totalSlots && e.remainder < e.frequency
    requires start * k.totalSlots <= frame < (start + e.frequency) * k.totalSlots
    ensures Fires(k, slot, e, frame)
       <==> frame == FiringSecond(e, start) * k.totalSlots + FrameOfSlot(k, slot)
    ensures start <= FiringSecond(e, start) < start + e.frequency && FrameOfSlot(k, slot) < k.totalSlots
  {
    var n := k.totalSlots;
    var second, j := frame / n, frame % n;
    DivBounds(frame, n);
    SecondInRange(frame, n, start, start + e.frequency);
    TimeAt(k, second, j);
    SlotWithinSecond(k, second, j, slot);
    FiringSecondIs(e, start, second);
    var f, g := FiringSecond(e, start), FrameOfSlot(k, slot);
    if frame == f * n + g {
      DivIs(frame, n, f);
    }
  }

  lemma {:induction false} SecondInRange(frame: nat, n: nat, start: nat, end: nat)
    requires n > 0 && start * n <= frame < end * n
    ensures start <= frame / n < end
  {
    DivBounds(frame, n);
    if frame / n < start {
      MulSucc(frame / n, n);
      MulMono(frame / n + 1, start, n);
    } else if end <= frame / n {
      MulMono(end, frame / n, n);
    }
  }

  // ---- Validation ----

  const GARBAGE_ENTRY := -1
  const NO_FREQUENCY := -2
  const BAD_REMAINDER := -3
  const BAD_ACTIVITY := -4
  const BAD_MSG_INDEX := -5
  const BAD_ENABLE_STATE := -6

  datatype Verdict = Good | Unused | Bad(code: int)

  function Judge(k: Consts, e: Entry): Verdict {
    if e.enableState == k.unused then
      if e.frequency != k.unused || e.remainder != k.unused || e.groupData != k.unused
         || e.kind != k.unused || e.messageIndex != k.unused then Bad(GARBAGE_ENTRY)
      else Unused
    else if e.enableState == k.enabled || e.enableState == k.disabled then
      if e.frequency == k.unused then Bad(NO_FREQUENCY)
      else if e.remainder >= e.frequency then Bad(BAD_REMAINDER)
      else if e.kind != k.sendMsg then Bad(BAD_ACTIVITY)
      else if e.messageIndex == 0 then Bad(BAD_MSG_INDEX)
      else if e.messageIndex >= k.maxMessages then Bad(BAD_MSG_INDEX)
      else Good
    else Bad(BAD_ENABLE_STATE)
  }

  function HowMany(k: Consts, table: seq<Entry>, p: Verdict -> bool): nat {
    if table == [] then 0
    else HowMany(k, table[..|table| - 1], p) + (if p(Judge(k, table[|table| - 1])) then 1 else 0)
  }

  predicate IsGood(v: Verdict) { v.Good? }
  predicate IsBad(v: Verdict) { v.Bad? }
  predicate IsUnused(v: Verdict) { v.Unused? }

  ghost predicate AllSound(k: Consts, table: seq<Entry>) {
    forall i :: 0 <= i < |table| ==> !Judge(k, table[i]).Bad?
  }

  ghost predicate FirstBad(k: Consts, table: seq<Entry>, i: nat) {
    i < |table| && Judge(k, table[i]).Bad? && forall j :: 0 <= j < i ==> !Judge(k, table[j]).Bad?
  }

  /** The counts add up to the table; the result is 0 when no entry is bad, and otherwise the code of the
      first bad one. */
  method ValidateScheduleData(k: Consts, table: array<Entry>) returns (result: int, good: nat, bad: nat, unused: nat)
    ensures good == HowMany(k, table[..], IsGood) && bad == HowMany(k, table[..], IsBad)
    ensures unused == HowMany(k, table[..], IsUnused) && good + bad + unused == table.Length
    ensures result == 0 <==> bad == 0
    ensures result == 0 <==> AllSound(k, table[..])
    ensures result != 0 ==> exists i: nat :: FirstBad(k, table[..], i) && result == Judge(k, table[i]).code
    // in the entries' own fields: what a table without a bad entry is
    ensures result == 0 <==> forall i :: 0 <= i < table.Length ==>
              var e := table[i];
              if e.enableState == k.unused then
                e.frequency == e.remainder == e.groupData == e.kind == e.messageIndex == k.unused
              else
                && (e.enableState == k.enabled || e.enableState == k.disabled)
                && e.frequency != k.unused && e.remainder < e.frequency && e.kind == k.sendMsg
                && 0 < e.messageIndex < k.maxMessages
    ensures result in {0, -1, -2, -3, -4, -5, -6}
  {
    result, good, bad, unused := 0, 0, 0, 0;
    ghost var firstBad: nat := 0;
    for i := 0 to table.Length
      invariant good == HowMany(k, table[..i], IsGood) && bad == HowMany(k, table[..i], IsBad)
      invariant unused == HowMany(k, table[..i], IsUnused) && good + bad + unused == i
      invariant result == 0 <==> bad == 0
      invariant result == 0 ==> forall j :: 0 <= j < i ==> !Judge(k, table[j]).Bad?
      invariant result != 0 ==>
                  firstBad < i && Judge(k, table[firstBad]) == Bad(result)
                  && forall j :: 0 <= j < firstBad ==> !Judge(k, table[j]).Bad?
    {
      var entryResult := JudgeEntry(k, table[i]);
      assert table[..i + 1][..i] == table[..i];
      match entryResult {
        case Good => good := good + 1;
        case Unused => unused := unused + 1;
        case Bad(code) =>
          bad := bad + 1;
          if result == 0 {
            result := code;
            firstBad := i;
          }
      }
    }
    assert table[..table.Length] == table[..];
    forall i | 0 <= i < table.Length {
      CodeIsFailedTest(k, table[i]);
    }
    if result != 0 {
      assert FirstBad(k, table[..], firstBad);
    }
  }

  /** Which test an entry fails when it is judged bad, by the code; in particular an entry fails none if and
      only if it is sound. */
  lemma {:induction false} CodeIsFailedTest(k: Consts, e: Entry)
    ensures var v, state := Judge(k, e), e.enableState;
            var used := state != k.unused && (state == k.enabled || state == k.disabled);
            && (v == Unused <==>
                  state == e.frequency == e.remainder == e.groupData == e.kind == e.messageIndex == k.unused)
            && (v == Bad(-1) <==> state == k.unused && v != Unused)
            && (v == Bad(-2) <==> used && e.frequency == k.unused)
            && (v == Bad(-3) <==> used && e.frequency != k.unused && e.remainder >= e.frequency)
            && (v == Bad(-4) <==> used && e.frequency != k.unused && e.remainder < e.frequency && e.kind != k.sendMsg)
            && (v == Bad(-5) <==>
                  used && e.frequency != k.unused && e.remainder < e.frequency && e.kind == k.sendMsg
                  && (e.messageIndex == 0 || e.messageIndex >= k.maxMessages))
            && (v == Bad(-6) <==> state != k.unused && state != k.enabled && state != k.disabled)
            && (v == Good <==>
                  used && e.frequency != k.unused && e.remainder < e.frequency && e.kind == k.sendMsg
                  && 0 < e.messageIndex < k.maxMessages)
  {
  }

  /** The tests in the order in which the program makes them. */
  method JudgeEntry(k: Consts, e: Entry) returns (v: Verdict)
    ensures v == Judge(k, e)
    ensures v.Bad? ==> v.code != 0
  {
    var entryResult := 0;
    if e.enableState == k.unused {
      if e.frequency != k.unused || e.remainder != k.unused || e.groupData != k.unused
         || e.kind != k.unused || e.messageIndex != k.unused {
        entryResult := GARBAGE_ENTRY;
      }
      return if entryResult == 0 then Unused else Bad(entryResult);
    } else if e.enableState == k.enabled || e.enableState == k.disabled {
      if e.frequency == k.unused {
        entryResult := NO_FREQUENCY;
      } else if e.remainder >= e.frequency {
        entryResult := BAD_REMAINDER;
      } else if e.kind != k.sendMsg {
        entryResult := BAD_ACTIVITY;
      } else if e.messageIndex == 0 {
        entryResult := BAD_MSG_INDEX;
      } else if e.messageIndex >= k.maxMessages {
        entryResult := BAD_MSG_INDEX;
      }
    } else {
      entryResult := BAD_ENABLE_STATE;
    }
    return if entryResult == 0 then Good else Bad(entryResult);
  }

  // ---- Processing a slot ----

  /** The run-time corruption test of processNextEntry. */
  predicate Corrupted(k: Consts, e: Entry) {
    e.messageIndex >= k.maxMessages || e.frequency == k.unused || e.kind != k.sendMsg || e.remainder >= e.frequency
  }

  /** An enabled entry can be processed without corruption exactly when validation would pass it, but for
      the index 0, which only validation refuses. */
  lemma {:induction false} ValidationIsSufficient(k: Consts, e: Entry)
    requires k.Valid() && e.enableState == k.enabled
    ensures !Corrupted(k, e)
       <==> Judge(k, e).Good? || (e.messageIndex == 0 && Judge(k, e) == Bad(BAD_MSG_INDEX) && 0 < k.maxMessages)
  {
  }

  predicate Due(k: Consts, e: Entry, secs: nat) {
    e.enableState == k.enabled && e.frequency > 0 && secs % e.frequency == e.remainder
  }

  /** The message indices that the entries of a sound slot send, in order. */
  function DueMessages(k: Consts, entries: seq<Entry>, secs: nat): seq<nat> {
    if entries == [] then []
    else
      var last := entries[|entries| - 1];
      DueMessages(k, entries[..|entries| - 1], secs) + (if Due(k, last, secs) then [last.messageIndex] else [])
  }

  /** The part of the table that belongs to a slot. */
  function SlotEntries(k: Consts, table: seq<Entry>, slot: nat): (entries: seq<Entry>)
    requires |table| == k.TableEntries() && slot < k.totalSlots
    ensures |entries| == k.entriesPerSlot
    ensures forall i :: 0 <= i < k.entriesPerSlot ==>
              slot * k.entriesPerSlot + i < |table| && entries[i] == table[slot * k.entriesPerSlot + i]
  {
    SlotFits(k, slot);
    table[slot * k.entriesPerSlot..slot * k.entriesPerSlot + k.entriesPerSlot]
  }

  class TrickCFSScheduler {
    const k: Consts
    const scheduleTable: array<Entry>
    var nextSlotNumber: nat
    var simTimeSecs: int
    var simTimeMicros: int

    ghost predicate Valid()
      reads this
    {
      k.Valid() && scheduleTable.Length == k.TableEntries()
    }

    constructor (consts: Consts, table: array<Entry>)
      requires consts.Valid() && table.Length == consts.TableEntries()
      ensures Valid() && k == consts && scheduleTable == table
    {
      k, scheduleTable, nextSlotNumber, simTimeSecs, simTimeMicros := consts, table, 0, -1, -1;
    }

    /** `timeTics` is the simulated time in tics. */
    method UpdateTimeTics(timeTics: nat, ticsPerSec: nat) returns (schSlot: int)
      requires Valid() && ticsPerSec > 0
      modifies this`simTimeSecs, this`simTimeMicros
      ensures simTimeSecs * ticsPerSec + simTimeMicros == timeTics && 0 <= simTimeMicros < ticsPerSec
      ensures schSlot == SlotOf(k, simTimeMicros)
    {
      var period := MICROS_PER_MAJOR_FRAME / k.totalSlots;
      simTimeSecs := timeTics / ticsPerSec;
      simTimeMicros := timeTics % ticsPerSec;
      DivBounds(timeTics, ticsPerSec);
      schSlot := simTimeMicros / period;
      var remainder := simTimeMicros - schSlot * period;
      remainder := remainder + 1;
      schSlot := schSlot + remainder / period;
      if schSlot == k.totalSlots {
        schSlot := 0;
      }
    }

    /** One entry. A corrupted entry is disabled and ends the slot, as does a failed transmission. */
    method ProcessNextEntry(at: nat, transmit: nat -> bool) returns (failed: bool, sent: seq<nat>)
      requires Valid() && at < scheduleTable.Length && simTimeSecs >= 0
      requires scheduleTable[at].enableState == k.enabled
      modifies scheduleTable
      ensures var e := old(scheduleTable[at]);
              if e.messageIndex >= k.maxMessages || e.frequency == k.unused || e.kind != k.sendMsg
                 || e.remainder >= e.frequency then
                failed && sent == [] && scheduleTable[..] == old(scheduleTable[..])[at := e.(enableState := k.disabled)]
              else
                && scheduleTable[..] == old(scheduleTable[..])
                && sent == (if Due(k, e, simTimeSecs) then [e.messageIndex] else [])
                && failed == (Due(k, e, simTimeSecs) && !transmit(e.messageIndex))
    {
      failed, sent := false, [];
      var e := scheduleTable[at];
      if e.messageIndex >= k.maxMessages || e.frequency == k.unused || e.kind != k.sendMsg
         || e.remainder >= e.frequency {
        scheduleTable[at] := e.(enableState := k.disabled);
        failed := true;
      } else {
        var remainder := simTimeSecs % e.frequency;
        if remainder == e.remainder {
          sent := [e.messageIndex];
          if !transmit(e.messageIndex) {
            failed := true;
          }
        }
      }
    }

    /** A table that validation has accepted is processed without ever taking the corruption branch: it
        stays as it is, and the slot sends the messages that are due, in order, up to a failed one. */
    method ProcessNextSlot(transmit: nat -> bool) returns (failed: bool, sent: seq<nat>)
      requires Valid() && simTimeSecs >= 0 && nextSlotNumber < k.totalSlots
      requires AllSound(k, scheduleTable[..])
      modifies scheduleTable, this`nextSlotNumber
      ensures scheduleTable[..] == old(scheduleTable[..])
      ensures Delivered(DueMessages(k, SlotEntries(k, scheduleTable[..], old(nextSlotNumber)), simTimeSecs),
                        sent, failed, transmit)
      ensures nextSlotNumber == old(nextSlotNumber) + (if failed then 0 else 1)
    {
      SlotFits(k, nextSlotNumber);
      var base := nextSlotNumber * k.entriesPerSlot;
      failed, sent := ProcessEntries(base, transmit, SlotEntries(k, scheduleTable[..], nextSlotNumber));
      if !failed {
        nextSlotNumber := nextSlotNumber + 1;
      }
    }

    /** A whole table pass, for a time whose slot exists (see `SlotInRange`). */
    method ProcessScheduleTable(timeTics: nat, ticsPerSec: nat, transmit: nat -> bool)
      returns (failed: bool, sent: seq<nat>)
      requires Valid() && ticsPerSec > 0 && AllSound(k, scheduleTable[..])
      requires 0 <= SlotOf(k, timeTics % ticsPerSec) < k.totalSlots
      modifies scheduleTable, this`nextSlotNumber, this`simTimeSecs, this`simTimeMicros
      ensures scheduleTable[..] == old(scheduleTable[..])
      ensures var entries := SlotEntries(k, scheduleTable[..], SlotOf(k, timeTics % ticsPerSec));
              Delivered(DueMessages(k, entries, timeTics / ticsPerSec), sent, failed, transmit)
    {
      var slot := UpdateTimeTics(timeTics, ticsPerSec);
      DivIs(timeTics, ticsPerSec, simTimeSecs);
      if simTimeSecs < 0 {
        MulMono(simTimeSecs, -1, ticsPerSec);
      }
      nextSlotNumber := slot;
      failed, sent := ProcessNextSlot(transmit);
    }

    /** One sound entry, if it is enabled. */
    method ProcessSound(at: nat, transmit: nat -> bool) returns (failed: bool, sent: seq<nat>)
      requires Valid() && at < scheduleTable.Length && simTimeSecs >= 0 && !Judge(k, scheduleTable[at]).Bad?
      modifies scheduleTable
      ensures scheduleTable[..] == old(scheduleTable[..])
      ensures var e := scheduleTable[at];
              && sent == (if Due(k, e, simTimeSecs) then [e.messageIndex] else [])
              && failed == (Due(k, e, simTimeSecs) && !transmit(e.messageIndex))
    {
      failed, sent := false, [];
      if scheduleTable[at].enableState == k.enabled {
        failed, sent := ProcessNextEntry(at, transmit);
      }
    }

    method ProcessEntries(base: nat, transmit: nat -> bool, ghost entries: seq<Entry>)
      returns (failed: bool, sent: seq<nat>)
      requires Valid() && simTimeSecs >= 0 && base + k.entriesPerSlot <= scheduleTable.Length
      requires |entries| == k.entriesPerSlot
      requires forall i :: 0 <= i < |entries| ==> scheduleTable[base + i] == entries[i] && !Judge(k, entries[i]).Bad?
      modifies scheduleTable
      ensures scheduleTable[..] == old(scheduleTable[..])
      ensures Delivered(DueMessages(k, entries, simTimeSecs), sent, failed, transmit)
    {
      failed, sent := false, [];
      ghost var table := scheduleTable[..];
      ghost var secs := simTimeSecs;
      for n := 0 to k.entriesPerSlot
        invariant scheduleTable[..] == table
        invariant sent == DueMessages(k, entries[..n], secs)
        invariant forall i :: 0 <= i < |sent| ==> transmit(sent[i])
      {
        assert scheduleTable[base + n] == table[base + n] == entries[n];
        DuePush(k, entries, n, secs);
        var more: seq<nat>;
        failed, more := ProcessSound(base + n, transmit);
        sent := sent + more;
        if failed {
          DuePrefix(k, entries, n + 1, secs);
          return;
        }
      }
      assert entries[..k.entriesPerSlot] == entries;
    }
  }

  /** All that is due has been sent, or all up to and including the first that failed. */
  ghost predicate Delivered(due: seq<nat>, sent: seq<nat>, failed: bool, transmit: nat -> bool) {
    && sent <= due
    && (if failed then sent != [] && !transmit(sent[|sent| - 1]) else sent == due)
    && forall i :: 0 <= i < |sent| - (if failed then 1 else 0) ==> transmit(sent[i])
  }

  lemma {:induction false} SlotFits(k: Consts, slot: nat)
    requires slot < k.totalSlots
    ensures slot * k.entriesPerSlot + k.entriesPerSlot <= k.TableEntries()
  {
    MulSucc(slot, k.entriesPerSlot);
    MulMono(slot + 1, k.totalSlots, k.entriesPerSlot);
  }

  lemma {:induction false} DuePush(k: Consts, entries: seq<Entry>, n: nat, secs: nat)
    requires n < |entries|
    ensures DueMessages(k, entries[..n + 1], secs)
         == DueMessages(k, entries[..n], secs) + (if Due(k, entries[n], secs) then [entries[n].messageIndex] else [])
  {
    assert entries[..n + 1][..n] == entries[..n];
  }

  lemma {:induction false} DuePrefix(k: Consts, entries: seq<Entry>, n: nat, secs: nat)
    requires n <= |entries|
    ensures DueMessages(k, entries[..n], secs) <= DueMessages(k, entries, secs)
    decreases |entries| - n
  {
    if n < |entries| {
      DuePrefix(k, entries, n + 1, secs);
      DuePush(k, entries, n, secs);
    } else {
      assert entries[..n] == entries;
    }
  }

  // ---- How often an entry's message is sent ----

  /** The entries of a slot that are due, by position, in order. */
  function DueAt(k: Consts, entries: seq<Entry>, secs: nat): (due: seq<nat>)
    ensures forall j :: 0 <= j < |due| ==> due[j] < |entries| && Due(k, entries[due[j]], secs)
    ensures forall i, j :: 0 <= i < j < |due| ==> due[i] < due[j]
    ensures forall o :: 0 <= o < |entries| && Due(k, entries[o], secs) ==> o in due
  {
    if entries == [] then []
    else
      var n := |entries| - 1;
      DueAt(k, entries[..n], secs) + (if Due(k, entries[n], secs) then [n] else [])
  }

  /** The messages of a pass are those of the entries due, one for each and in their order. */
  lemma {:induction false} MessagesOfDue(k: Consts, entries: seq<Entry>, secs: nat)
    ensures var due := DueAt(k, entries, secs);
            DueMessages(k, entries, secs)
            == seq(|due|, j requires 0 <= j < |due| => entries[due[j]].messageIndex)
  {
    if entries != [] {
      var n := |entries| - 1;
      MessagesOfDue(k, entries[..n], secs);
      var before := DueAt(k, entries[..n], secs);
      assert forall j :: 0 <= j < |before| ==> entries[..n][before[j]] == entries[before[j]];
    }
  }

  /** Table pass `frame` sends the message of the entry at `at`. */
  predicate SentIn(k: Consts, table: seq<Entry>, at: nat, frame: nat)
    requires k.Valid() && |table| == k.TableEntries() && at < |table|
  {
    var slot := at / k.entriesPerSlot;
    DivBounds(at, k.entriesPerSlot);
    EntrySlot(k, at);
    SlotAt(k, frame) == slot && at % k.entriesPerSlot in DueAt(k, SlotEntries(k, table, slot), SecsAt(k, frame))
  }

  lemma {:induction false} EntrySlot(k: Consts, at: nat)
    requires at < k.TableEntries()
    ensures k.entriesPerSlot > 0 && 0 <= at / k.entriesPerSlot < k.totalSlots
    ensures at % k.entriesPerSlot < k.entriesPerSlot
  {
    var n := k.entriesPerSlot;
    if n == 0 {
      MulMono(0, k.totalSlots, n);
    } else {
      DivBounds(at, n);
      if at / n >= k.totalSlots {
        MulMono(k.totalSlots, at / n, n);
      }
    }
  }

  lemma {:induction false} SentInIsFiring(k: Consts, table: seq<Entry>, at: nat, frame: nat)
    requires k.Valid() && |table| == k.TableEntries() && at < |table|
    requires table[at].enableState == k.enabled && table[at].frequency > 0
    ensures SentIn(k, table, at, frame) <==> Fires(k, at / k.entriesPerSlot, table[at], frame)
  {
    EntrySlot(k, at);
    DivBounds(at, k.entriesPerSlot);
    var slot, o := at / k.entriesPerSlot, at % k.entriesPerSlot;
    var entries := SlotEntries(k, table, slot);
    assert entries[o] == table[at];
    if o in DueAt(k, entries, SecsAt(k, frame)) {
      assert Due(k, entries[o], SecsAt(k, frame));
    }
  }

  /** In how many of `n` passes from `from` the entry's message is sent. */
  function PassesSending(k: Consts, table: seq<Entry>, at: nat, from: nat, n: nat): nat
    requires k.Valid() && |table| == k.TableEntries() && at < |table|
  {
    if n == 0 then 0
    else PassesSending(k, table, at, from, n - 1) + (if SentIn(k, table, at, from + n - 1) then 1 else 0)
  }

  lemma {:induction false} OnlyPass(k: Consts, table: seq<Entry>, at: nat, from: nat, n: nat, only: nat)
    requires k.Valid() && |table| == k.TableEntries() && at < |table|
    requires forall frame: nat :: from <= frame < from + n ==> (SentIn(k, table, at, frame) <==> frame == only)
    ensures PassesSending(k, table, at, from, n) == if from <= only < from + n then 1 else 0
  {
    if n > 0 {
      OnlyPass(k, table, at, from, n - 1, only);
      assert SentIn(k, table, at, from + n - 1) <==> from + n - 1 == only;
    }
  }

  /** Stepped once per period on a validated table, the scheduler has the message of an enabled entry of
      frequency f to send in exactly one pass of any f consecutive seconds; it does send it there unless an
      earlier transmission of that pass fails. */
  lemma {:induction false} SentExactlyOnce(k: Consts, table: seq<Entry>, at: nat, start: nat)
    requires k.Valid() && k.totalSlots * k.Period() == MICROS_PER_MAJOR_FRAME
    requires |table| == k.TableEntries() && at < |table| && AllSound(k, table) && table[at].enableState == k.enabled
    ensures var e := table[at];
            PassesSending(k, table, at, start * k.totalSlots, e.frequency * k.totalSlots) == 1
  {
    var e, n := table[at], k.totalSlots;
    var from, len := start * n, e.frequency * n;
    assert !Judge(k, e).Bad?;
    EntrySlot(k, at);
    var slot := at / k.entriesPerSlot;
    var only := FiringSecond(e, start) * n + FrameOfSlot(k, slot);
    assert (start + e.frequency) * n == from + len;
    forall frame: nat | from <= frame < from + len ensures SentIn(k, table, at, frame) <==> frame == only {
      FiresExactlyOnce(k, slot, e, start, frame);
      SentInIsFiring(k, table, at, frame);
    }
    FiringFrame(k, slot, e, start);
    OnlyPass(k, table, at, from, len, only);
  }

  lemma {:induction false} FiringFrame(k: Consts, slot: nat, e: Entry, start: nat)
    requires k.Valid() && k.totalSlots * k.Period() == MICROS_PER_MAJOR_FRAME
    requires slot < k.totalSlots && e.remainder < e.frequency
    ensures var frame := FiringSecond(e, start) * k.totalSlots + FrameOfSlot(k, slot);
            start * k.totalSlots <= frame < (start + e.frequency) * k.totalSlots
  {
    var n := k.totalSlots;
    MulSucc(start, n);
    MulMono(start, start + e.frequency - 1, n);
    MulSucc(start + e.frequency, n);
    FiresExactlyOnce(k, slot, e, start, start * n);
    var second := FiringSecond(e, start);
    MulMono(start, second, n);
    MulMono(second + 1, start + e.frequency, n);
    MulSucc(second, n);
  }
}
