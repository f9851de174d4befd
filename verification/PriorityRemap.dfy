/** OS_PriorityRemap: OSAL priorities 0 (highest) to 255 (lowest), mapped upside down onto the local range. */
module PriorityRemap {
  import opened Arithmetic

  const OS_MAX_TASK_PRIORITY: int := 255

  /** C's integer division, which truncates towards zero. */
  function TruncDiv(a: int, b: int): int
    requires b > 0
  {
    if a >= 0 then a / b else -((-a) / b)
  }

  function Remap(min: int, max: int, inputPri: nat): int {
    if inputPri == 0 then max
    else if inputPri >= OS_MAX_TASK_PRIORITY then min
    else
      var inverted := (OS_MAX_TASK_PRIORITY - 1) - inputPri;
      var scaled := inverted * ((max - min) - 2) + OS_MAX_TASK_PRIORITY / 2;
      TruncDiv(scaled, OS_MAX_TASK_PRIORITY - 2) + min + 1
  }

  /** The interior of the map: step x of 253 on the way up, over a width of w local priorities. */
  function Level(w: nat, x: nat): int { (x * w + 127) / 253 }

  lemma {:induction false} RemapIsLevel(min: int, max: int, pri: nat)
    requires max - min >= 2 && 0 < pri < 255
    ensures Remap(min, max, pri) == Level(max - min - 2, 254 - pri) + min + 1
  {
    MulMono(0, 254 - pri, max - min - 2);
  }

  lemma {:induction false} LevelMono(w: nat, x: nat, y: nat)
    requires x <= y
    ensures Level(w, x) <= Level(w, y)
  {
    MulMono(x, y, w);
    DivBounds(x * w + 127, 253);
    DivBounds(y * w + 127, 253);
  }

  lemma {:induction false} LevelEnds(w: nat)
    ensures Level(w, 0) == 0 && Level(w, 253) == w
  {
    DivIs(127, 253, 0);
    DivIs(253 * w + 127, 253, w);
  }

  /** Only 0 maps to the maximum and only 255 and above to the minimum; the others lie strictly between. */
  lemma {:induction false} EndsAreReserved(min: int, max: int, pri: nat)
    requires max - min >= 2
    ensures Remap(min, max, pri) == max <==> pri == 0
    ensures Remap(min, max, pri) == min <==> pri >= 255
    ensures 0 < pri < 255 ==> min < Remap(min, max, pri) < max
  {
    if 0 < pri < 255 {
      var w := max - min - 2;
      RemapIsLevel(min, max, pri);
      LevelEnds(w);
      LevelMono(w, 0, 254 - pri);
      LevelMono(w, 254 - pri, 253);
    }
  }

  /** A more urgent OSAL priority is never mapped below a less urgent one. */
  lemma {:induction false} OrderReversed(min: int, max: int, a: nat, b: nat)
    requires max - min >= 2 && a <= b
    ensures Remap(min, max, a) >= Remap(min, max, b)
  {
    EndsAreReserved(min, max, a);
    EndsAreReserved(min, max, b);
    if 0 < a && b < 255 {
      RemapIsLevel(min, max, a);
      RemapIsLevel(min, max, b);
      LevelMono(max - min - 2, 254 - b, 254 - a);
    }
  }

  /** The interior is the exact straight line from max - 1 down to min + 1, rounded: 253 times the error is
      at most 127 upwards and 125 downwards, which leaves one value. */
  lemma {:induction false} NearTheLine(min: int, max: int, pri: nat)
    requires max - min >= 2 && 0 < pri < 255
    ensures -125 <= 253 * (Remap(min, max, pri) - (min + 1)) - (254 - pri) * (max - min - 2) <= 127
  {
    RemapIsLevel(min, max, pri);
    DivBounds((254 - pri) * (max - min - 2) + 127, 253);
  }

  /** With limits less than 2 apart the interior is no line, but still that quotient rounded towards zero. */
  lemma {:induction false} RoundsTowardsZero(min: int, max: int, pri: nat)
    requires 0 < pri < 255
    ensures var scaled, level := (254 - pri) * (max - min - 2) + 127, Remap(min, max, pri) - (min + 1);
            if scaled >= 0 then 0 <= scaled - 253 * level < 253 && level >= 0
            else -253 < scaled - 253 * level <= 0 && level <= 0
  {
    var scaled := (254 - pri) * (max - min - 2) + 127;
    if scaled >= 0 {
      DivBounds(scaled, 253);
    } else {
      DivBounds(-scaled, 253);
    }
  }

  // ---- When every interior local priority is used ----

  ghost predicate IsOutput(min: int, max: int, out: int) {
    exists pri: nat :: 0 < pri < 255 && Remap(min, max, pri) == out
  }

  lemma {:induction false} LevelStep(w: nat, x: nat)
    ensures w <= 253 ==> Level(w, x + 1) <= Level(w, x) + 1
  {
    MulSucc(x, w);
    DivBounds(x * w + 127, 253);
    DivBounds(x * w + w + 127, 253);
  }

  /** With a slope of at most one, no level is skipped on the way up. */
  lemma {:induction false} Reached(w: nat, y: nat, top: nat) returns (x: nat)
    requires w <= 253 && y <= Level(w, top) && top <= 253
    ensures x <= top && Level(w, x) == y
  {
    LevelEnds(w);
    if y == Level(w, top) {
      x := top;
    } else {
      LevelStep(w, top - 1);
      x := Reached(w, y, top - 1);
    }
  }

  /** More levels than steps: some step goes up by two or more. */
  lemma {:induction false} Skips(w: nat, top: nat) returns (x: nat)
    requires Level(w, top) > top
    ensures x < top && Level(w, x + 1) >= Level(w, x) + 2
  {
    LevelEnds(w);
    if Level(w, top - 1) > top - 1 {
      x := Skips(w, top - 1);
    } else {
      x := top - 1;
    }
  }

  lemma {:induction false} SkippedIsNoOutput(min: int, max: int, x: nat)
    requires max - min >= 2 && Level(max - min - 2, x + 1) >= Level(max - min - 2, x) + 2
    ensures !IsOutput(min, max, Level(max - min - 2, x) + 1 + min + 1)
  {
    var w := max - min - 2;
    forall pri: nat | 0 < pri < 255 ensures Remap(min, max, pri) != Level(w, x) + 1 + min + 1 {
      RemapIsLevel(min, max, pri);
      if 254 - pri <= x {
        LevelMono(w, 254 - pri, x);
      } else {
        LevelMono(w, x + 1, 254 - pri);
      }
    }
  }

  lemma {:induction false} OntoIfFew(min: int, max: int, out: int)
    requires 2 <= max - min <= 255 && min < out < max
    ensures IsOutput(min, max, out)
  {
    var w := max - min - 2;
    LevelEnds(w);
    var x := Reached(w, out - min - 1, 253);
    RemapIsLevel(min, max, 254 - x);
    assert Remap(min, max, 254 - x) == out;
  }

  lemma {:induction false} MissedIfMany(min: int, max: int) returns (out: int)
    requires max - min > 255
    ensures min < out < max && !IsOutput(min, max, out)
  {
    var w := max - min - 2;
    LevelEnds(w);
    var x := Skips(w, 253);
    SkippedIsNoOutput(min, max, x);
    LevelMono(w, 0, x);
    LevelMono(w, x + 1, 253);
    out := Level(w, x) + 1 + min + 1;
  }

  /** Every local priority strictly between the limits is the image of some OSAL priority if and only if
      there are at most 254 of them. */
  lemma {:induction false} OntoTheInterior(min: int, max: int)
    requires max - min >= 2
    ensures (forall out :: min < out < max ==> IsOutput(min, max, out)) <==> max - min - 1 <= 254
  {
    if max - min <= 255 {
      forall out | min < out < max ensures IsOutput(min, max, out) {
        OntoIfFew(min, max, out);
      }
    } else {
      var out := MissedIfMany(min, max);
    }
  }
}
