/**
 * The `.stat-number` counters of initializeCounters. Each frame adds target / 125
 * (duration 2000 ms over 16 ms frames) to `current`; the model keeps `current` exact as
 * steps * target / 125 and so counts whole steps instead of accumulating floats.
 */
module Counters {
  import opened Wrappers
  import opened Text

  /** duration / 16 = 2000 / 16: the number of increments of target / 125 that add up to target. */
  const Frames: nat := 125

  /** Math.ceil(a / b) for a positive divisor. */
  function CeilDiv(a: int, b: nat): (r: int)
    requires b > 0
    ensures (r - 1) * b < a <= r * b
  {
    -((-a) / b)
  }

  /** `current < target` with current == steps * target / Frames (false when target is NaN). */
  predicate Running(steps: nat, target: Option<int>) {
    target.Some? && steps * target.value < Frames * target.value
  }

  /** The text once the counter stops: String(target), and target + '%' when target is 100. */
  function FinalText(target: Option<int>): (s: string)
    ensures s == "100%" <==> target == Some(100)
    ensures target.Some? && target.value != 100 ==> s == IntToString(target.value)
    ensures target.None? ==> s == "NaN"
  {
    match target
    case None => "NaN"
    case Some(t) =>
      if t == 100 then
        assert NatToString(100) == NatToString(10) + "0" == "100";
        IntToString(t) + "%"
      else
        var s := IntToString(t);
        assert |s| == 4 ==> s[3] != '%' by {
          if |s| == 4 {
            IntToStringChars(t, 3);
          }
        }
        s
  }

  /** A counter keeps requesting frames exactly while fewer than 125 steps are done and its target is positive. */
  lemma RunningExactly(steps: nat, t: int)
    requires steps <= Frames
    ensures Running(steps, Some(t)) <==> t > 0 && steps < Frames
  {
    if t > 0 {
      if steps < Frames {
        MulMonotone(steps + 1, Frames, t);
      } else {
        assert steps == Frames;
      }
    } else {
      MulMonotone(steps, Frames, -t);
    }
  }

  lemma MulMonotone(a: int, b: int, c: int)
    requires a <= b && 0 <= c
    ensures a * c <= b * c
  {
    assert b * c - a * c == (b - a) * c;
  }

  /**
   * While running, the displayed value after step k lies between 1 and target, never
   * decreases from one step to the next, and reaches target on the last step.
   */
  lemma FrameTextBounds(t: int, k: nat, l: nat)
    requires 0 < t && 1 <= k <= l <= Frames
    ensures 1 <= CeilDiv(k * t, Frames) <= CeilDiv(l * t, Frames) <= t
    ensures CeilDiv(Frames * t, Frames) == t
  {
    MulMonotone(1, k, t);
    MulMonotone(k, l, t);
    MulMonotone(l, Frames, t);
    var a, b := CeilDiv(k * t, Frames), CeilDiv(l * t, Frames);
    assert (a - 1) * Frames < k * t <= a * Frames;
    assert (b - 1) * Frames < l * t <= b * Frames;
  }

  class Counter {
    /** parseInt of the data-count attribute; None when it is NaN. */
    const target: Option<int>
    /** The increments applied so far: current == steps * target / Frames. */
    var steps: nat
    /** The counter's textContent. */
    var text: string

    /** No target is ever passed by more than the 125 increments. */
    predicate Valid()
      reads this
    {
      steps <= Frames
    }

    constructor (target: Option<int>, text: string)
      ensures Valid() && this.target == target && steps == 0 && this.text == text
    {
      this.target := target;
      steps := 0;
      this.text := text;
    }

    /**
     * One call of updateCounter; `again` tells whether it requested another animation
     * frame. Once stopped, `steps` no longer moves, so every later call (a re-reveal of
     * the section) writes the same final text again.
     */
    method Update() returns (again: bool)
      requires Valid()
      modifies this`steps, this`text
      ensures Valid()
      ensures again <==> Running(old(steps), target)
      ensures again ==> steps == old(steps) + 1 && text == IntToString(CeilDiv(steps * target.value, Frames))
      ensures !again ==> steps == old(steps) && text == FinalText(target) && !Running(steps, target)
    {
      if Running(steps, target) {
        RunningExactly(steps, target.value);
        steps := steps + 1;
        text := IntToString(CeilDiv(steps * target.value, Frames));
        again := true;
      } else {
        text := FinalText(target);
        again := false;
      }
    }
  }
}
