/** The jitter filter of components/GestureController.tsx: an exponential
    moving average applied to the pointer position, one axis at a time. */
module Smoothing {

  /** The constructor's default coefficient. */
  const DefaultAlpha: real := 0.15

  /** One filter step on one axis: move a fraction `alpha` of the way from
      `current` to `target`. */
  function Ema(current: real, target: real, alpha: real): real {
    current + (target - current) * alpha
  }

  /** With 0 < alpha <= 1 a step never overshoots: the new value lies between
      the old value and the target, it is no farther from the target than the
      old value was, and it moves whenever it was not already there. */
  lemma EmaBetween(current: real, target: real, alpha: real)
    requires 0.0 < alpha <= 1.0
    ensures current <= target ==> current <= Ema(current, target, alpha) <= target
    ensures target <= current ==> target <= Ema(current, target, alpha) <= current
    ensures target - Ema(current, target, alpha) == (1.0 - alpha) * (target - current)
    ensures current != target ==> Ema(current, target, alpha) != current
  {
    var d := target - current;
    assert Ema(current, target, alpha) == current + d * alpha;
    if d >= 0.0 {
      assert 0.0 <= d * alpha <= d * 1.0;
    } else {
      assert d * 1.0 <= d * alpha <= 0.0;
    }
    assert d != 0.0 ==> d * alpha != 0.0;
  }

  /** The filter output after n frames with the same target. */
  function Iterate(start: real, target: real, alpha: real, n: nat): real
    decreases n
  {
    if n == 0 then start else Ema(Iterate(start, target, alpha, n - 1), target, alpha)
  }

  /** `b` to the power `n`. */
  function Power(b: real, n: nat): real
    decreases n
  {
    if n == 0 then 1.0 else b * Power(b, n - 1)
  }

  /** Fed a constant target, the filter stays between its start and the
      target and moves toward the target on every frame, never away. */
  lemma {:induction false} IterateMonotone(start: real, target: real, alpha: real, n: nat)
    requires 0.0 < alpha <= 1.0
    ensures start <= target ==> start <= Iterate(start, target, alpha, n) <= target
    ensures target <= start ==> target <= Iterate(start, target, alpha, n) <= start
    ensures start <= target ==> Iterate(start, target, alpha, n) <= Iterate(start, target, alpha, n + 1)
    ensures target <= start ==> Iterate(start, target, alpha, n + 1) <= Iterate(start, target, alpha, n)
    decreases n
  {
    var cur := Iterate(start, target, alpha, n);
    EmaBetween(cur, target, alpha);
    assert Iterate(start, target, alpha, n + 1) == Ema(cur, target, alpha);
    if n > 0 {
      IterateMonotone(start, target, alpha, n - 1);
    }
  }

  /** Fed a constant target, after n frames the distance to the target is
      (1 - alpha)^n times the starting distance: the filter converges
      geometrically. */
  lemma {:induction false} IterateGap(start: real, target: real, alpha: real, n: nat)
    ensures target - Iterate(start, target, alpha, n) == Power(1.0 - alpha, n) * (target - start)
    decreases n
  {
    if n > 0 {
      IterateGap(start, target, alpha, n - 1);
      EmaGapStep(Iterate(start, target, alpha, n - 1), target, alpha, n, target - start);
    }
  }

  /** If the gap to the target is (1 - alpha)^(n-1) * d before a step, it is
      (1 - alpha)^n * d after it. */
  lemma EmaGapStep(current: real, target: real, alpha: real, n: nat, d: real)
    requires n > 0
    requires target - current == Power(1.0 - alpha, n - 1) * d
    ensures target - Ema(current, target, alpha) == Power(1.0 - alpha, n) * d
  {
    var b := 1.0 - alpha;
    var p := Power(b, n - 1);
    assert Power(b, n) == b * p;
    assert target - Ema(current, target, alpha) == b * (target - current);
    assert b * (p * d) == (b * p) * d;
  }

  /** Geometric factors shrink: for 0 <= b <= 1, b^(n+1) <= b^n and every
      power lies in [0, 1]. */
  lemma {:induction false} PowerShrinks(b: real, n: nat)
    requires 0.0 <= b <= 1.0
    ensures 0.0 <= Power(b, n) <= 1.0
    ensures Power(b, n + 1) <= Power(b, n)
    decreases n
  {
    if n > 0 {
      PowerShrinks(b, n - 1);
    }
    var p := Power(b, n);
    assert Power(b, n + 1) == b * p;
    assert 0.0 <= b * p <= 1.0 * p;
  }

  /** The smoother object: its position persists across frames. */
  class LowPassFilter {
    var x: real
    var y: real
    const alpha: real

    /** A new filter sits at the centre of the viewport. */
    constructor (innerWidth: real, innerHeight: real, alpha: real := DefaultAlpha)
      ensures this.alpha == alpha
      ensures x == innerWidth / 2.0 && y == innerHeight / 2.0
    {
      this.alpha := alpha;
      x := innerWidth / 2.0;
      y := innerHeight / 2.0;
    }

    /** Moves the position one filter step toward the target on each axis and
        returns the new position. */
    method Update(targetX: real, targetY: real) returns (px: real, py: real)
      modifies this`x, this`y
      ensures x == Ema(old(x), targetX, alpha) && y == Ema(old(y), targetY, alpha)
      ensures px == x && py == y
    {
      x := x + (targetX - x) * alpha;
      y := y + (targetY - y) * alpha;
      px, py := x, y;
    }
  }
}
