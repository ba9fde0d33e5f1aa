/**
 * The percentage counter of `animateConfidenceBars`: every 30 ms the displayed
 * value grows by `Math.ceil(confidence / 40)`, clamped at the target, and the
 * interval stops on the first tick that finds the target reached, displaying
 * the target itself. The timers are replaced by a loop with one iteration per
 * tick, and the `toFixed(1)` text by the value it prints.
 */
module Animations {

  /** The number of increments the counter is designed to take. */
  const Ticks: int := 40

  function Min(a: real, b: real): real
  {
    if a <= b then a else b
  }

  /** `Math.ceil(x)`. */
  function Ceil(x: real): int
  {
    -((-x).Floor)
  }

  lemma CeilBounds(x: real)
    ensures x <= Ceil(x) as real < x + 1.0
  {
  }

  /** The increment `Math.ceil(confidence / 40)`. */
  function Increment(target: real): real
  {
    Ceil(target / Ticks as real) as real
  }

  /** For a positive target the increment is positive and 40 of them reach the target. */
  lemma IncrementReachesTarget(target: real)
    requires target > 0.0
    ensures Increment(target) >= 1.0
    ensures Ticks as real * Increment(target) >= target
  {
    CeilBounds(target / 40.0);
  }

  lemma ScaleMonotonic(a: real, b: real, s: real)
    ensures a <= b && s >= 0.0 ==> a * s <= b * s
  {
  }

  /** Fewer increments than the target needs are fewer than `Ticks`. */
  lemma BelowTargetBound(n: nat, target: real)
    requires target > 0.0
    requires n as real * Increment(target) < target
    ensures n < Ticks
  {
    IncrementReachesTarget(target);
    ScaleMonotonic(Ticks as real, n as real, Increment(target));
  }

  /** The value shown after the `j + 1`-th increment. */
  function Counted(target: real, j: nat): real
  {
    Min((j + 1) as real * Increment(target), target)
  }

  /** The `n + 1`-th value is the `n`-th plus one increment, clamped at the target. */
  lemma CountedNext(target: real, n: nat)
    ensures Counted(target, n) == Min(n as real * Increment(target) + Increment(target), target)
  {
    assert (n + 1) as real * Increment(target) == n as real * Increment(target) + Increment(target);
  }

  /** For a positive target the shown values grow with the number of increments and stay in [0, target]. */
  lemma CountedMonotonic(target: real, i: nat, j: nat)
    requires target > 0.0 && i <= j
    ensures 0.0 <= Counted(target, i) <= Counted(target, j) <= target
  {
    IncrementReachesTarget(target);
    ScaleMonotonic((i + 1) as real, (j + 1) as real, Increment(target));
  }

  /**
   * Runs the counter of one bar to completion and returns the values its
   * text shows, tick by tick. Each increment adds `Increment(target)` up to
   * the target; the increments go on while the value is below the target, so
   * only the last one reaches it; the stop tick then shows the target again.
   * The values never decrease or pass the target; there are at most 40
   * increments, and none at all when the target is not positive.
   */
  method CountUp(target: real) returns (shown: seq<real>)
    ensures |shown| >= 1 && shown[|shown| - 1] == target
    ensures |shown| <= Ticks + 1
    ensures forall j :: 0 <= j < |shown| - 1 ==> shown[j] == Counted(target, j)
    ensures forall j :: 0 <= j < |shown| - 2 ==> shown[j] < target
    ensures target > 0.0 ==> |shown| >= 2 && shown[|shown| - 2] == target
    ensures target <= 0.0 ==> shown == [target]
    ensures forall j :: 0 <= j < |shown| ==> shown[j] <= target
    ensures forall i, j :: 0 <= i <= j < |shown| ==> shown[i] <= shown[j]
    ensures target >= 0.0 ==> forall j :: 0 <= j < |shown| ==> 0.0 <= shown[j]
  {
    var step := Increment(target);
    var current := 0.0;
    var increments: nat := 0;
    shown := [];
    while current < target
      invariant increments <= Ticks
      invariant |shown| == increments
      invariant forall j :: 0 <= j < increments ==> shown[j] == Counted(target, j)
      invariant forall j :: 0 <= j < increments - 1 ==> shown[j] < target
      invariant current == if increments == 0 then 0.0 else Counted(target, increments - 1)
      invariant increments > 0 ==> target > 0.0
      decreases Ticks - increments
    {
      ghost var before := increments as real * step;
      assert current == before by {
        if increments > 0 {
          CountedNext(target, increments - 1);
        }
      }
      BelowTargetBound(increments, target);
      CountedNext(target, increments);
      current := current + step;
      if current > target {
        current := target;
      }
      shown := shown + [current];
      increments := increments + 1;
    }
    shown := shown + [target];
    forall i, j | 0 <= i <= j < |shown|
      ensures 0.0 <= target ==> 0.0 <= shown[i]
      ensures shown[i] <= shown[j] <= target
    {
      if j < |shown| - 1 {
        CountedMonotonic(target, i, j);
      } else if i < |shown| - 1 {
        CountedMonotonic(target, i, i);
      }
    }
  }
}
