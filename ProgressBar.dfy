/**
 * The progress-bar animation of the main window. A progress event's
 * percentage is clamped into [0, 100] and becomes the animation's target;
 * a timer callback then moves the shown percentage one unit at a time
 * toward the target and stops once the two are equal. A new target set
 * while an animation runs is picked up by the running animation.
 */
module ProgressBar {
  import opened Outcomes

  /** `max(0, min(100, int(percentage)))`: the percentage shown on the bar. */
  function Clamp(p: int): (r: int)
    ensures 0 <= r <= 100
    ensures 0 <= p <= 100 ==> r == p
    ensures p < 0 ==> r == 0
    ensures p > 100 ==> r == 100
  {
    Max(0, Min(100, p))
  }

  function Distance(a: int, b: int): nat {
    if a <= b then b - a else a - b
  }

  /** One tick: move one unit toward the target, or stay when already there. */
  function StepToward(c: int, t: int): (n: int)
    ensures c != t ==> Distance(n, t) == Distance(c, t) - 1
    ensures c == t ==> n == t
    ensures Distance(n, c) <= 1
    ensures Min(c, t) <= n <= Max(c, t)
  {
    if c < t then c + 1 else if c > t then c - 1 else c
  }

  /** The shown value after `k` ticks toward a fixed target. */
  function Walk(c: int, t: int, k: nat): int
    decreases k
  {
    if k == 0 then c else Walk(StepToward(c, t), t, k - 1)
  }

  /**
   * Starting `d` units away, the animation shows the target after exactly
   * `d` ticks and not before.
   */
  lemma {:induction false} WalkReaches(c: int, t: int, k: nat)
    ensures k < Distance(c, t) ==> Walk(c, t, k) != t && Distance(Walk(c, t, k), t) == Distance(c, t) - k
    ensures k >= Distance(c, t) ==> Walk(c, t, k) == t
    decreases k
  {
    if k > 0 {
      WalkReaches(StepToward(c, t), t, k - 1);
    }
  }

  /** The shown percentage, the target, and whether a tick is scheduled. */
  class ProgressAnimator {
    var current: int
    var target: int
    var animating: bool

    predicate Valid()
      reads this
    {
      0 <= current <= 100 && 0 <= target <= 100 && (!animating ==> current == target)
    }

    constructor ()
      ensures Valid() && current == 0 && target == 0 && !animating
    {
      current, target, animating := 0, 0, false;
    }

    /**
     * `animate_progress_to`: set the target; when no animation is running,
     * start one (its first tick is scheduled).
     */
    method AnimateTo(t: int)
      requires Valid() && 0 <= t <= 100
      modifies this
      ensures Valid() && animating
      ensures target == t && current == old(current)
    {
      target := t;
      if animating {
        return;
      }
      animating := true;
    }

    /** The scheduled tick (`step`): move one unit, and stop when on target. */
    method Step()
      requires Valid() && animating
      modifies this
      ensures Valid()
      ensures target == old(target)
      ensures current == StepToward(old(current), old(target))
      ensures animating == (current != target)
    {
      if current < target {
        current := current + 1;
      } else if current > target {
        current := current - 1;
      }
      if current == target {
        animating := false;
      }
    }

    /**
     * Run the scheduled ticks until the animation stops. It takes as many
     * ticks as the distance to the target, one more when a tick was
     * scheduled although the bar already showed the target, and none when
     * no animation was running.
     */
    method Settle() returns (ticks: nat)
      requires Valid()
      modifies this
      ensures Valid() && !animating
      ensures target == old(target) && current == old(target)
      ensures !old(animating) ==> ticks == 0
      ensures old(animating) && old(current) != old(target) ==> ticks == Distance(old(current), old(target))
      ensures old(animating) && old(current) == old(target) ==> ticks == 1
    {
      ticks := 0;
      ghost var c0 := current;
      while animating
        invariant Valid() && target == old(target)
        invariant !old(animating) ==> ticks == 0 && !animating
        invariant old(animating) && c0 != target && animating ==>
          Distance(current, target) == Distance(c0, target) - ticks && current != target
        invariant old(animating) && c0 != target && !animating ==> ticks == Distance(c0, target)
        invariant old(animating) && c0 == target ==> (animating ==> ticks == 0) && (!animating ==> ticks == 1)
        decreases Distance(current, target), animating
      {
        Step();
        ticks := ticks + 1;
      }
    }

    /** `start_transfer` puts the shown value and the target back to 0. */
    method Rewind()
      requires Valid()
      modifies this
      ensures Valid() && current == 0 && target == 0 && animating == old(animating)
    {
      current := 0;
      target := 0;
    }
  }
}
