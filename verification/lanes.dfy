/** The lane mapper and the player's lateral easing: a normalised hand
    position picks one of three lane offsets, and every tick the player
    moves a tenth of the way from where it is towards that offset. */
module Lanes {

  import opened Geometry

  const LaneWidth: real := 4.0
  /** Hand positions below this pick the left lane. */
  const LeftBound: real := 0.4
  /** Hand positions above this pick the right lane. */
  const RightBound: real := 0.6
  /** Fraction of the remaining distance covered per tick. */
  const Easing: real := 0.1

  /** The lane indices the game draws for obstacles: left, centre, right. */
  type LaneIndex = i: int | -1 <= i <= 1

  predicate IsLaneX(x: real)
  {
    x == -LaneWidth || x == 0.0 || x == LaneWidth
  }

  function LaneOffset(lane: LaneIndex): (x: real)
    ensures IsLaneX(x)
    ensures x < 0.0 <==> lane < 0
    ensures x > 0.0 <==> lane > 0
  {
    if lane < 0 then -LaneWidth else if lane > 0 then LaneWidth else 0.0
  }

  /** Lateral target for the player, given the (mirrored) hand position. */
  function TargetX(handX: real): (t: real)
    ensures IsLaneX(t)
    ensures t == -LaneWidth <==> handX < LeftBound
    ensures t == LaneWidth <==> handX > RightBound
    ensures t == 0.0 <==> LeftBound <= handX <= RightBound
  {
    if handX < LeftBound then -LaneWidth
    else if handX > RightBound then LaneWidth
    else 0.0
  }

  /** Moving the hand to the right never moves the target to the left. */
  lemma TargetMonotone(h1: real, h2: real)
    requires h1 <= h2
    ensures TargetX(h1) <= TargetX(h2)
  {
  }

  /** The dead zone is centred on 0.5: mirroring the hand mirrors the lane. */
  lemma TargetMirrorSymmetric(h: real)
    ensures TargetX(Mirror(h)) == -TargetX(h)
  {
  }

  /** The mirror transform applied to the tracker's horizontal coordinate. */
  function Mirror(x: real): (h: real)
    ensures 0.0 <= x <= 1.0 ==> 0.0 <= h <= 1.0
    ensures x < 0.5 <==> h > 0.5
    ensures Abs(h - 0.5) == Abs(x - 0.5)
  {
    1.0 - x
  }

  /** Mirroring twice gives back the tracker's coordinate. */
  lemma MirrorInvolution(x: real)
    ensures Mirror(Mirror(x)) == x
  {
  }

  /** One tick of easing from `x` towards `target`. */
  function Ease(x: real, target: real): (x': real)
    ensures target - x' == (1.0 - Easing) * (target - x)
    ensures x <= target ==> x <= x' <= target
    ensures target <= x ==> target <= x' <= x
  {
    x + (target - x) * Easing
  }

  /** The distance left to the target after easing: exactly nine tenths of
      the distance before, so the player never overshoots. */
  lemma EaseShrinksDistance(x: real, target: real)
    ensures Abs(target - Ease(x, target)) == (1.0 - Easing) * Abs(target - x)
  {
  }

  function Pow(b: real, n: nat): real
  {
    if n == 0 then 1.0 else b * Pow(b, n - 1)
  }

  /** `n` consecutive ticks of easing towards a fixed target. */
  function EaseTimes(x: real, target: real, n: nat): real
  {
    if n == 0 then x else Ease(EaseTimes(x, target, n - 1), target)
  }

  lemma {:induction false} PowPositive(b: real, n: nat)
    requires b > 0.0
    ensures Pow(b, n) > 0.0
  {
    if n > 0 {
      PowPositive(b, n - 1);
    }
  }

  /** After `n` ticks towards a fixed target the remaining distance is
      0.9^n times the starting distance. */
  lemma {:induction false} EaseTimesDistance(x: real, target: real, n: nat)
    ensures target - EaseTimes(x, target, n) == Pow(1.0 - Easing, n) * (target - x)
  {
    if n > 0 {
      EaseTimesDistance(x, target, n - 1);
    }
  }

  /** Easing converges but never arrives: the player reaches the target only
      if it started there. */
  lemma EaseNeverArrives(x: real, target: real, n: nat)
    ensures EaseTimes(x, target, n) == target <==> x == target
  {
    EaseTimesDistance(x, target, n);
    PowPositive(1.0 - Easing, n);
  }

  /** A player on the track stays on it: every target lies within the
      outer lanes, and easing stays between the start and the target. */
  lemma EaseStaysOnTrack(x: real, handX: real)
    requires -LaneWidth <= x <= LaneWidth
    ensures -LaneWidth <= Ease(x, TargetX(handX)) <= LaneWidth
  {
  }
}
