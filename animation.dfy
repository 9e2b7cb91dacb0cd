/**
 * The squash-and-stretch animations of the player
 * (src/game/physicsGame/components/AnimationComponent.ts).
 *
 * The component keeps the last state started for each animation type and a
 * current animation. In the source the current animation is the very object
 * stored under its type, so advancing it also advances that map entry; here
 * the current animation is named by its type and its state lives in the map.
 * `Math.sin(x * Math.PI)` is a parameter `sinPi` of the update.
 */
module Animations {
  import opened Wrappers
  import Colors

  datatype AnimationType = Landing | Jump | Bounce

  datatype AnimationState = AnimationState(
    kind: AnimationType, duration: real, elapsed: real, isActive: bool,
    scaleX: real, scaleY: real, alpha: real, rotation: real)

  /** The state every `start*Animation` installs: active, nothing elapsed, neutral scale, alpha and rotation. */
  function Started(kind: AnimationType, duration: real): (a: AnimationState)
    ensures a.kind == kind && a.duration == duration && a.elapsed == 0.0 && a.isActive
    ensures a.scaleX == 1.0 && a.scaleY == 1.0 && a.alpha == 1.0 && a.rotation == 0.0
  {
    AnimationState(kind, duration, 0.0, true, 1.0, 1.0, 1.0, 0.0)
  }

  /**
   * The landing scales at `progress`: a squash until 0.3, a bounce until
   * 0.7, then a settle back towards 1.
   */
  function LandingScales(progress: real, sinPi: real -> real): (s: (real, real))
    ensures progress < 0.3 ==> s == (1.0 + progress, 1.0 - progress)
    ensures 0.3 <= progress < 0.7 ==> s.0 == s.1
    ensures progress >= 0.7 ==> s.0 == s.1 == 1.0 + 0.1 * (1.0 - (progress - 0.7) / 0.3)
  {
    if progress < 0.3 then
      var squash := progress / 0.3;
      (1.0 + 0.3 * squash, 1.0 - 0.3 * squash)
    else if progress < 0.7 then
      var bounce := sinPi((progress - 0.3) / 0.4) * 0.2;
      (1.0 + bounce, 1.0 + bounce)
    else
      var settle := (progress - 0.7) / 0.3;
      (1.0 + 0.1 * (1.0 - settle), 1.0 + 0.1 * (1.0 - settle))
  }

  /**
   * The squash keeps width plus height at 2, and the settle phase runs from
   * 1.1 down to 1 as progress goes from 0.7 to 1.
   */
  lemma LandingPhases(progress: real, sinPi: real -> real)
    ensures progress < 0.3 ==> LandingScales(progress, sinPi).0 + LandingScales(progress, sinPi).1 == 2.0
    ensures 0.7 <= progress <= 1.0 ==> 1.0 <= LandingScales(progress, sinPi).0 <= 1.1
    ensures LandingScales(0.7, sinPi) == (1.1, 1.1)
    ensures LandingScales(1.0, sinPi) == (1.0, 1.0)
  {
  }

  /** The state after the effects of the current type are applied at `progress`. */
  function Shaped(a: AnimationState, progress: real, sinPi: real -> real): (r: AnimationState)
    ensures r.kind == a.kind && r.duration == a.duration && r.elapsed == a.elapsed
    ensures r.isActive == a.isActive && r.alpha == a.alpha
    ensures a.kind == Landing ==> (r.scaleX, r.scaleY) == LandingScales(progress, sinPi) && r.rotation == a.rotation
    ensures a.kind == Jump ==> r.scaleX == r.scaleY == 1.0 + 0.1 * sinPi(progress) && r.rotation == a.rotation
    ensures a.kind == Bounce ==> r.scaleX == r.scaleY
  {
    match a.kind
    case Landing =>
      var s := LandingScales(progress, sinPi);
      a.(scaleX := s.0, scaleY := s.1)
    case Jump =>
      var jumpScale := 1.0 + 0.1 * sinPi(progress);
      a.(scaleX := jumpScale, scaleY := jumpScale)
    case Bounce =>
      var bounce := sinPi(progress * 3.0) * (1.0 - progress) * 0.3;
      a.(scaleX := 1.0 + bounce, scaleY := 1.0 + bounce, rotation := sinPi(progress * 2.0) * (1.0 - progress) * 0.1)
  }

  /**
   * A bounce scales both axes by 1 + sin(3πp)(1 - p)·0.3 and rotates by
   * sin(2πp)(1 - p)·0.1.
   */
  lemma BounceShape(a: AnimationState, progress: real, sinPi: real -> real)
    requires a.kind == Bounce
    ensures Shaped(a, progress, sinPi).scaleX == Shaped(a, progress, sinPi).scaleY == 1.0 + sinPi(progress * 3.0) * (1.0 - progress) * 0.3
    ensures Shaped(a, progress, sinPi).rotation == sinPi(progress * 2.0) * (1.0 - progress) * 0.1
  {
  }

  /**
   * With a sine that stays in [-1, 1] and progress in [0, 1], a bounce keeps
   * the scale within 0.3 of 1 and the rotation within 0.1 of 0, fading to
   * exactly 1 and 0 at the end.
   */
  lemma BounceBounded(a: AnimationState, progress: real, sinPi: real -> real)
    requires forall x :: -1.0 <= sinPi(x) <= 1.0
    requires a.kind == Bounce && 0.0 <= progress <= 1.0
    ensures 0.7 <= Shaped(a, progress, sinPi).scaleX <= 1.3
    ensures -0.1 <= Shaped(a, progress, sinPi).rotation <= 0.1
    ensures progress == 1.0 ==> Shaped(a, progress, sinPi).scaleX == 1.0 && Shaped(a, progress, sinPi).rotation == 0.0
  {
    BounceShape(a, progress, sinPi);
    UnitTimesFraction(sinPi(progress * 3.0), 1.0 - progress);
    UnitTimesFraction(sinPi(progress * 2.0), 1.0 - progress);
  }

  /** A number in [-1, 1] times a fraction in [0, 1] stays in [-1, 1]. */
  lemma UnitTimesFraction(s: real, q: real)
    requires -1.0 <= s <= 1.0 && 0.0 <= q <= 1.0
    ensures -1.0 <= s * q <= 1.0
  {
    if s >= 0.0 {
      Colors.ScaleBetween(s, q);
    } else {
      Colors.ScaleBetween(-s, q);
      assert (-s) * q == -(s * q);
    }
  }

  /**
   * One update of an active animation: `deltaTime * 250` more elapsed; at
   * progress 1 or more it ends (inactive, effects untouched), otherwise the
   * effects follow the progress.
   */
  function Advanced(a: AnimationState, deltaTime: real, sinPi: real -> real): (r: AnimationState)
    requires a.duration != 0.0
    ensures r.elapsed == a.elapsed + deltaTime * 250.0
    ensures r.kind == a.kind && r.duration == a.duration && r.alpha == a.alpha
    ensures r.isActive <==> a.isActive && r.elapsed / a.duration < 1.0
    ensures !r.isActive ==> r == a.(elapsed := r.elapsed, isActive := false)
    ensures r.isActive ==> r == Shaped(a.(elapsed := r.elapsed), r.elapsed / a.duration, sinPi)
  {
    var elapsed := a.elapsed + deltaTime * 250.0;
    var progress := elapsed / a.duration;
    if !a.isActive || progress >= 1.0 then a.(elapsed := elapsed, isActive := false)
    else Shaped(a.(elapsed := elapsed), progress, sinPi)
  }

  /**
   * Updates of a positive duration with a positive step end the animation:
   * after enough of them the elapsed time reaches the duration.
   */
  lemma {:induction false} AnimationEnds(a: AnimationState, deltaTime: real, sinPi: real -> real, n: nat)
    requires a.duration > 0.0 && deltaTime > 0.0 && a.elapsed >= 0.0
    requires n as real * deltaTime * 250.0 >= a.duration
    ensures !Run(a, deltaTime, sinPi, n).isActive
  {
    RunElapsed(a, deltaTime, sinPi, n);
    var r := Run(a, deltaTime, sinPi, n);
    if r.isActive {
      assert r.elapsed >= a.duration;
      DivAtLeastOne(r.elapsed, a.duration);
      assert false;
    }
  }

  lemma DivAtLeastOne(x: real, d: real)
    requires d > 0.0 && x >= d
    ensures x / d >= 1.0
  {
    assert x / d * d == x;
  }

  /** `n` updates in a row, stopping once the animation is inactive. */
  function Run(a: AnimationState, deltaTime: real, sinPi: real -> real, n: nat): (r: AnimationState)
    requires a.duration != 0.0
    ensures r.duration == a.duration
  {
    if n == 0 then a
    else
      var prev := Run(a, deltaTime, sinPi, n - 1);
      if prev.isActive then Advanced(prev, deltaTime, sinPi) else prev
  }

  lemma {:induction false} RunElapsed(a: AnimationState, deltaTime: real, sinPi: real -> real, n: nat)
    requires a.duration > 0.0 && deltaTime > 0.0 && a.elapsed >= 0.0
    ensures Run(a, deltaTime, sinPi, n).isActive ==>
      Run(a, deltaTime, sinPi, n).elapsed == a.elapsed + n as real * deltaTime * 250.0
    ensures Run(a, deltaTime, sinPi, n).isActive ==> a.isActive
  {
    RunClock(a, deltaTime, sinPi, n);
    ClockElapsed(a, deltaTime, n);
  }

  /** The elapsed time and activity of `n` updates, which do not depend on the effects. */
  function Clock(a: AnimationState, deltaTime: real, n: nat): (c: (real, bool))
    requires a.duration != 0.0
  {
    if n == 0 then (a.elapsed, a.isActive)
    else
      var prev := Clock(a, deltaTime, n - 1);
      if prev.1 then (prev.0 + deltaTime * 250.0, (prev.0 + deltaTime * 250.0) / a.duration < 1.0) else prev
  }

  /** `Run` keeps time as `Clock` does. */
  lemma {:induction false} RunClock(a: AnimationState, deltaTime: real, sinPi: real -> real, n: nat)
    requires a.duration != 0.0
    ensures (Run(a, deltaTime, sinPi, n).elapsed, Run(a, deltaTime, sinPi, n).isActive) == Clock(a, deltaTime, n)
  {
    if n > 0 {
      RunClock(a, deltaTime, sinPi, n - 1);
      var prev := Run(a, deltaTime, sinPi, n - 1);
      if prev.isActive {
        var r := Advanced(prev, deltaTime, sinPi);
        assert Run(a, deltaTime, sinPi, n) == r;
        assert r.elapsed == prev.elapsed + deltaTime * 250.0 && (r.isActive <==> r.elapsed / a.duration < 1.0);
      } else {
        assert Run(a, deltaTime, sinPi, n) == prev;
      }
    }
  }

  /** While the clock still runs after `n` updates, `n` steps have elapsed. */
  lemma {:induction false} ClockElapsed(a: AnimationState, deltaTime: real, n: nat)
    requires a.duration != 0.0
    ensures Clock(a, deltaTime, n).1 ==> Clock(a, deltaTime, n).0 == a.elapsed + n as real * deltaTime * 250.0
    ensures Clock(a, deltaTime, n).1 ==> a.isActive
  {
    if n > 0 {
      ClockElapsed(a, deltaTime, n - 1);
      var prev := Clock(a, deltaTime, n - 1);
      if prev.1 {
        ElapsedStep(a.elapsed, prev.0, prev.0 + deltaTime * 250.0, deltaTime, n);
      }
    }
  }

  /** The elapsed time after `n` steps is one step more than after `n` - 1. */
  lemma ElapsedStep(start: real, before: real, after: real, deltaTime: real, n: nat)
    requires n > 0
    requires before == start + (n - 1) as real * deltaTime * 250.0
    requires after == before + deltaTime * 250.0
    ensures after == start + n as real * deltaTime * 250.0
  {
    var m := (n - 1) as real;
    OneMoreStep(m, deltaTime);
    assert m + 1.0 == n as real;
  }

  lemma OneMoreStep(m: real, deltaTime: real)
    ensures m * deltaTime * 250.0 + deltaTime * 250.0 == (m + 1.0) * deltaTime * 250.0
  {
  }

  /**
   * The stored states and the current animation after one `updateAnimation`:
   * nothing without a current animation, otherwise its state advances and it
   * stops being current once it has ended.
   */
  function AfterUpdate(animations: map<AnimationType, AnimationState>, current: Option<AnimationType>, deltaTime: real, sinPi: real -> real): (r: (map<AnimationType, AnimationState>, Option<AnimationType>))
    requires current.Some? ==> current.value in animations && animations[current.value].duration != 0.0
  {
    if current.None? then (animations, None)
    else
      var k := current.value;
      var a := Advanced(animations[k], deltaTime, sinPi);
      (animations[k := a], if a.isActive then Some(k) else None)
  }

  class AnimationComponent {
    const entity: nat
    var animations: map<AnimationType, AnimationState>
    var current: Option<AnimationType>

    /** The current animation, when there is one, is stored under its type, is active and has a non-zero duration. */
    ghost predicate Valid()
      reads this
    {
      current.Some? ==>
        current.value in animations && animations[current.value].isActive
        && animations[current.value].duration != 0.0 && animations[current.value].kind == current.value
    }

    constructor(entity: nat)
      ensures Valid() && this.entity == entity && animations == map[] && current == None
    {
      this.entity := entity;
      animations := map[];
      current := None;
    }

    /** Shared by the three `start*Animation` methods: a fresh state replaces both the stored one and the current one. */
    method Start(kind: AnimationType, duration: real)
      requires duration != 0.0
      modifies this
      ensures Valid()
      ensures animations == old(animations)[kind := Started(kind, duration)] && current == Some(kind)
    {
      animations := animations[kind := Started(kind, duration)];
      current := Some(kind);
    }

    /** `startLandingAnimation`, 300 ms by default. */
    method StartLandingAnimation(duration: real := 300.0)
      requires duration != 0.0
      modifies this
      ensures Valid()
      ensures animations == old(animations)[Landing := Started(Landing, duration)] && current == Some(Landing)
    {
      Start(Landing, duration);
    }

    /** `startJumpAnimation`, 200 ms by default. */
    method StartJumpAnimation(duration: real := 200.0)
      requires duration != 0.0
      modifies this
      ensures Valid()
      ensures animations == old(animations)[Jump := Started(Jump, duration)] && current == Some(Jump)
    {
      Start(Jump, duration);
    }

    /** `startBounceAnimation`, 400 ms by default. */
    method StartBounceAnimation(duration: real := 400.0)
      requires duration != 0.0
      modifies this
      ensures Valid()
      ensures animations == old(animations)[Bounce := Started(Bounce, duration)] && current == Some(Bounce)
    {
      Start(Bounce, duration);
    }

    /**
     * `updateAnimation`: nothing without an active current animation;
     * otherwise the current state advances, and once it ends the component
     * has no current animation any more.
     */
    method UpdateAnimation(deltaTime: real, sinPi: real -> real)
      requires Valid()
      modifies this
      ensures Valid()
      ensures old(current).None? ==> animations == old(animations) && current == None
      ensures old(current).Some? ==>
        var k := old(current).value;
        var r := Advanced(old(animations)[k], deltaTime, sinPi);
        animations == old(animations)[k := r] && current == (if r.isActive then Some(k) else None)
      ensures (animations, current) == AfterUpdate(old(animations), old(current), deltaTime, sinPi)
    {
      if current.None? {
        return;
      }
      var k := current.value;
      var a := animations[k];
      if !a.isActive {
        return;
      }
      var elapsed := a.elapsed + deltaTime * 250.0;
      var progress := elapsed / a.duration;
      if progress >= 1.0 {
        animations := animations[k := a.(elapsed := elapsed, isActive := false)];
        current := None;
        return;
      }
      animations := animations[k := Shaped(a.(elapsed := elapsed), progress, sinPi)];
    }

    /** `getCurrentScaleX`: the current scale, reading 1 when there is no animation or the scale is 0. */
    function GetCurrentScaleX(): (s: real)
      reads this
      requires Valid()
      ensures current.None? ==> s == 1.0
      ensures s != 0.0
      ensures current.Some? && animations[current.value].scaleX != 0.0 ==> s == animations[current.value].scaleX
    {
      if current.Some? && animations[current.value].scaleX != 0.0 then animations[current.value].scaleX else 1.0
    }

    function GetCurrentScaleY(): (s: real)
      reads this
      requires Valid()
      ensures current.None? ==> s == 1.0
      ensures s != 0.0
      ensures current.Some? && animations[current.value].scaleY != 0.0 ==> s == animations[current.value].scaleY
    {
      if current.Some? && animations[current.value].scaleY != 0.0 then animations[current.value].scaleY else 1.0
    }

    function GetCurrentAlpha(): (s: real)
      reads this
      requires Valid()
      ensures current.None? ==> s == 1.0
      ensures s != 0.0
      ensures current.Some? && animations[current.value].alpha != 0.0 ==> s == animations[current.value].alpha
    {
      if current.Some? && animations[current.value].alpha != 0.0 then animations[current.value].alpha else 1.0
    }

    /** `getCurrentRotation`: the current rotation, 0 without an animation. */
    function GetCurrentRotation(): (r: real)
      reads this
      requires Valid()
      ensures current.None? ==> r == 0.0
      ensures current.Some? ==> r == animations[current.value].rotation
    {
      if current.Some? then animations[current.value].rotation else 0.0
    }

    /** `isAnimating`: there is a current animation and it is active. */
    function IsAnimating(): (b: bool)
      reads this
      requires Valid()
      ensures b <==> current.Some?
    {
      current.Some? && animations[current.value].isActive
    }
  }
}
