/**
 * The frame clock (src/game/Timer.ts).
 *
 * The clock measures the time between frames and smooths it over the last
 * ten frames with a circular buffer. The current time, which the source
 * reads from `performance.now()`, is a parameter here. Times are exact reals
 * in milliseconds.
 */
module FrameClock {
  import opened Wrappers

  const BufferSize: nat := 10

  /** The buffer sum in the order the source's `reduce` adds it: left to right, from 0. */
  function Sum(s: seq<real>): real {
    if |s| == 0 then 0.0 else Sum(s[..|s| - 1]) + s[|s| - 1]
  }

  function Mean(s: seq<real>): real
    requires |s| == BufferSize
  {
    Sum(s) / 10.0
  }

  /** Ten slots of the same value. */
  function Constant(v: real): (s: seq<real>)
    ensures |s| == BufferSize && forall i :: 0 <= i < |s| ==> s[i] == v
  {
    seq(BufferSize, _ => v)
  }

  lemma {:induction false} SumConstant(s: seq<real>, v: real)
    requires forall i :: 0 <= i < |s| ==> s[i] == v
    ensures Sum(s) == |s| as real * v
  {
    if |s| > 0 {
      SumConstant(s[..|s| - 1], v);
      assert (|s| - 1) as real * v + v == |s| as real * v;
    }
  }

  /** The mean of a buffer holding one value everywhere is that value. */
  lemma MeanConstant(v: real)
    ensures Mean(Constant(v)) == v
  {
    SumConstant(Constant(v), v);
  }

  /** The buffer after `n` frames that all took `d`, writing from slot `idx` on. */
  function Writes(b: seq<real>, idx: nat, d: real, n: nat): (r: seq<real>)
    requires |b| == BufferSize && idx < BufferSize
    ensures |r| == BufferSize
  {
    if n == 0 then b else Writes(b, idx, d, n - 1)[(idx + n - 1) % BufferSize := d]
  }

  /** After `n` writes the slots `idx` .. `idx + n - 1` (circularly) hold `d`; the others are untouched. */
  lemma {:induction false} WritesCover(b: seq<real>, idx: nat, d: real, n: nat, k: nat)
    requires |b| == BufferSize && idx < BufferSize && n <= BufferSize && k < BufferSize
    ensures (k - idx) % 10 < n ==> Writes(b, idx, d, n)[k] == d
    ensures (k - idx) % 10 >= n ==> Writes(b, idx, d, n)[k] == b[k]
  {
    if n > 0 {
      WritesCover(b, idx, d, n - 1, k);
      SlotOffset(idx, n - 1, k);
    }
  }

  /** Slot `k` is `m` writes after slot `idx` exactly when `idx + m` wraps round to `k`. */
  lemma SlotOffset(idx: nat, m: nat, k: nat)
    requires idx < BufferSize && m < BufferSize && k < BufferSize
    ensures (idx + m) % BufferSize == k <==> (k - idx) % 10 == m
  {
    if idx + m < BufferSize {
      assert (idx + m) % BufferSize == idx + m;
    } else {
      assert (idx + m) % BufferSize == idx + m - BufferSize;
    }
    if k >= idx {
      assert (k - idx) % 10 == k - idx;
    } else {
      assert (k - idx) % 10 == k - idx + 10;
    }
  }

  /** The slot after the one `n` writes past `idx`, circularly. */
  lemma NextSlot(idx: nat, n: nat)
    ensures ((idx + n) % BufferSize + 1) % BufferSize == (idx + n + 1) % BufferSize
  {
    var q := (idx + n) / BufferSize;
    assert idx + n == q * BufferSize + (idx + n) % BufferSize;
    if (idx + n) % BufferSize + 1 < BufferSize {
      assert idx + n + 1 == q * BufferSize + ((idx + n) % BufferSize + 1);
    } else {
      assert idx + n + 1 == (q + 1) * BufferSize;
    }
  }

  /** Ten frames that all took `d` leave `d` in every slot, whatever the buffer held before. */
  lemma TenWritesFill(b: seq<real>, idx: nat, d: real)
    requires |b| == BufferSize && idx < BufferSize
    ensures Writes(b, idx, d, BufferSize) == Constant(d)
    ensures Mean(Writes(b, idx, d, BufferSize)) == d
  {
    forall k | 0 <= k < BufferSize
      ensures Writes(b, idx, d, BufferSize)[k] == d
    {
      WritesCover(b, idx, d, BufferSize, k);
    }
    MeanConstant(d);
  }

  class Timer {
    var targetFPS: real
    var targetFrameTime: real
    var lastFrameTime: real
    var frameCount: nat
    var deltaTime: real
    var smoothedDeltaTime: real
    const buffer: array<real>
    var index: nat

    ghost predicate Valid()
      reads this
    {
      buffer.Length == BufferSize && index < BufferSize
      && targetFPS != 0.0 && targetFrameTime == 1000.0 / targetFPS
    }

    /**
     * A new clock: every slot holds the target frame time; counts and deltas
     * are 0. The target rate defaults to 60 frames per second; `now` is the
     * clock reading taken at construction.
     */
    constructor(now: real, targetFPS: real := 60.0)
      requires targetFPS != 0.0
      ensures Valid() && fresh(buffer)
      ensures this.targetFPS == targetFPS && targetFrameTime == 1000.0 / targetFPS
      ensures buffer[..] == Constant(1000.0 / targetFPS)
      ensures lastFrameTime == now && frameCount == 0 && index == 0
      ensures deltaTime == 0.0 && smoothedDeltaTime == 0.0
    {
      this.targetFPS := targetFPS;
      targetFrameTime := 1000.0 / targetFPS;
      lastFrameTime := now;
      frameCount := 0;
      deltaTime := 0.0;
      smoothedDeltaTime := 0.0;
      buffer := new real[BufferSize](_ => 1000.0 / targetFPS);
      index := 0;
      new;
      assert buffer[..] == Constant(1000.0 / targetFPS);
    }

    /**
     * `update` at time `now`: the delta since the last frame goes into the
     * current slot, the index moves on circularly, and the smoothed delta
     * becomes the mean of the ten slots.
     */
    method Update(now: real)
      requires Valid()
      modifies this, buffer
      ensures Valid()
      ensures deltaTime == now - old(lastFrameTime) && lastFrameTime == now
      ensures frameCount == old(frameCount) + 1
      ensures buffer[..] == old(buffer[..])[old(index) := deltaTime]
      ensures index == (old(index) + 1) % BufferSize
      ensures smoothedDeltaTime == Mean(buffer[..])
      ensures targetFPS == old(targetFPS) && targetFrameTime == old(targetFrameTime)
    {
      deltaTime := now - lastFrameTime;
      lastFrameTime := now;
      frameCount := frameCount + 1;
      buffer[index] := deltaTime;
      index := (index + 1) % BufferSize;
      var sum := 0.0;
      for i := 0 to buffer.Length
        invariant sum == Sum(buffer[..i])
      {
        assert buffer[..i + 1][..i] == buffer[..i];
        sum := sum + buffer[i];
      }
      assert buffer[..buffer.Length] == buffer[..];
      smoothedDeltaTime := sum / 10.0;
    }

    /** `getDeltaTime`, in seconds. */
    function GetDeltaTime(): (s: real)
      reads this
      ensures s * 1000.0 == deltaTime
    {
      deltaTime / 1000.0
    }

    /** `getSmoothedDeltaTime`, in seconds. */
    function GetSmoothedDeltaTime(): (s: real)
      reads this
      ensures s * 1000.0 == smoothedDeltaTime
    {
      smoothedDeltaTime / 1000.0
    }

    /** `getFPS`: frames per second for the last delta, 0 when the delta is not positive. */
    function GetFPS(): (f: real)
      reads this
      ensures deltaTime > 0.0 ==> f > 0.0 && f * deltaTime == 1000.0
      ensures deltaTime <= 0.0 ==> f == 0.0
    {
      if deltaTime > 0.0 then 1000.0 / deltaTime else 0.0
    }

    /** `getSmoothedFPS`: the same for the smoothed delta. */
    function GetSmoothedFPS(): (f: real)
      reads this
      ensures smoothedDeltaTime > 0.0 ==> f > 0.0 && f * smoothedDeltaTime == 1000.0
      ensures smoothedDeltaTime <= 0.0 ==> f == 0.0
    {
      if smoothedDeltaTime > 0.0 then 1000.0 / smoothedDeltaTime else 0.0
    }

    /** `getPerformanceRatio`: target over smoothed frame time; no value when the smoothed time is 0. */
    function GetPerformanceRatio(): (r: Option<real>)
      reads this
      ensures r.Some? <==> smoothedDeltaTime != 0.0
      ensures r.Some? ==> r.value * smoothedDeltaTime == targetFrameTime
    {
      if smoothedDeltaTime == 0.0 then None else Some(targetFrameTime / smoothedDeltaTime)
    }

    /** `setTargetFPS` recomputes the target frame time and touches nothing else. */
    method SetTargetFPS(fps: real)
      requires Valid() && fps != 0.0
      modifies this
      ensures Valid() && targetFPS == fps && targetFrameTime * fps == 1000.0
      ensures index == old(index) && frameCount == old(frameCount)
      ensures deltaTime == old(deltaTime) && smoothedDeltaTime == old(smoothedDeltaTime)
      ensures lastFrameTime == old(lastFrameTime)
    {
      targetFPS := fps;
      targetFrameTime := 1000.0 / fps;
    }

    /** `isRunningSlowly`: the smoothed frame time exceeds the target by more than 20%. */
    predicate IsRunningSlowly()
      reads this
    {
      smoothedDeltaTime > targetFrameTime * 1.2
    }

    /**
     * `reset` at time `now`: every slot holds the target frame time again and
     * the counts start over, but the smoothed delta keeps its value until the
     * next update.
     */
    method Reset(now: real)
      requires Valid()
      modifies this, buffer
      ensures Valid()
      ensures buffer[..] == Constant(targetFrameTime)
      ensures lastFrameTime == now && frameCount == 0 && deltaTime == 0.0 && index == 0
      ensures smoothedDeltaTime == old(smoothedDeltaTime)
      ensures targetFPS == old(targetFPS) && targetFrameTime == old(targetFrameTime)
    {
      lastFrameTime := now;
      frameCount := 0;
      deltaTime := 0.0;
      for i := 0 to buffer.Length
        invariant Valid() && targetFPS == old(targetFPS) && targetFrameTime == old(targetFrameTime)
        invariant lastFrameTime == now && frameCount == 0 && deltaTime == 0.0
        invariant smoothedDeltaTime == old(smoothedDeltaTime)
        invariant forall k :: 0 <= k < i ==> buffer[k] == targetFrameTime
      {
        buffer[i] := targetFrameTime;
      }
      index := 0;
    }

    /** Ten frames that each take `d` milliseconds bring the smoothed delta to exactly `d`. */
    method SteadyFrames(d: real)
      requires Valid()
      modifies this, buffer
      ensures Valid() && smoothedDeltaTime == d && deltaTime == d
      ensures IsRunningSlowly() <==> d > targetFrameTime * 1.2
      ensures frameCount == old(frameCount) + 10
    {
      ghost var b0, i0 := buffer[..], index;
      var n := 0;
      while n < 10
        invariant 0 <= n <= 10 && Valid()
        invariant targetFPS == old(targetFPS) && targetFrameTime == old(targetFrameTime)
        invariant index == (i0 + n) % BufferSize
        invariant buffer[..] == Writes(b0, i0, d, n)
        invariant frameCount == old(frameCount) + n
        invariant n > 0 ==> deltaTime == d && smoothedDeltaTime == Mean(buffer[..])
      {
        var now := lastFrameTime + d;
        Update(now);
        assert deltaTime == d;
        NextSlot(i0, n);
        n := n + 1;
      }
      TenWritesFill(b0, i0, d);
    }
  }
}
