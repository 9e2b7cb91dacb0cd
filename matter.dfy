/**
 * The part of the matter-js physics library the game relies on: rigid
 * bodies with a position, a velocity, axis-aligned bounds and an angle, and
 * an engine whose world is a list of bodies. The simulation itself is not
 * modelled: a step is recorded, a force applied is added to the body's
 * accumulated force, and the bodies' positions are whatever the environment
 * sets.
 */
module Matter {
  import opened Vector2
  import opened Seqs

  datatype Bounds = Bounds(min: Vec2, max: Vec2)

  class Body {
    var position: Vec2
    var velocity: Vec2
    var bounds: Bounds
    var angle: real
    var isSensor: bool
    /** The force accumulated for the next step, `body.force`. */
    var force: Vec2

    /** `Bodies.rectangle(x, y, w, h)`: a body at rest centred on (x, y). */
    constructor Rectangle(x: real, y: real, w: real, h: real)
      ensures position == Vec2(x, y) && velocity == Zero && angle == 0.0 && !isSensor && force == Zero
      ensures bounds == Bounds(Vec2(x - w / 2.0, y - h / 2.0), Vec2(x + w / 2.0, y + h / 2.0))
    {
      position := Vec2(x, y);
      velocity := Zero;
      bounds := Bounds(Vec2(x - w / 2.0, y - h / 2.0), Vec2(x + w / 2.0, y + h / 2.0));
      angle := 0.0;
      isSensor := false;
      force := Zero;
    }

    /**
     * `Body.applyForce(body, position, f)`: the force is added to the
     * accumulated one. Every caller applies it at the body's own position,
     * so it adds no torque, which is not modelled.
     */
    method ApplyForce(f: Vec2)
      modifies this
      ensures force == Add(old(force), f)
      ensures position == old(position) && velocity == old(velocity) && bounds == old(bounds)
      ensures angle == old(angle) && isSensor == old(isSensor)
    {
      force := Add(force, f);
    }
  }

  /**
   * `areColliding`, as both the physics and the collectible systems write
   * it: the bounds are not separated along either axis, touching counts.
   */
  predicate AreColliding(a: Bounds, b: Bounds) {
    !(a.max.x < b.min.x || a.min.x > b.max.x || a.max.y < b.min.y || a.min.y > b.max.y)
  }

  /** Bounds whose minimum corner is below and left of their maximum corner, as a body's always are. */
  predicate WellFormed(b: Bounds) {
    b.min.x <= b.max.x && b.min.y <= b.max.y
  }

  predicate InBoth(lo1: real, hi1: real, lo2: real, hi2: real, v: real) {
    lo1 <= v <= hi1 && lo2 <= v <= hi2
  }

  /** The closed intervals [lo1, hi1] and [lo2, hi2] share a point. */
  ghost predicate IntervalsMeet(lo1: real, hi1: real, lo2: real, hi2: real) {
    exists v :: InBoth(lo1, hi1, lo2, hi2, v)
  }

  /**
   * The overlap test is symmetric, and for well-formed bounds it holds
   * exactly when the two boxes share a point on both axes.
   */
  lemma AreCollidingMeaning(a: Bounds, b: Bounds)
    requires WellFormed(a) && WellFormed(b)
    ensures AreColliding(a, b) <==> AreColliding(b, a)
    ensures AreColliding(a, b) <==>
      IntervalsMeet(a.min.x, a.max.x, b.min.x, b.max.x) && IntervalsMeet(a.min.y, a.max.y, b.min.y, b.max.y)
  {
    if AreColliding(a, b) {
      var x := if a.min.x <= b.min.x then b.min.x else a.min.x;
      var y := if a.min.y <= b.min.y then b.min.y else a.min.y;
      assert InBoth(a.min.x, a.max.x, b.min.x, b.max.x, x);
      assert InBoth(a.min.y, a.max.y, b.min.y, b.max.y, y);
    }
  }

  class Engine {
    var world: seq<Body>
    var steps: seq<real>
    var gravity: Vec2

    /** `Engine.create()`: an empty world under matter-js's default gravity, one unit downwards. */
    constructor()
      ensures world == [] && steps == [] && gravity == Down
    {
      world := [];
      steps := [];
      gravity := Down;
    }

    /** `World.add` appends the body. */
    method Add(b: Body)
      modifies this
      ensures world == old(world) + [b] && steps == old(steps) && gravity == old(gravity)
    {
      world := world + [b];
    }

    /** `World.remove` drops the first occurrence of the body, if any. */
    method Remove(b: Body)
      modifies this
      ensures world == RemoveFirst(old(world), b)
      ensures steps == old(steps) && gravity == old(gravity)
    {
      world := RemoveFirst(world, b);
    }

    /** `Engine.update(engine, dt)`: one simulation step of `dt` milliseconds. */
    method Step(dt: real)
      modifies this
      ensures steps == old(steps) + [dt] && world == old(world) && gravity == old(gravity)
    {
      steps := steps + [dt];
    }
  }
}
