/**
 * Two-dimensional vectors (src/game/ecs/components/Vector2.ts).
 *
 * Every operation of the source except `set` returns a new vector, so the
 * algebra is stated on the value `Vec2`; the mutable object that `set`
 * overwrites in place is the class `Vector`. The square root behind
 * `magnitude`, `normalize` and `distance` is not modelled, and `Normalize` is
 * given the magnitude instead.
 */
module Vector2 {
  import Colors

  datatype Vec2 = Vec2(x: real, y: real)

  const Zero: Vec2 := Vec2(0.0, 0.0)
  const One: Vec2 := Vec2(1.0, 1.0)
  const Up: Vec2 := Vec2(0.0, -1.0)
  const Down: Vec2 := Vec2(0.0, 1.0)
  const Left: Vec2 := Vec2(-1.0, 0.0)
  const Right: Vec2 := Vec2(1.0, 0.0)

  function Add(v: Vec2, w: Vec2): Vec2 {
    Vec2(v.x + w.x, v.y + w.y)
  }

  function Subtract(v: Vec2, w: Vec2): Vec2 {
    Vec2(v.x - w.x, v.y - w.y)
  }

  function Multiply(v: Vec2, scalar: real): Vec2 {
    Vec2(v.x * scalar, v.y * scalar)
  }

  function Divide(v: Vec2, scalar: real): Vec2
    requires scalar != 0.0
  {
    Vec2(v.x / scalar, v.y / scalar)
  }

  function Dot(v: Vec2, w: Vec2): real {
    v.x * w.x + v.y * w.y
  }

  /** The squared length; never negative, and zero for the zero vector. */
  function MagnitudeSquared(v: Vec2): (r: real)
    ensures r >= 0.0
    ensures v == Zero ==> r == 0.0
  {
    SquareNonNegative(v.x);
    SquareNonNegative(v.y);
    v.x * v.x + v.y * v.y
  }

  lemma SquareNonNegative(a: real)
    ensures a * a >= 0.0
  {
    if a < 0.0 {
      assert a * a == (-a) * (-a);
    }
  }

  /** `distanceSquared`: the squared length of the difference; zero from a vector to itself. */
  function DistanceSquared(v: Vec2, w: Vec2): (r: real)
    ensures r >= 0.0
    ensures v == w ==> r == 0.0
  {
    MagnitudeSquared(Subtract(v, w))
  }

  /**
   * `normalize`, given the magnitude `mag` that the source computes with a
   * square root: a zero magnitude gives the zero vector, any other magnitude
   * gives the vector that, scaled back by `mag`, is the original.
   */
  function Normalize(v: Vec2, mag: real): (r: Vec2)
    ensures mag == 0.0 ==> r == Zero
    ensures mag != 0.0 ==> Multiply(r, mag) == v
  {
    if mag == 0.0 then Zero else Divide(v, mag)
  }

  /** `Math.max(0, Math.min(1, t))`. */
  function Clamp01(t: real): (r: real)
    ensures 0.0 <= r <= 1.0
    ensures 0.0 <= t <= 1.0 ==> r == t
  {
    if t < 0.0 then 0.0 else if t > 1.0 then 1.0 else t
  }

  /** Linear interpolation with the parameter clamped into [0, 1]. */
  function Lerp(v: Vec2, w: Vec2, t: real): (r: Vec2)
    ensures t <= 0.0 ==> r == v
    ensures t >= 1.0 ==> r == w
    ensures r == Add(v, Multiply(Subtract(w, v), Clamp01(t)))
    ensures (v.x <= r.x <= w.x) || (w.x <= r.x <= v.x)
    ensures (v.y <= r.y <= w.y) || (w.y <= r.y <= v.y)
  {
    var s := Clamp01(t);
    Colors.LerpBetween(v.x, w.x, s);
    Colors.LerpBetween(v.y, w.y, s);
    Vec2(v.x + (w.x - v.x) * s, v.y + (w.y - v.y) * s)
  }

  /** `copy`: a vector with the same components. */
  function Copy(v: Vec2): (r: Vec2)
    ensures Equals(r, v)
  {
    Vec2(v.x, v.y)
  }

  /** `equals` compares both components. */
  function Equals(v: Vec2, w: Vec2): (b: bool)
    ensures b <==> v == w
  {
    v.x == w.x && v.y == w.y
  }

  /** The four directions are unit vectors. */
  lemma UnitDirections()
    ensures MagnitudeSquared(Up) == 1.0 && MagnitudeSquared(Down) == 1.0
    ensures MagnitudeSquared(Left) == 1.0 && MagnitudeSquared(Right) == 1.0
  {
  }

  /** Opposite directions cancel (y grows downwards), and right plus down is (1, 1). */
  lemma OppositeDirections()
    ensures Add(Up, Down) == Zero && Add(Left, Right) == Zero
    ensures Multiply(Right, -1.0) == Left && Multiply(Down, -1.0) == Up
    ensures Add(Right, Down) == One
  {
  }

  /** Adding then subtracting the same vector gives the original back, and subtracting then adding as well. */
  lemma AddSubtractInverse(v: Vec2, w: Vec2)
    ensures Subtract(Add(v, w), w) == v
    ensures Add(Subtract(v, w), w) == v
    ensures Add(v, w) == Add(w, v)
    ensures Add(v, Zero) == v
  {
  }

  /** Dividing by the scalar undoes multiplying by it. */
  lemma MultiplyDivideInverse(v: Vec2, scalar: real)
    requires scalar != 0.0
    ensures Divide(Multiply(v, scalar), scalar) == v
    ensures Multiply(v, 1.0) == v && Multiply(v, 0.0) == Zero
  {
    assert (v.x * scalar) / scalar == v.x;
    assert (v.y * scalar) / scalar == v.y;
  }

  /** The squared magnitude is the dot product of the vector with itself; the dot product is symmetric. */
  lemma MagnitudeSquaredIsSelfDot(v: Vec2, w: Vec2)
    ensures MagnitudeSquared(v) == Dot(v, v)
    ensures Dot(v, w) == Dot(w, v)
    ensures DistanceSquared(v, w) == DistanceSquared(w, v)
  {
  }

  /** The source's mutable vector object: `copy` allocates, `set` overwrites both components in place. */
  class Vector {
    var x: real
    var y: real

    constructor(x: real, y: real)
      ensures Value() == Vec2(x, y)
    {
      this.x := x;
      this.y := y;
    }

    function Value(): (v: Vec2)
      reads this
      ensures v.x == x && v.y == y
    {
      Vec2(x, y)
    }

    /** `copy`: a new object equal to this one. */
    method Copy() returns (c: Vector)
      ensures fresh(c) && Equals(c.Value(), Value())
    {
      c := new Vector(x, y);
    }

    /** `set` overwrites both components of this object and of no other. */
    method Set(x: real, y: real)
      modifies this
      ensures Value() == Vec2(x, y)
    {
      this.x := x;
      this.y := y;
    }
  }

  /** Setting a vector after copying it leaves the copy as it was: a copy shares nothing with its original. */
  method CopyIsIndependent(v: Vector, x: real, y: real) returns (c: Vector)
    modifies v
    ensures fresh(c) && c.Value() == old(v.Value()) && v.Value() == Vec2(x, y)
  {
    c := v.Copy();
    v.Set(x, y);
  }
}
