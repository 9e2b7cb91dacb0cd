/**
 * The position, rotation and scale component (src/game/ecs/components/Transform.ts).
 *
 * A transform belongs to one entity, named by its id. It stores copies of
 * the vectors it is given, so its fields are `Vec2` values; the arguments are
 * the source's mutable `Vector` objects. There is no parent hierarchy, so the
 * world values are the local ones.
 */
module Transforms {
  import opened Wrappers
  import opened Vector2

  class Transform {
    const entity: nat
    var position: Vec2
    var rotation: real
    var scale: Vec2

    /**
     * Missing position and scale default to (0, 0) and (1, 1); given ones are
     * copied. The rotation defaults to 0.
     */
    constructor(entity: nat, position: Option<Vector> := None, rotation: real := 0.0, scale: Option<Vector> := None)
      ensures this.entity == entity && this.rotation == rotation
      ensures this.position == (if position.Some? then position.value.Value() else Zero)
      ensures this.scale == (if scale.Some? then scale.value.Value() else One)
    {
      this.entity := entity;
      this.position := if position.Some? then position.value.Value() else Zero;
      this.rotation := rotation;
      this.scale := if scale.Some? then scale.value.Value() else One;
    }

    /** `translate` adds the offset to the position only. */
    method Translate(offset: Vec2)
      modifies this
      ensures position == Add(old(position), offset)
      ensures Subtract(position, offset) == old(position)
      ensures rotation == old(rotation) && scale == old(scale)
    {
      position := Add(position, offset);
      AddSubtractInverse(old(position), offset);
    }

    /** `rotate` adds the angle to the rotation only. */
    method Rotate(angle: real)
      modifies this
      ensures rotation == old(rotation) + angle
      ensures position == old(position) && scale == old(scale)
    {
      rotation := rotation + angle;
    }

    method SetPosition(p: Vector)
      modifies this
      ensures position == p.Value() && rotation == old(rotation) && scale == old(scale)
    {
      position := p.Value();
    }

    method SetRotation(r: real)
      modifies this
      ensures rotation == r && position == old(position) && scale == old(scale)
    {
      rotation := r;
    }

    method SetScale(s: Vector)
      modifies this
      ensures scale == s.Value() && rotation == old(rotation) && position == old(position)
    {
      scale := s.Value();
    }

    /** `getWorldPosition`: a new vector object equal to the position. */
    method GetWorldPosition() returns (p: Vector)
      ensures fresh(p) && p.Value() == position
    {
      p := new Vector(position.x, position.y);
    }

    function GetWorldRotation(): (r: real)
      reads this
      ensures r == rotation
    {
      rotation
    }

    /** `getWorldScale`: a new vector object equal to the scale. */
    method GetWorldScale() returns (s: Vector)
      ensures fresh(s) && s.Value() == scale
    {
      s := new Vector(scale.x, scale.y);
    }
  }

  /** A transform does not follow later changes to the vector it was built or set from. */
  method StoresCopies(entity: nat, v: Vector, x: real, y: real) returns (t: Transform)
    modifies v
    ensures fresh(t) && t.position == old(v.Value()) && v.Value() == Vec2(x, y)
  {
    t := new Transform(entity, Some(v));
    v.Set(x, y);
  }

  /** A transform built from another's fields equals it field by field, and the two are distinct objects. */
  method CloneTransform(src: Transform, entity: nat) returns (t: Transform)
    ensures fresh(t) && t != src
    ensures t.position == src.position && t.rotation == src.rotation && t.scale == src.scale
  {
    var p := src.GetWorldPosition();
    var s := src.GetWorldScale();
    t := new Transform(entity, Some(p), src.rotation, Some(s));
  }
}
