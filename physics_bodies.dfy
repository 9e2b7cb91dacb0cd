/**
 * The physics body component
 * (src/game/physicsGame/components/PhysicsBodyComponent.ts): the entity's
 * matter-js body and whether it stands on the ground.
 */
module PhysicsBodies {
  import opened Matter

  class PhysicsBodyComponent {
    const entity: nat
    const body: Body
    var isGrounded: bool

    /** A new component holds the given body and is not grounded. */
    constructor(entity: nat, body: Body)
      ensures this.entity == entity && this.body == body && !isGrounded && !IsOnGround()
    {
      this.entity := entity;
      this.body := body;
      isGrounded := false;
    }

    /** `setGrounded` writes the flag and nothing else; the body is fixed at construction. */
    method SetGrounded(grounded: bool)
      modifies this
      ensures IsOnGround() == grounded
      ensures grounded == old(isGrounded) ==> isGrounded == old(isGrounded)
    {
      isGrounded := grounded;
    }

    /** `isOnGround`: the value last given to `setGrounded` (false before the first call). */
    predicate IsOnGround()
      reads this
    {
      isGrounded
    }
  }
}
