/**
 * The player component (src/game/physicsGame/components/PlayerComponent.ts):
 * the jump force, the horizontal move speed, and the jump gate made of a
 * `canJump` flag and a cooldown.
 */
module Players {

  class PlayerComponent {
    const entity: nat
    var jumpForce: real
    var moveSpeed: real
    var canJump: bool
    var jumpCooldown: real
    var maxJumpCooldown: real

    /** A new player may jump at once: the flag is set, the cooldown is 0 and its maximum 200. */
    constructor(entity: nat, jumpForce: real := -15.0, moveSpeed: real := 5.0)
      ensures this.entity == entity && this.jumpForce == jumpForce && this.moveSpeed == moveSpeed
      ensures canJump && jumpCooldown == 0.0 && maxJumpCooldown == 200.0
      ensures CanPerformJump()
    {
      this.entity := entity;
      this.jumpForce := jumpForce;
      this.moveSpeed := moveSpeed;
      canJump := true;
      jumpCooldown := 0.0;
      maxJumpCooldown := 200.0;
    }

    /** `canPerformJump`: the flag is set and the cooldown has run out. */
    predicate CanPerformJump()
      reads this
    {
      canJump && jumpCooldown <= 0.0
    }

    /**
     * `performJump`: when allowed, starts the cooldown and clears the flag;
     * otherwise does nothing. Either way no jump is allowed afterwards until
     * something resets the gate.
     */
    method PerformJump()
      modifies this
      ensures old(CanPerformJump()) ==> jumpCooldown == maxJumpCooldown && !canJump
      ensures !old(CanPerformJump()) ==> canJump == old(canJump) && jumpCooldown == old(jumpCooldown)
      ensures old(CanPerformJump()) ==> !CanPerformJump()
      ensures jumpForce == old(jumpForce) && moveSpeed == old(moveSpeed) && maxJumpCooldown == old(maxJumpCooldown)
    {
      if CanPerformJump() {
        jumpCooldown := maxJumpCooldown;
        canJump := false;
      }
    }

    /** `updateCooldown`: the cooldown counts down by `deltaTime` only while it is positive. */
    method UpdateCooldown(deltaTime: real)
      modifies this
      ensures jumpCooldown == CooledDown(old(jumpCooldown), deltaTime)
      ensures canJump == old(canJump) && jumpForce == old(jumpForce) && moveSpeed == old(moveSpeed)
      ensures maxJumpCooldown == old(maxJumpCooldown)
    {
      if jumpCooldown > 0.0 {
        jumpCooldown := jumpCooldown - deltaTime;
      }
    }

    /** `resetJump` opens the gate again. */
    method ResetJump()
      modifies this
      ensures canJump && jumpCooldown == 0.0 && CanPerformJump()
      ensures jumpForce == old(jumpForce) && moveSpeed == old(moveSpeed) && maxJumpCooldown == old(maxJumpCooldown)
    {
      canJump := true;
      jumpCooldown := 0.0;
    }
  }

  /** The cooldown after one tick of `dt`: a cooldown that has run out stays put. */
  function CooledDown(cooldown: real, dt: real): (c: real)
    ensures cooldown <= 0.0 ==> c == cooldown
    ensures cooldown > 0.0 ==> c + dt == cooldown
  {
    if cooldown > 0.0 then cooldown - dt else cooldown
  }

  /** With positive ticks the cooldown never grows, and enough ticks bring it to 0 or below. */
  lemma CooldownRunsOut(cooldown: real, dt: real, n: nat)
    requires dt > 0.0 && n as real * dt >= cooldown
    ensures Ticks(cooldown, dt, n) <= 0.0
    ensures Ticks(cooldown, dt, n) <= cooldown
  {
    CooldownFalls(cooldown, dt, n);
  }

  /** The cooldown after `n` ticks of `dt`. */
  function Ticks(cooldown: real, dt: real, n: nat): real {
    if n == 0 then cooldown else CooledDown(Ticks(cooldown, dt, n - 1), dt)
  }

  /** While still positive after `n` ticks, the cooldown has fallen by exactly `n * dt`. */
  lemma {:induction false} CooldownFalls(cooldown: real, dt: real, n: nat)
    requires dt > 0.0
    ensures Ticks(cooldown, dt, n) <= cooldown
    ensures Ticks(cooldown, dt, n) > 0.0 ==> Ticks(cooldown, dt, n) == cooldown - n as real * dt
  {
    if n > 0 {
      CooldownFalls(cooldown, dt, n - 1);
      assert (n - 1) as real * dt + dt == n as real * dt;
    }
  }
}
