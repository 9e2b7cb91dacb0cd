/**
 * The platformer's game state
 * (src/game/physicsGame/components/PhysicsGameStateComponent.ts): the
 * playing field's size, the ground band, the jump and score counters and the
 * number of boxes still to collect.
 */
module PhysicsGameState {

  class PhysicsGameStateComponent {
    const entity: nat
    var gameWidth: real
    var gameHeight: real
    var groundHeight: real
    var isGameRunning: bool
    var playerJumps: int
    var score: int
    var boxesRemaining: int

    /** A new state: running, a 100-pixel ground, and every counter at 0. */
    constructor(entity: nat, gameWidth: real, gameHeight: real)
      ensures this.entity == entity && this.gameWidth == gameWidth && this.gameHeight == gameHeight
      ensures groundHeight == 100.0 && isGameRunning
      ensures playerJumps == 0 && score == 0 && boxesRemaining == 0
    {
      this.entity := entity;
      this.gameWidth := gameWidth;
      this.gameHeight := gameHeight;
      groundHeight := 100.0;
      isGameRunning := true;
      playerJumps := 0;
      score := 0;
      boxesRemaining := 0;
    }

    /** `incrementJumps` raises the jump count by exactly one. */
    method IncrementJumps()
      modifies this
      ensures playerJumps == old(playerJumps) + 1
      ensures score == old(score) && boxesRemaining == old(boxesRemaining) && isGameRunning == old(isGameRunning)
      ensures gameWidth == old(gameWidth) && gameHeight == old(gameHeight) && groundHeight == old(groundHeight)
    {
      playerJumps := playerJumps + 1;
    }

    /** `reset` clears the jump count and resumes the game; the score, the boxes and the field stay. */
    method Reset()
      modifies this
      ensures playerJumps == 0 && isGameRunning
      ensures score == old(score) && boxesRemaining == old(boxesRemaining)
      ensures gameWidth == old(gameWidth) && gameHeight == old(gameHeight) && groundHeight == old(groundHeight)
    {
      playerJumps := 0;
      isGameRunning := true;
    }

    /** `getGroundY`: the centre line of the ground band at the bottom of the field. */
    function GetGroundY(): (y: real)
      reads this
      ensures y + groundHeight / 2.0 == gameHeight
      ensures groundHeight >= 0.0 ==> y <= gameHeight && y >= gameHeight - groundHeight
    {
      gameHeight - groundHeight / 2.0
    }
  }
}
