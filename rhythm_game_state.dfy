/**
 * The rhythm game's state
 * (src/game/rhythm/components/RhythmGameStateComponent.ts): the score, the
 * spawn timer and its interval, and the five equal lanes across the field.
 */
module RhythmGameState {

  const LaneCount: int := 5

  /** The left edge of lane `i` for lanes `laneWidth` wide. */
  function LaneX(laneWidth: real, i: int): real {
    i as real * laneWidth
  }

  /** The centre of lane `i`. */
  function LaneCenter(laneWidth: real, i: int): real {
    LaneX(laneWidth, i) + laneWidth / 2.0
  }

  /**
   * Adjacent lanes start `laneWidth` apart, the five lanes of a field
   * `gameWidth` wide end exactly at its right edge, and a lane's centre lies
   * strictly inside it when the lanes have positive width.
   */
  lemma LaneGeometry(gameWidth: real, i: int)
    ensures LaneX(gameWidth / 5.0, i + 1) == LaneX(gameWidth / 5.0, i) + gameWidth / 5.0
    ensures LaneX(gameWidth / 5.0, LaneCount) == gameWidth
    ensures LaneX(gameWidth / 5.0, 0) == 0.0
    ensures gameWidth > 0.0 ==>
      LaneX(gameWidth / 5.0, i) < LaneCenter(gameWidth / 5.0, i) < LaneX(gameWidth / 5.0, i + 1)
  {
    var w := gameWidth / 5.0;
    assert (i + 1) as real * w == i as real * w + w;
  }

  class RhythmGameStateComponent {
    const entity: nat
    var score: real
    var noteSpawnTimer: real
    var noteSpawnInterval: real
    var gameWidth: real
    var gameHeight: real
    var laneWidth: real
    var hitLineY: real
    var isGameRunning: bool

    /** A new state: no score, the timer at 0, a 6000 ms interval, five lanes, the hit line 100 above the bottom. */
    constructor(entity: nat, gameWidth: real, gameHeight: real)
      ensures this.entity == entity && this.gameWidth == gameWidth && this.gameHeight == gameHeight
      ensures score == 0.0 && noteSpawnTimer == 0.0 && noteSpawnInterval == 6000.0 && isGameRunning
      ensures laneWidth * 5.0 == gameWidth && hitLineY + 100.0 == gameHeight
    {
      this.entity := entity;
      score := 0.0;
      noteSpawnTimer := 0.0;
      noteSpawnInterval := 6000.0;
      this.gameWidth := gameWidth;
      this.gameHeight := gameHeight;
      laneWidth := gameWidth / 5.0;
      hitLineY := gameHeight - 100.0;
      isGameRunning := true;
    }

    /** Every field but the score is as it was. */
    twostate predicate OthersUnchanged()
      reads this
    {
      noteSpawnTimer == old(noteSpawnTimer) && isGameRunning == old(isGameRunning)
      && noteSpawnInterval == old(noteSpawnInterval) && laneWidth == old(laneWidth) && hitLineY == old(hitLineY)
      && gameWidth == old(gameWidth) && gameHeight == old(gameHeight)
    }

    /** `addScore(points)`, one point by default. */
    method AddScore(points: real := 1.0)
      modifies this
      ensures score == old(score) + points
      ensures noteSpawnTimer == old(noteSpawnTimer) && isGameRunning == old(isGameRunning)
      ensures noteSpawnInterval == old(noteSpawnInterval) && laneWidth == old(laneWidth) && hitLineY == old(hitLineY)
      ensures gameWidth == old(gameWidth) && gameHeight == old(gameHeight)
    {
      score := score + points;
    }

    function GetLaneX(i: int): (x: real)
      reads this
      ensures x == LaneX(laneWidth, i)
    {
      i as real * laneWidth
    }

    function GetLaneCenter(i: int): (x: real)
      reads this
      ensures x == LaneCenter(laneWidth, i)
    {
      GetLaneX(i) + laneWidth / 2.0
    }

    /** `reset` clears score and timer and resumes; the field, lanes and interval stay. */
    method Reset()
      modifies this
      ensures score == 0.0 && noteSpawnTimer == 0.0 && isGameRunning
      ensures noteSpawnInterval == old(noteSpawnInterval) && laneWidth == old(laneWidth) && hitLineY == old(hitLineY)
      ensures gameWidth == old(gameWidth) && gameHeight == old(gameHeight)
    {
      score := 0.0;
      noteSpawnTimer := 0.0;
      isGameRunning := true;
    }
  }
}
