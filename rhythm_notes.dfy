/**
 * A falling note (src/game/rhythmGame/components/RhythmNoteComponent.ts):
 * its lane, colour, speed and size, and whether it was hit and is still in
 * play.
 */
module RhythmNotes {
  import opened Wrappers
  import opened Colors

  /** The lane colours: red, blue, green, yellow and magenta for lanes 0-4, white for any other lane. */
  function DefaultColorForLane(lane: int): (c: Color)
    ensures 0 <= lane < 5 ==> c == [Red, Blue, Green, Yellow, Magenta][lane]
    ensures !(0 <= lane < 5) ==> c == White
  {
    if lane == 0 then Red
    else if lane == 1 then Blue
    else if lane == 2 then Green
    else if lane == 3 then Yellow
    else if lane == 4 then Magenta
    else White
  }

  /** The five lanes have five different colours, none of them the fallback white. */
  lemma LaneColorsDistinct(i: int, j: int)
    requires 0 <= i < 5 && 0 <= j < 5 && i != j
    ensures DefaultColorForLane(i) != DefaultColorForLane(j)
    ensures DefaultColorForLane(i) != White
  {
  }

  class RhythmNoteComponent {
    const entity: nat
    var lane: int
    var color: Color
    var speed: real
    var size: real
    var isHit: bool
    var isActive: bool

    /** A new note is active and not hit; an explicit colour overrides the lane's. */
    constructor(entity: nat, lane: int, color: Option<Color> := None, speed: real := 50.0, size: real := 50.0)
      ensures this.entity == entity && this.lane == lane && this.speed == speed && this.size == size
      ensures this.color == (if color.Some? then color.value else DefaultColorForLane(lane))
      ensures !isHit && isActive
    {
      this.entity := entity;
      this.lane := lane;
      this.color := if color.Some? then color.value else DefaultColorForLane(lane);
      this.speed := speed;
      this.size := size;
      isHit := false;
      isActive := true;
    }

    /** `markAsHit`: the note is hit and leaves play. */
    method MarkAsHit()
      modifies this
      ensures isHit && !isActive
      ensures lane == old(lane) && color == old(color) && speed == old(speed) && size == old(size)
    {
      isHit := true;
      isActive := false;
    }

    /** `markAsInactive`: the note leaves play; whether it was hit stays as it was. */
    method MarkAsInactive()
      modifies this
      ensures !isActive && isHit == old(isHit)
      ensures lane == old(lane) && color == old(color) && speed == old(speed) && size == old(size)
    {
      isActive := false;
    }
  }
}
