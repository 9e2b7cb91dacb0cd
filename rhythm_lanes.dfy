/**
 * A lane of the rhythm field (src/game/rhythm/RhythmLane.ts): its index,
 * geometry, background shade and the key that plays it. Its fields are set
 * once, so it is a value.
 */
module RhythmLanes {
  import opened Wrappers
  import opened Strings
  import opened Colors

  datatype RhythmLane = RhythmLane(entity: nat, laneIndex: int, width: real, height: real, x: real, y: real, color: Color, keyBinding: string)

  /** The shade of lane `i`: opaque grey 42 (`#2a2a2a`) for even lanes, grey 26 (`#1a1a1a`) for odd ones. */
  function LaneShade(i: int): (c: Color)
    ensures c.r == c.g == c.b && c.a == 255
    ensures i % 2 == 0 <==> c.r == 42
  {
    if i % 2 == 0 then Color(42, 42, 42, 255) else Color(26, 26, 26, 255)
  }

  /** `getDefaultColorForLane`: the shade is what `fromHex` makes of the lane's hex string. */
  lemma LaneShadeIsHex(i: int)
    ensures FromHex(if i % 2 == 0 then "#2a2a2a" else "#1a1a1a") == Some(LaneShade(i))
  {
    if i % 2 == 0 {
      assert "#2a2a2a"[1..3] == "#2a2a2a"[3..5] == "#2a2a2a"[5..7] == "2a";
      FromHexSixDigits("#2a2a2a");
    } else {
      assert "#1a1a1a"[1..3] == "#1a1a1a"[3..5] == "#1a1a1a"[5..7] == "1a";
      FromHexSixDigits("#1a1a1a");
    }
  }

  /** The constructor: geometry stored as given, the key is the lane's number counted from 1. */
  function MakeLane(entity: nat, laneIndex: int, width: real, height: real, x: real, y: real): (l: RhythmLane)
    ensures l.entity == entity && l.laneIndex == laneIndex && l.width == width && l.height == height
    ensures l.x == x && l.y == y
    ensures l.keyBinding == IntToString(laneIndex + 1)
    ensures l.color == LaneShade(laneIndex)
  {
    RhythmLane(entity, laneIndex, width, height, x, y, LaneShade(laneIndex), IntToString(laneIndex + 1))
  }

  /** `isKeyMatch`: the key is exactly the lane's binding. */
  predicate IsKeyMatch(l: RhythmLane, key: string) {
    key == l.keyBinding
  }

  /** Lanes 0-4 are played by the single digit keys "1" to "5". */
  lemma LaneKeyIsDigit(l: RhythmLane)
    requires l == MakeLane(l.entity, l.laneIndex, l.width, l.height, l.x, l.y) && 0 <= l.laneIndex < 5
    ensures IsKeyMatch(l, NatToString(l.laneIndex + 1))
    ensures |l.keyBinding| == 1 && IsDigit(l.keyBinding[0])
  {
  }

  /** No key plays two lanes with different indices. */
  lemma LaneKeysDistinct(l: RhythmLane, m: RhythmLane, key: string)
    requires l.keyBinding == IntToString(l.laneIndex + 1) && m.keyBinding == IntToString(m.laneIndex + 1)
    requires l.laneIndex != m.laneIndex
    ensures !(IsKeyMatch(l, key) && IsKeyMatch(m, key))
  {
    IntToStringInjective(l.laneIndex + 1, m.laneIndex + 1);
  }

  /** Neighbouring lanes alternate between the two shades. */
  lemma NeighbourShadesDiffer(i: int)
    ensures LaneShade(i) != LaneShade(i + 1)
  {
    assert (i % 2 == 0) != ((i + 1) % 2 == 0);
  }
}
