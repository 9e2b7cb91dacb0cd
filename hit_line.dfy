/**
 * The hit line (src/game/rhythm/components/HitLineComponent.ts): a
 * horizontal line with a tolerance band; a note whose centre is within the
 * band can be hit. Its fields are set once, so it is a value.
 */
module HitLines {
  import opened Colors

  datatype HitLineComponent = HitLineComponent(entity: nat, y: real, width: real, height: real, color: Color, hitTolerance: real)

  /** The constructor: height 5 and tolerance 25 by default, always white. */
  function MakeHitLine(entity: nat, y: real, width: real, height: real := 5.0, hitTolerance: real := 25.0): (h: HitLineComponent)
    ensures h.entity == entity && h.y == y && h.width == width && h.height == height
    ensures h.hitTolerance == hitTolerance && h.color == White
  {
    HitLineComponent(entity, y, width, height, White, hitTolerance)
  }

  function Abs(x: real): real { if x < 0.0 then -x else x }

  /**
   * `isNoteInHitZone`: the centre of a note at `noteY` of size `noteSize` is
   * at most the tolerance from the line; that is, it lies in the closed band
   * [y - tolerance, y + tolerance], both edges counting as hits.
   */
  function IsNoteInHitZone(h: HitLineComponent, noteY: real, noteSize: real): (b: bool)
    ensures b <==> h.y - h.hitTolerance <= noteY + noteSize / 2.0 <= h.y + h.hitTolerance
  {
    Abs(noteY + noteSize / 2.0 - h.y) <= h.hitTolerance
  }

  /** Note centres equally far above and below the line get the same answer. */
  lemma HitZoneSymmetric(h: HitLineComponent, d: real, noteSize: real)
    ensures IsNoteInHitZone(h, h.y + d - noteSize / 2.0, noteSize) <==> IsNoteInHitZone(h, h.y - d - noteSize / 2.0, noteSize)
  {
  }

  /** A note centred on the line is in the zone whenever the tolerance is not negative. */
  lemma CentredNoteHits(h: HitLineComponent, noteSize: real)
    requires h.hitTolerance >= 0.0
    ensures IsNoteInHitZone(h, h.y - noteSize / 2.0, noteSize)
  {
  }
}
