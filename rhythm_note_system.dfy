/**
 * How notes fall. Every frame each note still in play moves down by its
 * speed times the frame's length; one whose position then lies below
 * y = 600 leaves play as a miss (the note itself stays where it is, and a
 * miss is never counted as a hit). This module holds the motion as values;
 * the two note systems below apply it to the stored components.
 */
module NoteMotion {
  import opened Vector2
  import opened Colors
  import opened Transforms
  import opened RhythmNotes

  /** The line below which a falling note is missed: the assumed screen height. */
  const MissLine: real := 600.0

  /** What a note system sees of one note: its transform and its note component. */
  datatype NoteView = NoteView(position: Vec2, rotation: real, scale: Vec2,
    lane: int, color: Color, speed: real, size: real, hit: bool, active: bool)

  /** One frame of one note: the body of the note systems' loop. */
  function Fall(v: NoteView, deltaTime: real): NoteView
  {
    if !v.active then v
    else
      var moved := v.(position := Add(v.position, Vec2(0.0, v.speed * deltaTime)));
      if moved.position.y > MissLine then moved.(active := false) else moved
  }

  /** `k` frames of the same length. */
  function Run(v: NoteView, deltaTime: real, k: nat): NoteView
  {
    if k == 0 then v else Fall(Run(v, deltaTime, k - 1), deltaTime)
  }

  /**
   * A frame moves a note in play straight down by speed × deltaTime and
   * nothing else about it changes but whether it is in play; a note out of
   * play is left exactly as it is.
   */
  lemma FallMovesDown(v: NoteView, deltaTime: real)
    ensures v.active ==> Fall(v, deltaTime).position == Vec2(v.position.x, v.position.y + v.speed * deltaTime)
    ensures !v.active ==> Fall(v, deltaTime) == v
    ensures Fall(v, deltaTime).(position := v.position, active := v.active) == v
  {
    if v.active {
      var d := v.speed * deltaTime;
      var moved := v.(position := Add(v.position, Vec2(0.0, d)));
      assert moved.position == Vec2(v.position.x, v.position.y + d);
      assert Fall(v, deltaTime).position == moved.position;
    }
  }

  /**
   * A note leaves play in a frame exactly when it was in play and ends the
   * frame below the miss line; a note still in play is never below it.
   */
  lemma LeavesPlayBelowLine(v: NoteView, deltaTime: real)
    ensures (v.active && !Fall(v, deltaTime).active) <==> (v.active && Fall(v, deltaTime).position.y > MissLine)
    ensures Fall(v, deltaTime).active ==> Fall(v, deltaTime).position.y <= MissLine
    ensures Fall(v, deltaTime).active ==> v.active
  {
  }

  /** Over any number of frames a note keeps its column, lane, colour, speed, size, rotation, scale and hit flag. */
  lemma {:induction false} RunKeepsIdentity(v: NoteView, deltaTime: real, k: nat)
    ensures Run(v, deltaTime, k).(position := v.position, active := v.active) == v
    ensures Run(v, deltaTime, k).position.x == v.position.x
  {
    if k > 0 {
      RunKeepsIdentity(v, deltaTime, k - 1);
    }
  }

  /** Once a note is out of play, later frames leave it as it is: a missed note is never moved or revived. */
  lemma {:induction false} RunStaysOut(v: NoteView, deltaTime: real, j: nat, k: nat)
    requires j <= k && !Run(v, deltaTime, j).active
    ensures Run(v, deltaTime, k) == Run(v, deltaTime, j)
  {
    if k > j {
      RunStaysOut(v, deltaTime, j, k - 1);
    }
  }

  /** A note still in play after `k` frames has fallen exactly `k` times its per-frame distance. */
  lemma {:induction false} RunFallsSteadily(v: NoteView, deltaTime: real, k: nat)
    requires Run(v, deltaTime, k).active
    ensures Run(v, deltaTime, k).position.y == v.position.y + k as real * (v.speed * deltaTime)
  {
    if k > 0 {
      var before := Run(v, deltaTime, k - 1);
      assert before.active;
      RunFallsSteadily(v, deltaTime, k - 1);
      RunKeepsIdentity(v, deltaTime, k - 1);
      assert (k - 1) as real * (v.speed * deltaTime) + v.speed * deltaTime == k as real * (v.speed * deltaTime);
    }
  }

  /** The view of a note through its transform and its note component. */
  ghost function View(t: Transform, n: RhythmNoteComponent): NoteView
    reads t, n
  {
    NoteView(t.position, t.rotation, t.scale, n.lane, n.color, n.speed, n.size, n.isHit, n.isActive)
  }

  /**
   * The frame of one note in play, on its components: the transform moves
   * down by speed × deltaTime, and below the miss line the note leaves play.
   */
  method FallOne(transform: Transform, note: RhythmNoteComponent, deltaTime: real)
    requires note.isActive
    modifies transform, note
    ensures View(transform, note) == Fall(old(View(transform, note)), deltaTime)
  {
    var moveDistance := note.speed * deltaTime;
    transform.Translate(Vec2(0.0, moveDistance));
    if transform.position.y > MissLine {
      note.MarkAsInactive();
    }
  }
}

/**
 * The note system of src/game/rhythm/systems/RhythmNoteSystem.ts: it
 * requires a transform and a `RhythmNote`, and each frame lets every
 * matched note fall.
 */
module RhythmNoteSystems {
  import opened Wrappers
  import opened Seqs
  import opened Components
  import opened ComponentStore
  import opened Systems
  import opened Transforms
  import opened RhythmNotes
  import opened NoteMotion

  class RhythmNoteSystem {
    const sys: System
    const componentManager: ComponentManager

    constructor(componentManager: ComponentManager)
      ensures fresh(sys) && this.componentManager == componentManager
      ensures sys.Valid() && sys.name == "RhythmNoteSystem" && sys.entities == []
      ensures sys.requiredComponents == [TransformKey, RhythmNoteKey] && sys.optionalComponents == []
    {
      var s := new System("RhythmNoteSystem");
      s.RegisterRequiredComponent(TransformKey);
      s.RegisterRequiredComponent(RhythmNoteKey);
      sys := s;
      this.componentManager := componentManager;
    }

    /** The view of entity `e`, when it has both a transform and a note. */
    ghost function ViewOf(e: nat): Option<NoteView>
      reads componentManager, EntityObjects(e)
    {
      var t := componentManager.TransformOf(e);
      var n := componentManager.RhythmNoteOf(e);
      if t.None? || n.None? then None else Some(View(t.value, n.value))
    }

    /** The objects `ViewOf(e)` reads. */
    ghost function EntityObjects(e: nat): set<object>
      reads componentManager
    {
      (if componentManager.TransformOf(e).Some? then {componentManager.TransformOf(e).value} else {})
      + (if componentManager.RhythmNoteOf(e).Some? then {componentManager.RhythmNoteOf(e).value} else {})
    }

    /**
     * The transforms of the matched entities that also hold a note: the only
     * transforms `update` may change.
     */
    ghost function Transforms(): set<Transform>
      reads sys, componentManager
    {
      set e | e in sys.entities && componentManager.TransformOf(e).Some? && componentManager.RhythmNoteOf(e).Some?
        :: componentManager.TransformOf(e).value
    }

    /** The notes of the matched entities that also hold a transform: the only notes `update` may change. */
    ghost function Notes(): set<RhythmNoteComponent>
      reads sys, componentManager
    {
      set e | e in sys.entities && componentManager.TransformOf(e).Some? && componentManager.RhythmNoteOf(e).Some?
        :: componentManager.RhythmNoteOf(e).value
    }

    /** The views of the matched entities that have both components. */
    ghost function Views(): (r: map<nat, NoteView>)
      reads sys, componentManager, Transforms(), Notes()
      ensures forall e :: e in r <==> e in sys.entities && componentManager.TransformOf(e).Some? && componentManager.RhythmNoteOf(e).Some?
      ensures forall e :: e in r ==> ViewOf(e) == Some(r[e])
    {
      map e | e in sys.entities && componentManager.TransformOf(e).Some? && componentManager.RhythmNoteOf(e).Some? :: ViewOf(e).value
    }

    /**
     * `update`: every matched note has exactly one frame, `Fall`; the
     * matched set and the store are not touched.
     */
    method Update(deltaTime: real)
      requires componentManager.Valid() && sys.Valid()
      modifies Transforms(), Notes()
      ensures forall e :: e in old(Views()) ==> ViewOf(e) == Some(Fall(old(Views())[e], deltaTime))
    {
      var es := sys.entities;
      ghost var start := Views();
      for i := 0 to |es|
        invariant FallenUpTo(i, start, deltaTime)
      {
        FrameStep(i, start, deltaTime);
      }
      forall e | e in start
        ensures ViewOf(e) == Some(Fall(start[e], deltaTime))
      {
        var k := IndexOf(es, e);
      }
    }

    /**
     * Notes 0 to `i` - 1 of the matched entities have had their frame, the
     * others not yet: the progress of `update` against the views `start`
     * it began from.
     */
    ghost predicate FallenUpTo(i: nat, start: map<nat, NoteView>, deltaTime: real)
      reads sys, componentManager, Transforms(), Notes()
    {
      (forall e :: e in start <==>
        e in sys.entities && componentManager.TransformOf(e).Some? && componentManager.RhythmNoteOf(e).Some?)
      && forall k :: 0 <= k < |sys.entities| && sys.entities[k] in start ==>
        ViewOf(sys.entities[k]) == Some(if k < i then Fall(start[sys.entities[k]], deltaTime) else start[sys.entities[k]])
    }

    /** The body of `update`'s loop for the `i`-th matched entity. */
    method FrameStep(i: nat, ghost start: map<nat, NoteView>, deltaTime: real)
      requires componentManager.Valid() && sys.Valid()
      requires i < |sys.entities| && FallenUpTo(i, start, deltaTime)
      modifies Transforms(), Notes()
      ensures FallenUpTo(i + 1, start, deltaTime)
    {
      var es := sys.entities;
      var e := es[i];
      var transform := componentManager.TransformOf(e);
      var note := componentManager.RhythmNoteOf(e);
      if transform.None? || note.None? || !note.value.isActive {
        return;
      }
      FallOne(transform.value, note.value, deltaTime);
      forall k | 0 <= k < |es| && es[k] in start && k != i
        ensures ViewOf(es[k]) == old(ViewOf(es[k]))
      {
        assert es[k] != e;
        assert componentManager.TransformOf(es[k]).value != transform.value;
        assert componentManager.RhythmNoteOf(es[k]).value != note.value;
      }
    }
  }
}
