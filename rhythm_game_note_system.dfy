/**
 * The note system of src/game/rhythmGame/systems/RhythmNoteSystem.ts, a
 * copy of the one in src/game/rhythm/systems that looks notes up as
 * `RhythmNoteComponent` instead of `RhythmNote`: it requires a transform and
 * a `RhythmNoteComponent`, and each frame lets every matched note fall.
 */
module RhythmGameNoteSystems {
  import opened Wrappers
  import opened Seqs
  import opened Components
  import opened ComponentStore
  import opened Systems
  import opened Transforms
  import opened RhythmNotes
  import opened NoteMotion

  class RhythmNoteSystem {
    const sys: System
    const componentManager: ComponentManager

    constructor(componentManager: ComponentManager)
      ensures fresh(sys) && this.componentManager == componentManager
      ensures sys.Valid() && sys.name == "RhythmNoteSystem" && sys.entities == []
      ensures sys.requiredComponents == [TransformKey, RhythmNoteComponentKey] && sys.optionalComponents == []
    {
      var s := new System("RhythmNoteSystem");
      s.RegisterRequiredComponent(TransformKey);
      s.RegisterRequiredComponent(RhythmNoteComponentKey);
      sys := s;
      this.componentManager := componentManager;
    }

    /** The view of entity `e`, when it has both a transform and a note. */
    ghost function ViewOf(e: nat): Option<NoteView>
      reads componentManager, EntityObjects(e)
    {
      var t := componentManager.TransformOf(e);
      var n := componentManager.RhythmNoteComponentOf(e);
      if t.None? || n.None? then None else Some(View(t.value, n.value))
    }

    /** The objects `ViewOf(e)` reads. */
    ghost function EntityObjects(e: nat): set<object>
      reads componentManager
    {
      (if componentManager.TransformOf(e).Some? then {componentManager.TransformOf(e).value} else {})
      + (if componentManager.RhythmNoteComponentOf(e).Some? then {componentManager.RhythmNoteComponentOf(e).value} else {})
    }

    /**
     * The transforms of the matched entities that also hold a note: the only
     * transforms `update` may change.
     */
    ghost function Transforms(): set<Transform>
      reads sys, componentManager
    {
      set e | e in sys.entities && componentManager.TransformOf(e).Some? && componentManager.RhythmNoteComponentOf(e).Some?
        :: componentManager.TransformOf(e).value
    }

    /** The notes of the matched entities that also hold a transform: the only notes `update` may change. */
    ghost function Notes(): set<RhythmNoteComponent>
      reads sys, componentManager
    {
      set e | e in sys.entities && componentManager.TransformOf(e).Some? && componentManager.RhythmNoteComponentOf(e).Some?
        :: componentManager.RhythmNoteComponentOf(e).value
    }

    /** The views of the matched entities that have both components. */
    ghost function Views(): (r: map<nat, NoteView>)
      reads sys, componentManager, Transforms(), Notes()
      ensures forall e :: e in r <==> e in sys.entities && componentManager.TransformOf(e).Some? && componentManager.RhythmNoteComponentOf(e).Some?
      ensures forall e :: e in r ==> ViewOf(e) == Some(r[e])
    {
      map e | e in sys.entities && componentManager.TransformOf(e).Some? && componentManager.RhythmNoteComponentOf(e).Some? :: ViewOf(e).value
    }

    /**
     * `update`: every matched note has exactly one frame, `Fall`; the
     * matched set and the store are not touched.
     */
    method Update(deltaTime: real)
      requires componentManager.Valid() && sys.Valid()
      modifies Transforms(), Notes()
      ensures forall e :: e in old(Views()) ==> ViewOf(e) == Some(Fall(old(Views())[e], deltaTime))
    {
      var es := sys.entities;
      ghost var start := Views();
      for i := 0 to |es|
        invariant FallenUpTo(i, start, deltaTime)
      {
        FrameStep(i, start, deltaTime);
      }
      forall e | e in start
        ensures ViewOf(e) == Some(Fall(start[e], deltaTime))
      {
        var k := IndexOf(es, e);
      }
    }

    /**
     * Notes 0 to `i` - 1 of the matched entities have had their frame, the
     * others not yet: the progress of `update` against the views `start`
     * it began from.
     */
    ghost predicate FallenUpTo(i: nat, start: map<nat, NoteView>, deltaTime: real)
      reads sys, componentManager, Transforms(), Notes()
    {
      (forall e :: e in start <==>
        e in sys.entities && componentManager.TransformOf(e).Some? && componentManager.RhythmNoteComponentOf(e).Some?)
      && forall k :: 0 <= k < |sys.entities| && sys.entities[k] in start ==>
        ViewOf(sys.entities[k]) == Some(if k < i then Fall(start[sys.entities[k]], deltaTime) else start[sys.entities[k]])
    }

    /** The body of `update`'s loop for the `i`-th matched entity. */
    method FrameStep(i: nat, ghost start: map<nat, NoteView>, deltaTime: real)
      requires componentManager.Valid() && sys.Valid()
      requires i < |sys.entities| && FallenUpTo(i, start, deltaTime)
      modifies Transforms(), Notes()
      ensures FallenUpTo(i + 1, start, deltaTime)
    {
      var es := sys.entities;
      var e := es[i];
      var transform := componentManager.TransformOf(e);
      var note := componentManager.RhythmNoteComponentOf(e);
      if transform.None? || note.None? || !note.value.isActive {
        return;
      }
      FallOne(transform.value, note.value, deltaTime);
      forall k | 0 <= k < |es| && es[k] in start && k != i
        ensures ViewOf(es[k]) == old(ViewOf(es[k]))
      {
        assert es[k] != e;
        assert componentManager.TransformOf(es[k]).value != transform.value;
        assert componentManager.RhythmNoteComponentOf(es[k]).value != note.value;
      }
    }
  }
}
