/**
 * The rhythm game's input system
 * (src/game/rhythm/systems/RhythmInputSystem.ts). Keys 1 to 5 strike lanes
 * 0 to 4: of the notes in play in that lane whose centre is within the hit
 * line's tolerance, the one nearest the line (the first of equally near
 * ones) is marked as hit and the score goes up by one. Every frame the
 * system drops the notes that are out of play from its matched set.
 */
module RhythmInputSystems {
  import opened Wrappers
  import opened Seqs
  import opened Strings
  import opened KeyboardEvents
  import opened Events
  import opened Components
  import opened ComponentStore
  import opened Systems
  import opened RhythmGameState
  import opened HitLines
  import opened RhythmNotes
  import opened NoteMotion

  /** The lane a key event strikes: a press of the digit key 1 to 5 strikes lane 0 to 4; nothing else strikes. */
  function LaneOfEvent(event: Event): (r: Option<int>)
    ensures r.Some? <==> event.Keyboard? && IsPressed(event.k) && |event.k.key| == 1 && '1' <= event.k.key[0] <= '5'
    ensures r.Some? ==> 0 <= r.value < LaneCount && event.k.key == [DigitChar(r.value + 1)]
  {
    if event.Keyboard? && IsPressed(event.k) then
      var n := GetNumber(event.k);
      if n.Some? && 1 <= n.value <= 5 then Some(n.value - 1) else None
    else None
  }

  /** Pressing digit `d` from 1 to 5 strikes lane `d` - 1, whatever the key's code. */
  lemma DigitKeyStrikesLane(d: nat, code: string)
    requires 1 <= d <= 5
    ensures LaneOfEvent(Keyboard(CreatePressed(NatToString(d), code))) == Some(d - 1)
  {
    GetNumberOfDigitKey(d, code);
  }

  /** A note can be struck from `lane` when it is in play, in that lane and within the hit line's tolerance. */
  predicate Eligible(v: NoteView, lane: int, h: HitLineComponent) {
    v.active && v.lane == lane && IsNoteInHitZone(h, v.position.y, v.size)
  }

  /** How far a note's centre is from the hit line. */
  function Distance(v: NoteView, h: HitLineComponent): real {
    Abs(v.position.y + v.size / 2.0 - h.y)
  }

  /**
   * The note the search over `es` settles on: it walks `es` in order and
   * takes an eligible note only when it is strictly nearer than the one it
   * holds (none at first, as if infinitely far).
   */
  function Closest(es: seq<nat>, views: map<nat, NoteView>, lane: int, h: HitLineComponent): (r: Option<nat>)
    ensures r.Some? ==> r.value in es && r.value in views && Eligible(views[r.value], lane, h)
  {
    if es == [] then None
    else
      var c := Closest(es[..|es| - 1], views, lane, h);
      var e := es[|es| - 1];
      if e in views && Eligible(views[e], lane, h) && (c.None? || Distance(views[e], h) < Distance(views[c.value], h))
      then Some(e) else c
  }

  /**
   * The search finds a note exactly when some note is eligible; the one it
   * finds is at least as near the line as every eligible note, and strictly
   * nearer than every eligible note before it.
   */
  lemma {:induction false} ClosestIsFirstNearest(es: seq<nat>, views: map<nat, NoteView>, lane: int, h: HitLineComponent)
    requires NoDups(es)
    ensures Closest(es, views, lane, h).None? <==> forall e :: e in es && e in views ==> !Eligible(views[e], lane, h)
    ensures Closest(es, views, lane, h).Some? ==> forall e :: e in es && e in views && Eligible(views[e], lane, h) ==>
      Distance(views[Closest(es, views, lane, h).value], h) <= Distance(views[e], h)
    ensures Closest(es, views, lane, h).Some? ==> forall j, k ::
      0 <= j < k < |es| && es[k] == Closest(es, views, lane, h).value && es[j] in views && Eligible(views[es[j]], lane, h) ==>
      Distance(views[es[k]], h) < Distance(views[es[j]], h)
  {
    if es != [] {
      var n := |es| - 1;
      var init := es[..n];
      var e := es[n];
      assert forall k :: 0 <= k < n ==> init[k] == es[k];
      assert NoDups(init);
      ClosestIsFirstNearest(init, views, lane, h);
      var c := Closest(init, views, lane, h);
      assert forall x :: x in es <==> x in init || x == e;
      assert e !in init;
    }
  }

  /** `markAsHit` on a note's view: hit and out of play. */
  function Struck(v: NoteView): (r: NoteView)
    ensures r.hit && !r.active
  {
    v.(hit := true, active := false)
  }

  /** A struck note cannot be struck again from any lane, and later frames leave it where it is. */
  lemma StruckOnce(v: NoteView, lane: int, h: HitLineComponent, deltaTime: real)
    ensures !Eligible(Struck(v), lane, h)
    ensures Fall(Struck(v), deltaTime) == Struck(v)
  {
  }

  /** `s` without the elements of `gone`, in order. */
  function Kept(s: seq<nat>, gone: set<nat>): (r: seq<nat>)
    ensures forall x :: x in r <==> x in s && x !in gone
    ensures |r| <= |s|
  {
    if s == [] then []
    else Kept(s[..|s| - 1], gone) + (if s[|s| - 1] in gone then [] else [s[|s| - 1]])
  }

  /** Dropping elements keeps a sequence free of duplicates. */
  lemma {:induction false} KeptNoDups(s: seq<nat>, gone: set<nat>)
    requires NoDups(s)
    ensures NoDups(Kept(s, gone))
  {
    if s != [] {
      var init := s[..|s| - 1];
      assert forall i, j :: 0 <= i < j < |init| ==> init[i] == s[i] && init[j] == s[j];
      KeptNoDups(init, gone);
      assert s[|s| - 1] !in init;
    }
  }

  class RhythmInputSystem {
    const sys: System
    const componentManager: ComponentManager
    var gameStateEntity: Option<nat>
    var hitLineEntity: Option<nat>

    /**
     * The system requires a transform and a note, has no game state and
     * no hit line yet, and is subscribed as `listener` to key presses.
     */
    constructor(componentManager: ComponentManager, eventManager: EventManager, listener: ListenerId)
      requires eventManager.Valid()
      modifies eventManager
      ensures fresh(sys) && sys.Valid() && sys.name == "RhythmInputSystem" && sys.entities == []
      ensures sys.requiredComponents == [TransformKey, RhythmNoteKey] && sys.optionalComponents == []
      ensures this.componentManager == componentManager && gameStateEntity == None && hitLineEntity == None
      ensures eventManager.Valid() && eventManager.queue == old(eventManager.queue)
      ensures eventManager.listeners == Subscribed(old(eventManager.listeners), KEY_PRESSED, listener)
    {
      var s := new System("RhythmInputSystem");
      s.RegisterRequiredComponent(TransformKey);
      s.RegisterRequiredComponent(RhythmNoteKey);
      sys := s;
      this.componentManager := componentManager;
      gameStateEntity := None;
      hitLineEntity := None;
      eventManager.Subscribe(KEY_PRESSED, listener);
    }

    /** `setGameStateEntity` */
    method SetGameStateEntity(entity: nat)
      modifies this
      ensures gameStateEntity == Some(entity) && hitLineEntity == old(hitLineEntity)
    {
      gameStateEntity := Some(entity);
    }

    /** `setHitLineEntity` */
    method SetHitLineEntity(entity: nat)
      modifies this
      ensures hitLineEntity == Some(entity) && gameStateEntity == old(gameStateEntity)
    {
      hitLineEntity := Some(entity);
    }

    /** The view of entity `e`, when it has both a transform and a note. */
    ghost function ViewOf(e: nat): Option<NoteView>
      reads componentManager, EntityObjects(e)
    {
      var t := componentManager.TransformOf(e);
      var n := componentManager.RhythmNoteOf(e);
      if t.None? || n.None? then None else Some(View(t.value, n.value))
    }

    /** The objects `ViewOf(e)` reads. */
    ghost function EntityObjects(e: nat): set<object>
      reads componentManager
    {
      (if componentManager.TransformOf(e).Some? then {componentManager.TransformOf(e).value} else {})
      + (if componentManager.RhythmNoteOf(e).Some? then {componentManager.RhythmNoteOf(e).value} else {})
    }

    /** Entity `e` holds both a transform and a note. */
    predicate Equipped(e: nat)
      reads componentManager
    {
      componentManager.TransformOf(e).Some? && componentManager.RhythmNoteOf(e).Some?
    }

    /** The transforms of the matched entities that also hold a note. */
    ghost function Transforms(): set<Transforms.Transform>
      reads sys, componentManager
    {
      set e | e in sys.entities && Equipped(e)
        :: componentManager.TransformOf(e).value
    }

    /**
     * The notes of the matched entities that also hold a transform: the only
     * notes a lane strike may change.
     */
    ghost function Notes(): set<RhythmNoteComponent>
      reads sys, componentManager
    {
      set e | e in sys.entities && Equipped(e)
        :: componentManager.RhythmNoteOf(e).value
    }

    /** The notes of all matched entities, with or without a transform. */
    ghost function AllNotes(): set<RhythmNoteComponent>
      reads sys, componentManager
    {
      set e | e in sys.entities && componentManager.RhythmNoteOf(e).Some? :: componentManager.RhythmNoteOf(e).value
    }

    /** The views of the matched entities that have both components. */
    ghost function Views(): (r: map<nat, NoteView>)
      reads sys, componentManager, Transforms(), Notes()
      ensures forall e :: e in r <==> e in sys.entities && Equipped(e)
    {
      map e | e in sys.entities && Equipped(e) :: ViewOf(e).value
    }

    /** The game state, when its entity is set and holds one. */
    function GameStateOf(): Option<RhythmGameStateComponent>
      reads this`gameStateEntity, componentManager
    {
      if gameStateEntity.None? then None else componentManager.RhythmGameStateOf(gameStateEntity.value)
    }

    /** The hit line, when its entity is set and holds one. */
    function HitLineOf(): Option<HitLineComponent>
      reads this`hitLineEntity, componentManager
    {
      if hitLineEntity.None? then None else componentManager.HitLineOf(hitLineEntity.value)
    }

    ghost function GameStates(): set<RhythmGameStateComponent>
      reads this`gameStateEntity, componentManager
    {
      if GameStateOf().Some? then {GameStateOf().value} else {}
    }

    /** The note a strike on `lane` hits: none without a game state or a hit line, else the search's result. */
    ghost function Target(lane: int): Option<nat>
      reads this, sys, componentManager, Transforms(), Notes()
    {
      if GameStateOf().None? || HitLineOf().None? then None
      else Closest(sys.entities, Views(), lane, HitLineOf().value)
    }

    /**
     * The search loop of `handleLaneInput`: the nearest eligible note, the
     * first of equally near ones; `closestDistance` None stands for the
     * source's `Infinity`.
     */
    method FindClosest(lane: int, hitLine: HitLineComponent, ghost views: map<nat, NoteView>) returns (hitNote: Option<nat>)
      requires componentManager.Valid() && views == Views()
      ensures hitNote == Closest(sys.entities, views, lane, hitLine)
      ensures forall x :: x in views ==> ViewOf(x) == Some(views[x])
    {
      var es := sys.entities;
      hitNote := None;
      var closestDistance: Option<real> := None;
      for i := 0 to |es|
        invariant hitNote == Closest(es[..i], views, lane, hitLine)
        invariant closestDistance.None? <==> hitNote.None?
        invariant hitNote.Some? ==> closestDistance.value == Distance(views[hitNote.value], hitLine)
      {
        assert es[..i + 1][..i] == es[..i];
        var e := es[i];
        var note := componentManager.RhythmNoteOf(e);
        var transform := componentManager.TransformOf(e);
        if note.None? || transform.None? || !note.value.isActive || note.value.lane != lane {
          continue;
        }
        assert e in views && views[e] == View(transform.value, note.value);
        if IsNoteInHitZone(hitLine, transform.value.position.y, note.value.size) {
          var distance := Abs(transform.value.position.y + note.value.size / 2.0 - hitLine.y);
          if closestDistance.None? || distance < closestDistance.value {
            closestDistance := Some(distance);
            hitNote := Some(e);
          }
        }
      }
      assert es[..|es|] == es;
    }

    /**
     * `handleLaneInput`: the note `Target(lane)`, if any, is struck and the
     * score goes up by one; every other note, and the score on a miss, stay
     * as they were.
     */
    method HandleLaneInput(lane: int) returns (ghost hit: Option<nat>)
      requires componentManager.Valid() && sys.Valid()
      modifies Notes(), GameStates()
      ensures hit == old(Target(lane))
      ensures forall e :: e in old(Views()) ==>
        ViewOf(e) == Some(if Some(e) == hit then Struck(old(Views())[e]) else old(Views())[e])
      ensures GameStateOf().Some? ==> GameStateOf().value.score == old(GameStateOf().value.score) + (if hit.Some? then 1.0 else 0.0)
      ensures GameStateOf().Some? ==> GameStateOf().value.OthersUnchanged()
    {
      hit := None;
      if gameStateEntity.None? || hitLineEntity.None? {
        return;
      }
      var gameState := componentManager.RhythmGameStateOf(gameStateEntity.value);
      var hitLine := componentManager.HitLineOf(hitLineEntity.value);
      if gameState.None? || hitLine.None? {
        return;
      }
      hit := StrikeLane(lane, gameState.value, hitLine.value);
    }

    /** The part of `handleLaneInput` past its guards: the search, then the strike when it found a note. */
    method StrikeLane(lane: int, gameState: RhythmGameStateComponent, hitLine: HitLineComponent) returns (ghost hit: Option<nat>)
      requires componentManager.Valid() && sys.Valid()
      requires GameStateOf() == Some(gameState) && HitLineOf() == Some(hitLine)
      modifies Notes(), gameState
      ensures hit == old(Closest(sys.entities, Views(), lane, hitLine))
      ensures forall e :: e in old(Views()) ==>
        ViewOf(e) == Some(if Some(e) == hit then Struck(old(Views())[e]) else old(Views())[e])
      ensures gameState.score == old(gameState.score) + (if hit.Some? then 1.0 else 0.0)
      ensures gameState.OthersUnchanged()
    {
      ghost var views := Views();
      var hitNote := FindClosest(lane, hitLine, views);
      hit := hitNote;
      if hitNote.Some? {
        assert Equipped(hitNote.value) && componentManager.RhythmNoteOf(hitNote.value).value in Notes();
        StrikeFound(hitNote.value, gameState, views);
        forall x | x in views
          ensures ViewOf(x) == Some(if Some(x) == hit then Struck(views[x]) else views[x])
        {
          assert Some(x) == hit <==> x == hitNote.value;
        }
      }
      assert views == old(Views());
    }

    /** The strike once the search found note `e`: its note is looked up again and, when there, struck. */
    method StrikeFound(e: nat, gameState: RhythmGameStateComponent, ghost views: map<nat, NoteView>)
      requires componentManager.Valid() && e in views && Equipped(e)
      requires forall x :: x in views ==> ViewOf(x) == Some(views[x])
      requires GameStateOf() == Some(gameState)
      modifies componentManager.RhythmNoteOf(e).value, gameState
      ensures forall x :: x in views ==> ViewOf(x) == Some(if x == e then Struck(views[x]) else views[x])
      ensures gameState.score == old(gameState.score) + 1.0
      ensures gameState.OthersUnchanged()
    {
      var note := componentManager.RhythmNoteOf(e);
      if note.Some? {
        Strike(e, note.value, gameState, views);
      }
    }

    /** Marking the found note as hit and scoring one point; no other note changes. */
    method Strike(e: nat, note: RhythmNoteComponent, gameState: RhythmGameStateComponent, ghost views: map<nat, NoteView>)
      requires componentManager.Valid() && e in views
      requires forall x :: x in views ==> ViewOf(x) == Some(views[x])
      requires componentManager.RhythmNoteOf(e) == Some(note) && GameStateOf() == Some(gameState)
      modifies note, gameState
      ensures forall x :: x in views ==> ViewOf(x) == Some(if x == e then Struck(views[x]) else views[x])
      ensures gameState.score == old(gameState.score) + 1.0
      ensures gameState.OthersUnchanged()
    {
      note.MarkAsHit();
      gameState.AddScore(1.0);
      forall x | x in views
        ensures ViewOf(x) == Some(if x == e then Struck(views[x]) else views[x])
      {
        if x != e {
          assert componentManager.RhythmNoteOf(x).value != note;
        }
      }
    }

    /** `handleEvent`: a press of a digit key 1 to 5 strikes its lane; every other event changes nothing. */
    method HandleEvent(event: Event) returns (ghost hit: Option<nat>)
      requires componentManager.Valid() && sys.Valid()
      modifies Notes(), GameStates()
      ensures hit == if LaneOfEvent(event).Some? then old(Target(LaneOfEvent(event).value)) else None
      ensures forall e :: e in old(Views()) ==>
        ViewOf(e) == Some(if Some(e) == hit then Struck(old(Views())[e]) else old(Views())[e])
      ensures GameStateOf().Some? ==> GameStateOf().value.score == old(GameStateOf().value.score) + (if hit.Some? then 1.0 else 0.0)
      ensures GameStateOf().Some? ==> GameStateOf().value.OthersUnchanged()
    {
      hit := None;
      var lane := LaneOfEvent(event);
      if lane.Some? {
        hit := HandleLaneInput(lane.value);
      }
    }

    /** The matched entities whose note is out of play. */
    ghost function Inactive(): set<nat>
      reads sys, componentManager, AllNotes()
    {
      set e | e in sys.entities && componentManager.RhythmNoteOf(e).Some? && !componentManager.RhythmNoteOf(e).value.isActive
    }

    /**
     * `update`: the entities whose note is out of play leave the matched
     * set, the others stay in their order; no component changes.
     */
    method Update()
      requires componentManager.Valid() && sys.Valid()
      modifies sys
      ensures sys.Valid() && sys.entities == Kept(old(sys.entities), old(Inactive()))
      ensures sys.requiredComponents == old(sys.requiredComponents) && sys.optionalComponents == old(sys.optionalComponents)
    {
      var es := sys.entities;
      ghost var gone := Inactive();
      for i := 0 to |es|
        invariant sys.Valid() && sys.entities == Kept(es[..i], gone) + es[i..]
        invariant sys.requiredComponents == old(sys.requiredComponents) && sys.optionalComponents == old(sys.optionalComponents)
      {
        assert es[..i + 1][..i] == es[..i];
        var e := es[i];
        var note := componentManager.RhythmNoteOf(e);
        assert note.Some? && !note.value.isActive <==> e in gone by {
          assert note == old(componentManager.RhythmNoteOf(e));
          assert note.Some? ==> note.value.isActive == old(note.value.isActive);
        }
        SweepOne(es, i, gone, note);
      }
      assert es[..|es|] == es;
    }

    /** One turn of `update`'s loop: entity `es[i]` leaves the matched set exactly when its note is out of play. */
    method SweepOne(es: seq<nat>, i: nat, ghost gone: set<nat>, note: Option<RhythmNoteComponent>)
      requires sys.Valid() && NoDups(es) && i < |es|
      requires sys.entities == Kept(es[..i], gone) + es[i..]
      requires note.Some? && !note.value.isActive <==> es[i] in gone
      modifies sys
      ensures sys.Valid() && sys.entities == Kept(es[..i + 1], gone) + es[i + 1..]
      ensures sys.requiredComponents == old(sys.requiredComponents) && sys.optionalComponents == old(sys.optionalComponents)
    {
      if note.Some? && !note.value.isActive {
        KeptDrop(es, i, gone);
        sys.RemoveEntity(es[i]);
      } else {
        KeptKeep(es, i, gone);
      }
    }
  }

  /** Walking past an element that stays. */
  lemma KeptKeep(es: seq<nat>, i: nat, gone: set<nat>)
    requires i < |es| && es[i] !in gone
    ensures Kept(es[..i], gone) + es[i..] == Kept(es[..i + 1], gone) + es[i + 1..]
  {
    assert es[..i + 1][..i] == es[..i];
    assert es[i..] == [es[i]] + es[i + 1..];
  }

  /** Removing, at its turn, an element that goes: it is the first of its kind in what is left. */
  lemma KeptDrop(es: seq<nat>, i: nat, gone: set<nat>)
    requires NoDups(es) && i < |es| && es[i] in gone
    ensures RemoveFirst(Kept(es[..i], gone) + es[i..], es[i]) == Kept(es[..i + 1], gone) + es[i + 1..]
  {
    var front := Kept(es[..i], gone);
    var s := front + es[i..];
    assert es[..i + 1][..i] == es[..i];
    assert es[i] !in front by {
      assert es[i] !in es[..i];
    }
    assert s[..|front|] == front;
    IndexOfFirst(s, es[i], |front|);
    assert RemoveFirst(s, es[i]) == s[..|front|] + s[|front| + 1..];
    assert s[|front| + 1..] == es[i + 1..];
    assert Kept(es[..i + 1], gone) == front;
  }

  /** The first position of `x` is `k` when `x` sits at `k` and not before. */
  lemma IndexOfFirst(s: seq<nat>, x: nat, k: nat)
    requires k < |s| && s[k] == x && x !in s[..k]
    ensures IndexOf(s, x) == k
  {
  }
}
