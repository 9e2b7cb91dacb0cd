/**
 * The rhythm game's note spawner
 * (src/game/rhythm/systems/RhythmSpawnSystem.ts). While the game runs it
 * adds each frame's length, in milliseconds, to the spawn timer; once the
 * timer reaches the spawn interval it creates one note in a random lane,
 * centred in the lane just above the screen, tells the scheduler about it
 * and starts the timer again from 0.
 *
 * `Math.random()` and `Date.now()` are parameters: `draw` in [0, 1) and
 * `now`, a count of milliseconds. The system requires no component.
 */
module RhythmSpawnSystems {
  import opened Wrappers
  import opened Vector2
  import opened Strings
  import opened Components
  import opened ComponentStore
  import opened Entities
  import opened EntityManagement
  import opened Systems
  import opened SystemScheduling
  import opened Transforms
  import opened RhythmGameState
  import opened RhythmNotes

  /** Half the size of a new note, which is 50. */
  const HalfNoteSize: real := 25.0
  /** New notes start just above the screen. */
  const SpawnY: real := -50.0

  /** The lane of a random draw: `Math.floor(draw * 5)`. */
  function RandomLane(draw: real): (lane: int)
    requires 0.0 <= draw < 1.0
    ensures 0 <= lane < LaneCount
    ensures lane as real <= draw * 5.0 < lane as real + 1.0
  {
    (draw * 5.0).Floor
  }

  /** Every lane can be drawn: a fifth of the range of draws leads to each. */
  lemma EveryLaneDrawn(lane: int, draw: real)
    requires 0 <= lane < LaneCount
    requires lane as real / 5.0 <= draw < (lane + 1) as real / 5.0
    ensures RandomLane(draw) == lane
  {
  }

  /** The name of a new note: `Note_Lane<lane>_<now>`. */
  function NoteName(lane: nat, now: nat): string {
    "Note_Lane" + NatToString(lane) + "_" + NatToString(now)
  }

  /** A note's name shows its lane in its tenth character, so notes of different lanes never share a name. */
  lemma NoteNameShowsLane(lane: nat, now: nat)
    requires lane < 10
    ensures |NoteName(lane, now)| > 11 && NoteName(lane, now)[..9] == "Note_Lane"
    ensures NoteName(lane, now)[9] == DigitChar(lane) && NoteName(lane, now)[10] == '_'
    ensures NoteName(lane, now)[11..] == NatToString(now)
  {
    assert NatToString(lane) == [DigitChar(lane)];
    var name := NoteName(lane, now);
    assert name == "Note_Lane" + [DigitChar(lane)] + "_" + NatToString(now);
  }

  /** The left edge of a new note: half a note left of its lane's centre. */
  function StartX(laneWidth: real, lane: int): real {
    LaneCenter(laneWidth, lane) - HalfNoteSize
  }

  /** A new note is centred in its lane and, when lanes are at least a note wide, lies inside it. */
  lemma NoteFitsLane(laneWidth: real, lane: int)
    ensures StartX(laneWidth, lane) + HalfNoteSize == LaneCenter(laneWidth, lane)
    ensures laneWidth >= 2.0 * HalfNoteSize ==>
      LaneX(laneWidth, lane) <= StartX(laneWidth, lane) && StartX(laneWidth, lane) + 2.0 * HalfNoteSize <= LaneX(laneWidth, lane + 1)
  {
    assert LaneX(laneWidth, lane + 1) == LaneX(laneWidth, lane) + laneWidth by {
      assert (lane + 1) as real * laneWidth == lane as real * laneWidth + laneWidth;
    }
  }

  /** The timer after a frame of `deltaTime` seconds, before any spawn. */
  function Advanced(timer: real, deltaTime: real): real {
    timer + deltaTime * 1000.0
  }

  /** Whether a frame spawns a note: the advanced timer has reached the interval. */
  predicate SpawnDue(timer: real, deltaTime: real, interval: real) {
    Advanced(timer, deltaTime) >= interval
  }

  /** The timer after a frame: back to 0 when the frame spawned, else advanced. */
  function NextTimer(timer: real, deltaTime: real, interval: real): real {
    if SpawnDue(timer, deltaTime, interval) then 0.0 else Advanced(timer, deltaTime)
  }

  /** After every frame the timer is below a positive interval, and it never goes negative while frames do not. */
  lemma TimerStaysBelowInterval(timer: real, deltaTime: real, interval: real)
    requires interval > 0.0
    ensures NextTimer(timer, deltaTime, interval) < interval
    ensures timer >= 0.0 && deltaTime >= 0.0 ==> NextTimer(timer, deltaTime, interval) >= 0.0
  {
  }

  /** `k` frames of the same length: the timer, the notes spawned, and the timer values the spawns cleared. */
  datatype Tally = Tally(timer: real, spawned: nat, cleared: real)

  function Frames(timer: real, deltaTime: real, interval: real, k: nat): Tally {
    if k == 0 then Tally(timer, 0, 0.0)
    else
      var t := Frames(timer, deltaTime, interval, k - 1);
      if SpawnDue(t.timer, deltaTime, interval)
      then Tally(0.0, t.spawned + 1, t.cleared + Advanced(t.timer, deltaTime))
      else Tally(Advanced(t.timer, deltaTime), t.spawned, t.cleared)
  }

  /**
   * No time is lost or made up: the timer plus what the spawns cleared is
   * the starting timer plus the time of the frames.
   */
  lemma {:induction false} FramesKeepTime(timer: real, deltaTime: real, interval: real, k: nat)
    ensures Frames(timer, deltaTime, interval, k).timer + Frames(timer, deltaTime, interval, k).cleared
      == timer + k as real * (deltaTime * 1000.0)
  {
    if k > 0 {
      FramesKeepTime(timer, deltaTime, interval, k - 1);
      assert (k - 1) as real * (deltaTime * 1000.0) + deltaTime * 1000.0 == k as real * (deltaTime * 1000.0);
    }
  }

  /** Each spawn cleared at least one interval. */
  lemma {:induction false} FramesClearIntervals(timer: real, deltaTime: real, interval: real, k: nat)
    ensures Frames(timer, deltaTime, interval, k).cleared >= Frames(timer, deltaTime, interval, k).spawned as real * interval
  {
    if k > 0 {
      FramesClearIntervals(timer, deltaTime, interval, k - 1);
      var t := Frames(timer, deltaTime, interval, k - 1);
      assert (t.spawned + 1) as real * interval == t.spawned as real * interval + interval;
    }
  }

  /**
   * The spawn rate: over `k` frames from a timer at 0 or more, with frames
   * of non-negative length, at most one note is spawned per interval of
   * elapsed time.
   */
  lemma {:induction false} AtMostOneNotePerInterval(timer: real, deltaTime: real, interval: real, k: nat)
    requires timer >= 0.0 && deltaTime >= 0.0
    ensures Frames(timer, deltaTime, interval, k).spawned as real * interval <= timer + k as real * (deltaTime * 1000.0)
  {
    FramesKeepTime(timer, deltaTime, interval, k);
    FramesClearIntervals(timer, deltaTime, interval, k);
    FramesTimerNonNegative(timer, deltaTime, interval, k);
  }

  /** The timer never goes negative from a start at 0 or more. */
  lemma {:induction false} FramesTimerNonNegative(timer: real, deltaTime: real, interval: real, k: nat)
    requires timer >= 0.0 && deltaTime >= 0.0
    ensures Frames(timer, deltaTime, interval, k).timer >= 0.0
  {
    if k > 0 {
      FramesTimerNonNegative(timer, deltaTime, interval, k - 1);
    }
  }

  /** The objects a spawn makes: the note's entity, its transform and its note component. */
  datatype SpawnedNote = SpawnedNote(entity: Entity, transform: Transform, note: RhythmNoteComponent)

  /** A note entity as `spawnRandomNote` makes it for `lane` at time `now`, in lanes `laneWidth` wide. */
  ghost predicate NewNote(n: SpawnedNote, lane: int, now: nat, laneWidth: real)
    reads n.entity, n.transform, n.note
  {
    var id := n.entity.id;
    0 <= lane < LaneCount
    && n.entity.active && n.entity.name == NoteName(lane, now)
    && n.transform.entity == id && n.transform.position == Vec2(StartX(laneWidth, lane), SpawnY)
    && n.transform.rotation == 0.0 && n.transform.scale == One
    && n.note.entity == id && n.note.lane == lane && n.note.color == DefaultColorForLane(lane)
    && n.note.speed == 2.0 * HalfNoteSize && n.note.size == 2.0 * HalfNoteSize && !n.note.isHit && n.note.isActive
  }

  /** The registry (by id and by name) and the store, as one value. */
  datatype Stage = Stage(entities: map<nat, Entity>, byName: map<string, Entity>, nextId: nat,
    components: map<nat, map<ComponentType, Component>>, hooks: seq<Hook>)

  /**
   * The registry and the store once the note is registered under its id and
   * under `name` and its two components are stored, transform first.
   */
  function AfterNote(st: Stage, n: SpawnedNote, name: string): Stage {
    var id := st.nextId;
    st.(entities := st.entities[id := n.entity], byName := st.byName[name := n.entity], nextId := id + 1,
        components := st.components[id := Held(st.components, id)[TransformKey := TransformC(n.transform)][RhythmNoteComponentKey := RhythmNoteComponentC(n.note)]],
        hooks := st.hooks + [OnAdd(TransformC(n.transform)), OnAdd(RhythmNoteComponentC(n.note))])
  }

  /** The transform and the note component of a new note entity: the middle of `spawnRandomNote`. */
  method MakeNote(noteEntity: Entity, lane: int, now: nat, startX: real, ghost laneWidth: real) returns (n: SpawnedNote)
    requires 0 <= lane < LaneCount && noteEntity.active && noteEntity.name == NoteName(lane, now)
    requires startX == StartX(laneWidth, lane)
    ensures n.entity == noteEntity && fresh(n.transform) && fresh(n.note) && NewNote(n, lane, now, laneWidth)
  {
    var start := new Vector(startX, SpawnY);
    var transform := new Transform(noteEntity.id, Some(start));
    var note := new RhythmNoteComponent(noteEntity.id, lane);
    n := SpawnedNote(noteEntity, transform, note);
  }

  class RhythmSpawnSystem {
    const sys: System
    const componentManager: ComponentManager
    const entityManager: EntityManager
    const systemManager: SystemManager
    var gameStateEntity: Option<nat>

    /**
     * The system requires nothing and has no game state yet. The source
     * takes the store, the registry and the scheduler from their
     * singletons, so they share one store.
     */
    constructor(entityManager: EntityManager, systemManager: SystemManager)
      requires systemManager.componentManager == entityManager.componentManager
      ensures fresh(sys) && sys.Valid() && sys.name == "RhythmSpawnSystem" && sys.entities == []
      ensures sys.requiredComponents == [] && sys.optionalComponents == []
      ensures this.entityManager == entityManager && this.systemManager == systemManager
      ensures componentManager == entityManager.componentManager && gameStateEntity == None
    {
      sys := new System("RhythmSpawnSystem");
      componentManager := entityManager.componentManager;
      this.entityManager := entityManager;
      this.systemManager := systemManager;
      gameStateEntity := None;
    }

    /** `setGameStateEntity` */
    method SetGameStateEntity(entity: nat)
      modifies this
      ensures gameStateEntity == Some(entity)
    {
      gameStateEntity := Some(entity);
    }

    /** The game state, when its entity is set and holds one. */
    function GameStateOf(): Option<RhythmGameStateComponent>
      reads this`gameStateEntity, componentManager
    {
      if gameStateEntity.None? then None else componentManager.RhythmGameStateComponentOf(gameStateEntity.value)
    }

    ghost function GameStates(): set<RhythmGameStateComponent>
      reads this`gameStateEntity, componentManager
    {
      if GameStateOf().Some? then {GameStateOf().value} else {}
    }

    /** Whether `update` does anything: there is a game state and the game runs. */
    predicate Running()
      reads this`gameStateEntity, componentManager, GameStates()
    {
      GameStateOf().Some? && GameStateOf().value.isGameRunning
    }

    ghost predicate Wired()
      reads this, entityManager, entityManager.ids, componentManager, systemManager, systemManager.systems
    {
      componentManager == entityManager.componentManager && systemManager.componentManager == componentManager
      && entityManager.Valid() && systemManager.Valid()
    }

    /** The registry and the store now. */
    ghost function Snapshot(): Stage
      reads entityManager, entityManager.ids, componentManager
    {
      Stage(entityManager.entities, entityManager.entitiesByName, entityManager.ids.nextId, componentManager.components, componentManager.hooks)
    }

    /**
     * What a spawn in `lane` at time `now` did: a new entity with the next
     * id, named after the lane and the time, with a new transform at the
     * lane's start and a new note of that lane; every system told of the
     * entity.
     */
    twostate predicate SpawnedAs(new n: SpawnedNote, lane: int, now: nat, laneWidth: real)
      reads this, entityManager, entityManager.ids, componentManager, systemManager, systemManager.systems
      reads systemManager.componentManager, n.entity, n.transform, n.note
    {
      var id := old(entityManager.ids.nextId);
      fresh(n.entity) && fresh(n.transform) && fresh(n.note)
      && n.entity.id == id && NewNote(n, lane, now, laneWidth)
      && Snapshot() == AfterNote(old(Snapshot()), n, NoteName(lane, now))
      && systemManager.systems == old(systemManager.systems)
      && forall s :: s in systemManager.systems ==>
        s.entities == systemManager.AfterAdded(id, s.requiredComponents, old(s.entities))
        && s.requiredComponents == old(s.requiredComponents) && s.optionalComponents == old(s.optionalComponents)
    }

    /**
     * `update`: nothing without a running game. Otherwise the timer moves
     * on by the frame; once it reaches the interval, one note is spawned in
     * the lane `draw` picks and the timer goes back to 0.
     */
    method Update(deltaTime: real, draw: real, now: nat) returns (ghost spawned: Option<SpawnedNote>)
      requires Wired() && 0.0 <= draw < 1.0
      modifies entityManager, entityManager.ids, componentManager, systemManager.systems, GameStates()
      ensures Wired() && GameStateOf() == old(GameStateOf())
      ensures !old(Running()) ==> spawned.None? && unchanged(entityManager, entityManager.ids, componentManager, GameStates())
      ensures !old(Running()) ==> forall s :: s in systemManager.systems ==> unchanged(s)
      ensures old(Running()) ==> var gs := GameStateOf().value;
        gs.noteSpawnTimer == NextTimer(old(gs.noteSpawnTimer), deltaTime, old(gs.noteSpawnInterval))
        && gs.noteSpawnInterval == old(gs.noteSpawnInterval) && gs.score == old(gs.score) && gs.isGameRunning
        && gs.laneWidth == old(gs.laneWidth) && gs.hitLineY == old(gs.hitLineY)
        && gs.gameWidth == old(gs.gameWidth) && gs.gameHeight == old(gs.gameHeight)
        && (spawned.Some? <==> SpawnDue(old(gs.noteSpawnTimer), deltaTime, old(gs.noteSpawnInterval)))
        && (spawned.Some? ==> SpawnedAs(spawned.value, RandomLane(draw), now, gs.laneWidth))
        && (spawned.None? ==> unchanged(entityManager, entityManager.ids, componentManager))
        && (spawned.None? ==> forall s :: s in systemManager.systems ==> unchanged(s))
    {
      spawned := None;
      if gameStateEntity.None? {
        return;
      }
      var gameState := componentManager.RhythmGameStateComponentOf(gameStateEntity.value);
      if gameState.None? || !gameState.value.isGameRunning {
        return;
      }
      spawned := Tick(gameState.value, deltaTime, draw, now);
    }

    /** The body of `update` past its guards. */
    method Tick(gameState: RhythmGameStateComponent, deltaTime: real, draw: real, now: nat) returns (ghost spawned: Option<SpawnedNote>)
      requires Wired() && 0.0 <= draw < 1.0 && GameStateOf() == Some(gameState) && gameState.isGameRunning
      modifies entityManager, entityManager.ids, componentManager, systemManager.systems, gameState
      ensures Wired() && GameStateOf() == Some(gameState)
      ensures gameState.noteSpawnTimer == NextTimer(old(gameState.noteSpawnTimer), deltaTime, old(gameState.noteSpawnInterval))
      ensures gameState.noteSpawnInterval == old(gameState.noteSpawnInterval) && gameState.score == old(gameState.score)
      ensures gameState.isGameRunning && gameState.laneWidth == old(gameState.laneWidth) && gameState.hitLineY == old(gameState.hitLineY)
      ensures gameState.gameWidth == old(gameState.gameWidth) && gameState.gameHeight == old(gameState.gameHeight)
      ensures spawned.Some? <==> SpawnDue(old(gameState.noteSpawnTimer), deltaTime, old(gameState.noteSpawnInterval))
      ensures spawned.Some? ==> SpawnedAs(spawned.value, RandomLane(draw), now, gameState.laneWidth)
      ensures spawned.None? ==> unchanged(entityManager, entityManager.ids, componentManager)
      ensures spawned.None? ==> forall s :: s in systemManager.systems ==> unchanged(s)
    {
      spawned := None;
      gameState.noteSpawnTimer := gameState.noteSpawnTimer + deltaTime * 1000.0;
      if gameState.noteSpawnTimer >= gameState.noteSpawnInterval {
        var n := SpawnRandomNote(gameState, draw, now);
        spawned := Some(n);
        gameState.noteSpawnTimer := 0.0;
      }
    }

    /** `spawnRandomNote` */
    method SpawnRandomNote(gameState: RhythmGameStateComponent, draw: real, now: nat) returns (ghost spawned: SpawnedNote)
      requires Wired() && 0.0 <= draw < 1.0
      modifies entityManager, entityManager.ids, componentManager, systemManager.systems
      ensures Wired()
      ensures SpawnedAs(spawned, RandomLane(draw), now, gameState.laneWidth)
    {
      var randomLane := RandomLane(draw);
      var n := Register(gameState, randomLane, now);
      systemManager.NotifyEntityAdded(n.entity.id);
      spawned := n;
    }

    /** `spawnRandomNote` up to the notification: the entity and its two components. */
    method Register(gameState: RhythmGameStateComponent, lane: int, now: nat) returns (n: SpawnedNote)
      requires Wired() && 0 <= lane < LaneCount
      modifies entityManager, entityManager.ids, componentManager
      ensures Wired() && fresh(n.entity) && fresh(n.transform) && fresh(n.note)
      ensures n.entity.id == old(entityManager.ids.nextId) && NewNote(n, lane, now, gameState.laneWidth)
      ensures Snapshot() == AfterNote(old(Snapshot()), n, NoteName(lane, now))
    {
      var noteEntity := entityManager.CreateEntity(NoteName(lane, now));
      var startX := gameState.GetLaneCenter(lane) - HalfNoteSize;
      n := MakeNote(noteEntity, lane, now, startX, gameState.laneWidth);
      Attach(n);
    }

    /** The two `addComponent` calls: the transform, then the note. */
    method Attach(n: SpawnedNote)
      requires componentManager.Valid() && n.transform.entity == n.entity.id && n.note.entity == n.entity.id
      modifies componentManager
      ensures componentManager.Valid()
      ensures componentManager.components == old(componentManager.components)[n.entity.id :=
        Held(old(componentManager.components), n.entity.id)[TransformKey := TransformC(n.transform)][RhythmNoteComponentKey := RhythmNoteComponentC(n.note)]]
      ensures componentManager.hooks == old(componentManager.hooks) + [OnAdd(TransformC(n.transform)), OnAdd(RhythmNoteComponentC(n.note))]
    {
      var _ := componentManager.AddComponent(n.entity.id, TransformC(n.transform));
      var _ := componentManager.AddComponent(n.entity.id, RhythmNoteComponentC(n.note));
    }
  }
}
