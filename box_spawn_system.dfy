/**
 * The platformer's box spawner
 * (src/game/physicsGame/systems/BoxSpawnSystem.ts): when the game state
 * counts no box remaining, it creates five collectible boxes in one frame,
 * each a new entity with a transform, a 50 by 50 physics body dropped at a
 * random x above the top edge, and the collectible tag, adds their bodies to
 * the physics world and sets the count back to five.
 *
 * `Math.random()` is a parameter: the five draws, one per box. The spawner
 * creates entities and adds components without notifying the scheduler;
 * the system itself requires no component.
 */
module BoxSpawnSystems {
  import opened Wrappers
  import opened Vector2
  import opened Matter
  import opened Components
  import opened ComponentStore
  import opened Entities
  import opened EntityManagement
  import opened Systems
  import opened Transforms
  import opened PhysicsBodies
  import opened PhysicsGameState
  import opened PhysicsSystems

  /** Boxes made per wave. */
  const BoxCount: nat := 5
  /** Width and height of a box. */
  const BoxSize: real := 50.0
  /** The height boxes are dropped from, above the top edge. */
  const DropY: real := -50.0

  /** `Math.random() * gameWidth`: where a box drops for the draw `r`. */
  function DropX(r: real, width: real): real {
    r * width
  }

  /** A draw in [0, 1) drops the box inside the game's width; a draw of 0 at its left edge. */
  lemma DropXInside(r: real, width: real)
    requires 0.0 <= r < 1.0 && 0.0 < width
    ensures 0.0 <= DropX(r, width) < width
  {
    assert width - DropX(r, width) == (1.0 - r) * width;
  }

  /** A spawned box: its entity, its transform and its physics body component. */
  datatype Box = Box(entity: nat, handle: Entity, transform: Transform, physics: PhysicsBodyComponent)

  /**
   * A fresh box of the wave, dropped at `x`: its entity is active, its
   * transform stands at (x, DropY) with no rotation and unit scale, and its
   * body is a resting, solid 50 by 50 rectangle centred there, not on the
   * ground.
   */
  predicate NewBox(b: Box, x: real)
    reads b.handle, b.transform, b.physics, b.physics.body
  {
    var body := b.physics.body;
    b.handle.id == b.entity && b.handle.active
    && b.transform.entity == b.entity && b.physics.entity == b.entity
    && b.transform.position == Vec2(x, DropY) && b.transform.rotation == 0.0 && b.transform.scale == One
    && !b.physics.isGrounded
    && body.position == Vec2(x, DropY) && body.velocity == Zero && body.angle == 0.0
    && !body.isSensor && body.force == Zero
    && body.bounds == Bounds(Vec2(x - BoxSize / 2.0, DropY - BoxSize / 2.0), Vec2(x + BoxSize / 2.0, DropY + BoxSize / 2.0))
  }

  /** Each box is fresh from the wave, dropped at the matching position. */
  predicate AllNew(boxes: seq<Box>, xs: seq<real>)
    reads set k | 0 <= k < |boxes| :: boxes[k].handle
    reads set k | 0 <= k < |boxes| :: boxes[k].transform
    reads set k | 0 <= k < |boxes| :: boxes[k].physics
    reads set k | 0 <= k < |boxes| :: boxes[k].physics.body
  {
    |boxes| == |xs| && forall k :: 0 <= k < |boxes| ==> NewBox(boxes[k], xs[k])
  }

  /** One more fresh box extends the wave. */
  lemma AllNewStep(boxes: seq<Box>, xs: seq<real>, b: Box, x: real)
    requires AllNew(boxes, xs) && NewBox(b, x)
    ensures AllNew(boxes + [b], xs + [x])
  {
    assert forall k :: 0 <= k < |boxes| ==> (boxes + [b])[k] == boxes[k] && (xs + [x])[k] == xs[k];
  }

  /** An entity's components once a box's transform, physics body and collectible tag are added. */
  function WithBox(m: map<ComponentType, Component>, b: Box): map<ComponentType, Component> {
    m[TransformKey := TransformC(b.transform)][PhysicsBodyKey := PhysicsBodyC(b.physics)][CollectibleKey := CollectibleC(b.entity)]
  }

  /** The store after the boxes are added one after another. */
  function Installed(components: map<nat, map<ComponentType, Component>>, boxes: seq<Box>): map<nat, map<ComponentType, Component>> {
    if boxes == [] then components
    else
      var init := Installed(components, boxes[..|boxes| - 1]);
      var b := boxes[|boxes| - 1];
      init[b.entity := WithBox(Held(init, b.entity), b)]
  }

  /** The hook log after the boxes' components are added: three `onAdd` calls per box, in the order they are added. */
  function AddedHooks(hooks: seq<Hook>, boxes: seq<Box>): seq<Hook> {
    if boxes == [] then hooks
    else
      var b := boxes[|boxes| - 1];
      AddedHooks(hooks, boxes[..|boxes| - 1]) + [OnAdd(TransformC(b.transform)), OnAdd(PhysicsBodyC(b.physics)), OnAdd(CollectibleC(b.entity))]
  }

  /** The world after the boxes' bodies are added, in spawn order. */
  function WithBodies(world: seq<Body>, boxes: seq<Box>): seq<Body> {
    if boxes == [] then world else WithBodies(world, boxes[..|boxes| - 1]) + [boxes[|boxes| - 1].physics.body]
  }

  /** The registry after the boxes' entities are created. */
  function Registered(entities: map<nat, Entity>, boxes: seq<Box>): map<nat, Entity> {
    if boxes == [] then entities
    else
      var b := boxes[|boxes| - 1];
      Registered(entities, boxes[..|boxes| - 1])[b.entity := b.handle]
  }

  /**
   * What a wave touches, as values: the registry and its id counter, the
   * store and its hook log, the world, and the physics system's player
   * bodies.
   */
  datatype Scene = Scene(
    entities: map<nat, Entity>, nextId: nat,
    components: map<nat, map<ComponentType, Component>>, hooks: seq<Hook>,
    world: seq<Body>, steps: seq<real>, gravity: Vec2, playerBodies: set<Body>)

  /** One box added to the scene. */
  function AfterBox(s: Scene, b: Box): Scene {
    s.(entities := s.entities[b.entity := b.handle], nextId := s.nextId + 1,
       components := s.components[b.entity := WithBox(Held(s.components, b.entity), b)],
       hooks := s.hooks + [OnAdd(TransformC(b.transform)), OnAdd(PhysicsBodyC(b.physics)), OnAdd(CollectibleC(b.entity))],
       world := s.world + [b.physics.body])
  }

  /** The boxes added to the scene one after another. */
  function AfterWave(s: Scene, boxes: seq<Box>): Scene {
    s.(entities := Registered(s.entities, boxes), nextId := s.nextId + |boxes|,
       components := Installed(s.components, boxes), hooks := AddedHooks(s.hooks, boxes),
       world := WithBodies(s.world, boxes))
  }

  /** A wave grows one box at a time. */
  lemma WaveStep(s: Scene, boxes: seq<Box>, b: Box)
    ensures AfterWave(s, boxes + [b]) == AfterBox(AfterWave(s, boxes), b)
  {
    assert (boxes + [b])[..|boxes|] == boxes;
  }

  /** No two boxes share an entity. */
  predicate Distinct(boxes: seq<Box>) {
    forall j, k :: 0 <= j < k < |boxes| ==> boxes[j].entity != boxes[k].entity
  }

  /**
   * What adding the boxes does to the store: every box entity holds its own
   * transform, physics body and tag on top of what it held before, and every
   * other entity holds what it held.
   */
  lemma {:induction false} InstalledMeaning(components: map<nat, map<ComponentType, Component>>, boxes: seq<Box>, e: nat)
    requires Distinct(boxes)
    ensures (forall k :: 0 <= k < |boxes| ==> boxes[k].entity != e) ==>
      (e in Installed(components, boxes) <==> e in components)
      && (e in components ==> Installed(components, boxes)[e] == components[e])
    ensures forall k :: 0 <= k < |boxes| && boxes[k].entity == e ==>
      e in Installed(components, boxes)
      && Installed(components, boxes)[e] == WithBox(Held(components, e), boxes[k])
  {
    if boxes != [] {
      var init := boxes[..|boxes| - 1];
      assert forall k :: 0 <= k < |init| ==> init[k] == boxes[k];
      InstalledMeaning(components, init, e);
    }
  }

  /** The registry gains exactly the boxes' entities, each under its own id, and keeps every other entry. */
  lemma {:induction false} RegisteredMeaning(entities: map<nat, Entity>, boxes: seq<Box>, e: nat)
    requires Distinct(boxes)
    ensures (forall k :: 0 <= k < |boxes| ==> boxes[k].entity != e) ==>
      (e in Registered(entities, boxes) <==> e in entities)
      && (e in entities ==> Registered(entities, boxes)[e] == entities[e])
    ensures forall k :: 0 <= k < |boxes| && boxes[k].entity == e ==>
      e in Registered(entities, boxes) && Registered(entities, boxes)[e] == boxes[k].handle
  {
    if boxes != [] {
      var init := boxes[..|boxes| - 1];
      assert forall k :: 0 <= k < |init| ==> init[k] == boxes[k];
      RegisteredMeaning(entities, init, e);
    }
  }

  /** The world gains the boxes' bodies at its end, in spawn order, and keeps what it held in front. */
  lemma {:induction false} WithBodiesMeaning(world: seq<Body>, boxes: seq<Box>)
    ensures |WithBodies(world, boxes)| == |world| + |boxes|
    ensures WithBodies(world, boxes)[..|world|] == world
    ensures forall k :: 0 <= k < |boxes| ==> WithBodies(world, boxes)[|world| + k] == boxes[k].physics.body
  {
    if boxes != [] {
      var init := boxes[..|boxes| - 1];
      WithBodiesMeaning(world, init);
      assert forall k :: 0 <= k < |init| ==> init[k] == boxes[k];
    }
  }

  /** Adding boxes leaves every entry of a type other than a box's three as it was. */
  lemma {:induction false} InstalledKeeps(components: map<nat, map<ComponentType, Component>>, boxes: seq<Box>, e: nat, t: ComponentType)
    requires t != TransformKey && t != PhysicsBodyKey && t != CollectibleKey
    ensures e in Installed(components, boxes) && t in Installed(components, boxes)[e] <==> e in components && t in components[e]
    ensures e in components && t in components[e] ==> Installed(components, boxes)[e][t] == components[e][t]
  {
    if boxes != [] {
      InstalledKeeps(components, boxes[..|boxes| - 1], e, t);
    }
  }

  /** Every box of a wave holds the types the physics and collectible systems require. */
  lemma BoxesMatched(components: map<nat, map<ComponentType, Component>>, boxes: seq<Box>, k: nat)
    requires Distinct(boxes) && k < |boxes|
    ensures HasAll(Installed(components, boxes), boxes[k].entity, [TransformKey, PhysicsBodyKey])
    ensures HasAll(Installed(components, boxes), boxes[k].entity, [TransformKey, PhysicsBodyKey, CollectibleKey])
  {
    InstalledMeaning(components, boxes, boxes[k].entity);
  }

  /** The objects of one box: `Bodies.rectangle`, the transform and the physics body component. */
  method MakeBox(handle: Entity, x: real) returns (b: Box)
    requires handle.active
    ensures b.entity == handle.id && b.handle == handle && NewBox(b, x)
    ensures fresh(b.transform) && fresh(b.physics) && fresh(b.physics.body)
  {
    var body := new Body.Rectangle(x, DropY, BoxSize, BoxSize);
    var position := new Vector(x, DropY);
    var transform := new Transform(handle.id, Some(position));
    var physicsBody := new PhysicsBodyComponent(handle.id, body);
    b := Box(handle.id, handle, transform, physicsBody);
  }

  class BoxSpawnSystem {
    const sys: System
    const componentManager: ComponentManager
    const physicsSystem: PhysicsSystem
    const entityManager: EntityManager
    var gameStateEntity: Option<nat>

    /** The spawner requires no component, and shares the registry's store. */
    constructor(physicsSystem: PhysicsSystem, entityManager: EntityManager)
      ensures fresh(sys) && sys.Valid() && sys.name == "BoxSpawnSystem" && sys.entities == []
      ensures sys.requiredComponents == [] && sys.optionalComponents == []
      ensures this.physicsSystem == physicsSystem && this.entityManager == entityManager
      ensures componentManager == entityManager.componentManager && gameStateEntity == None
    {
      sys := new System("BoxSpawnSystem");
      this.physicsSystem := physicsSystem;
      this.entityManager := entityManager;
      componentManager := entityManager.componentManager;
      gameStateEntity := None;
    }

    /** `setGameStateEntity` */
    method SetGameStateEntity(entity: nat)
      modifies this
      ensures gameStateEntity == Some(entity)
    {
      gameStateEntity := Some(entity);
    }

    function GameStateOf(): Option<PhysicsGameStateComponent>
      reads this`gameStateEntity, componentManager
    {
      if gameStateEntity.Some? then componentManager.PhysicsGameStateOf(gameStateEntity.value) else None
    }

    ghost function GameStates(): set<PhysicsGameStateComponent>
      reads this`gameStateEntity, componentManager
    {
      if GameStateOf().Some? then {GameStateOf().value} else {}
    }

    /** A wave is due: the game state is set and found, and it counts no box remaining. */
    predicate Due()
      reads this`gameStateEntity, componentManager, GameStates()
    {
      GameStateOf().Some? && GameStateOf().value.boxesRemaining == 0
    }

    /** The registry, store, world and player bodies the spawner touches, as values. */
    function Snapshot(): Scene
      reads entityManager, entityManager.ids, componentManager, physicsSystem, physicsSystem.engine
    {
      Scene(entityManager.entities, entityManager.ids.nextId,
            componentManager.components, componentManager.hooks,
            physicsSystem.engine.world, physicsSystem.engine.steps, physicsSystem.engine.gravity, physicsSystem.playerBodies)
    }

    /**
     * `update`: when no wave is due, nothing changes. Otherwise five new
     * entities get consecutive ids, each a box dropped at its draw's share
     * of the game width, and the scene gains them one after another; the
     * count is five, so a second call spawns nothing.
     */
    method Update(deltaTime: real, draws: seq<real>) returns (ghost boxes: seq<Box>)
      requires |draws| == BoxCount
      requires entityManager.Valid() && componentManager == entityManager.componentManager
      modifies entityManager, entityManager.ids, componentManager, physicsSystem, physicsSystem.engine, GameStates()
      ensures entityManager.Valid() && GameStateOf() == old(GameStateOf())
      ensures !old(Due()) ==> boxes == [] && unchanged(entityManager, entityManager.ids, componentManager)
      ensures !old(Due()) ==> unchanged(physicsSystem, physicsSystem.engine) && unchanged(GameStates())
      ensures old(Due()) ==> |boxes| == BoxCount && Distinct(boxes) && !Due()
      ensures old(Due()) ==> Snapshot() == AfterWave(old(Snapshot()), boxes)
      ensures old(Due()) ==> forall k :: 0 <= k < BoxCount ==>
        boxes[k].entity == old(entityManager.ids.nextId) + k
        && NewBox(boxes[k], DropX(draws[k], old(GameStateOf().value.gameWidth)))
      ensures old(Due()) ==> var gs := GameStateOf().value;
        gs.boxesRemaining == BoxCount && gs.score == old(gs.score) && gs.playerJumps == old(gs.playerJumps)
        && gs.isGameRunning == old(gs.isGameRunning) && gs.gameWidth == old(gs.gameWidth)
        && gs.gameHeight == old(gs.gameHeight) && gs.groundHeight == old(gs.groundHeight)
    {
      boxes := [];
      if gameStateEntity.None? {
        return;
      }
      var gameState := componentManager.PhysicsGameStateOf(gameStateEntity.value);
      if gameState.None? {
        return;
      }
      if gameState.value.boxesRemaining == 0 {
        boxes := Wave(draws);
      }
    }

    /** A due wave: the five boxes, then the count set back to five. */
    method Wave(draws: seq<real>) returns (ghost boxes: seq<Box>)
      requires |draws| == BoxCount && Due()
      requires entityManager.Valid() && componentManager == entityManager.componentManager
      modifies entityManager, entityManager.ids, componentManager, physicsSystem, physicsSystem.engine, GameStates()
      ensures entityManager.Valid() && GameStateOf() == old(GameStateOf())
      ensures |boxes| == BoxCount && Distinct(boxes) && !Due()
      ensures Snapshot() == AfterWave(old(Snapshot()), boxes)
      ensures forall k :: 0 <= k < BoxCount ==>
        boxes[k].entity == old(entityManager.ids.nextId) + k
        && NewBox(boxes[k], DropX(draws[k], old(GameStateOf().value.gameWidth)))
      ensures var gs := GameStateOf().value;
        gs.boxesRemaining == BoxCount && gs.score == old(gs.score) && gs.playerJumps == old(gs.playerJumps)
        && gs.isGameRunning == old(gs.isGameRunning) && gs.gameWidth == old(gs.gameWidth)
        && gs.gameHeight == old(gs.gameHeight) && gs.groundHeight == old(gs.groundHeight)
    {
      var gs := GameStateOf().value;
      boxes := Spawn(gs.gameWidth, draws);
      InstalledKeeps(old(componentManager.components), boxes, gameStateEntity.value, PhysicsGameStateKey);
      gs.boxesRemaining := BoxCount;
    }

    /** The five boxes of a wave, made one after another. */
    method Spawn(width: real, draws: seq<real>) returns (ghost boxes: seq<Box>)
      requires |draws| == BoxCount
      requires entityManager.Valid() && componentManager == entityManager.componentManager
      modifies entityManager, entityManager.ids, componentManager, physicsSystem, physicsSystem.engine
      ensures entityManager.Valid() && |boxes| == BoxCount && Distinct(boxes)
      ensures Snapshot() == AfterWave(old(Snapshot()), boxes)
      ensures forall k :: 0 <= k < BoxCount ==>
        boxes[k].entity == old(entityManager.ids.nextId) + k && NewBox(boxes[k], DropX(draws[k], width))
    {
      ghost var s0 := Snapshot();
      var n0 := entityManager.ids.nextId;
      boxes := [];
      ghost var xs: seq<real> := [];
      var i := 0;
      while i < BoxCount
        invariant 0 <= i <= BoxCount && |boxes| == i && |xs| == i
        invariant entityManager.Valid()
        invariant forall k :: 0 <= k < i ==> boxes[k].entity == n0 + k && xs[k] == DropX(draws[k], width)
        invariant AllNew(boxes, xs)
        invariant Snapshot() == AfterWave(s0, boxes)
      {
        var x := DropX(draws[i], width);
        var b := SpawnBox(x, boxes, xs);
        WaveStep(s0, boxes, b);
        AllNewStep(boxes, xs, b, x);
        boxes := boxes + [b];
        xs := xs + [x];
        i := i + 1;
      }
    }

    /**
     * One box: a new entity, its three components added to the store, its
     * body added to the world; the boxes made before it stay as they were.
     */
    method SpawnBox(x: real, ghost made: seq<Box>, ghost xs: seq<real>) returns (b: Box)
      requires entityManager.Valid() && componentManager == entityManager.componentManager
      requires AllNew(made, xs)
      modifies entityManager, entityManager.ids, componentManager, physicsSystem, physicsSystem.engine
      ensures entityManager.Valid() && NewBox(b, x) && AllNew(made, xs)
      ensures b.entity == old(entityManager.ids.nextId)
      ensures Snapshot() == AfterBox(old(Snapshot()), b)
    {
      var boxEntity := entityManager.CreateEntity();
      b := MakeBox(boxEntity, x);
      Attach(b);
      physicsSystem.AddBody(b.physics.body);
    }

    /** The three `addComponent` calls for one box: transform, physics body, then the collectible tag. */
    method Attach(b: Box)
      requires componentManager.Valid() && b.transform.entity == b.entity && b.physics.entity == b.entity
      modifies componentManager
      ensures componentManager.Valid()
      ensures componentManager.components == old(componentManager.components)[b.entity := WithBox(Held(old(componentManager.components), b.entity), b)]
      ensures componentManager.hooks == old(componentManager.hooks) + [OnAdd(TransformC(b.transform)), OnAdd(PhysicsBodyC(b.physics)), OnAdd(CollectibleC(b.entity))]
    {
      var _ := componentManager.AddComponent(b.entity, TransformC(b.transform));
      var _ := componentManager.AddComponent(b.entity, PhysicsBodyC(b.physics));
      var _ := componentManager.AddComponent(b.entity, CollectibleC(b.entity));
    }
  }
}
