/**
 * The platformer's collectible system
 * (src/game/physicsGame/systems/CollectibleSystem.ts): every frame it finds
 * the collectibles whose bounds overlap a registered player body, then makes
 * each of them a sensor, takes it out of the world, strips its physics body
 * and collectible tag and scores one point for it, and finally copies the
 * size of its matched set into the game state's count of boxes remaining.
 *
 * Stripping components does not notify the scheduler, so a collected entity
 * stays in the matched set and is still counted among the boxes remaining;
 * having lost its physics body, it is never collected again.
 */
module CollectibleSystems {
  import opened Wrappers
  import opened Seqs
  import opened Matter
  import opened Components
  import opened ComponentStore
  import opened Systems
  import opened PhysicsBodies
  import opened PhysicsGameState

  /** An entry of the removal list: a collectible entity and its body. */
  datatype Queued = Queued(entity: nat, body: Body)

  /**
   * The removal list the detection pass builds over the matched entities
   * `es`, given the body of each entity that overlaps a player: one entry
   * per such entity, in matched-set order.
   */
  function QueueOf(es: seq<nat>, hit: map<nat, Body>): (r: seq<Queued>)
    ensures |r| <= |es|
  {
    if es == [] then []
    else
      var e := es[|es| - 1];
      QueueOf(es[..|es| - 1], hit) + if e in hit then [Queued(e, hit[e])] else []
  }

  /** The entities of a removal list. */
  function Taken(qs: seq<Queued>): set<nat> {
    if qs == [] then {} else Taken(qs[..|qs| - 1]) + {qs[|qs| - 1].entity}
  }

  /** The bodies of a removal list. */
  function Swept(qs: seq<Queued>): set<Body> {
    if qs == [] then {} else Swept(qs[..|qs| - 1]) + {qs[|qs| - 1].body}
  }

  /** The world after `World.remove` of each listed body in turn. */
  function RemoveAll(world: seq<Body>, qs: seq<Queued>): (r: seq<Body>)
    ensures |r| <= |world|
  {
    if qs == [] then world else RemoveFirst(RemoveAll(world, qs[..|qs| - 1]), qs[|qs| - 1].body)
  }

  /** Entities of `es` without repeats, as a set. */
  function Members(es: seq<nat>, hit: map<nat, Body>): set<nat> {
    set e | e in es && e in hit
  }

  /**
   * The removal list holds exactly the overlapping entities of `es`, each
   * with its own body, and, when `es` has no repeats, holds each of them
   * once: its length is the number of overlapping entities.
   */
  lemma QueuedOnce(es: seq<nat>, hit: map<nat, Body>)
    ensures forall q :: q in QueueOf(es, hit) ==> q.entity in es && q.entity in hit && q.body == hit[q.entity]
    ensures forall e :: e in Taken(QueueOf(es, hit)) <==> e in es && e in hit
    ensures NoDups(es) ==> |QueueOf(es, hit)| == |Members(es, hit)|
  {
    QueueOfEntries(es, hit);
    if NoDups(es) {
      QueueOfLength(es, hit);
    }
  }

  /** Every entry of the removal list is an overlapping entity of `es` with its own body, and every such entity is listed. */
  lemma {:induction false} QueueOfEntries(es: seq<nat>, hit: map<nat, Body>)
    ensures forall q :: q in QueueOf(es, hit) ==> q.entity in es && q.entity in hit && q.body == hit[q.entity]
    ensures forall e :: e in Taken(QueueOf(es, hit)) <==> e in es && e in hit
  {
    if es != [] {
      var init := es[..|es| - 1];
      var e := es[|es| - 1];
      QueueOfEntries(init, hit);
      assert es == init + [e];
      var q := QueueOf(es, hit);
      var qi := QueueOf(init, hit);
      if e in hit {
        assert q == qi + [Queued(e, hit[e])];
        assert q[..|q| - 1] == qi;
        assert Taken(q) == Taken(qi) + {e};
      } else {
        assert q == qi;
      }
      forall x
        ensures x in Taken(q) <==> x in es && x in hit
      {
        assert x in es <==> x in init || x == e;
      }
    }
  }

  /** Without repeats in `es`, the removal list has one entry per overlapping entity. */
  lemma {:induction false} QueueOfLength(es: seq<nat>, hit: map<nat, Body>)
    requires NoDups(es)
    ensures |QueueOf(es, hit)| == |Members(es, hit)|
  {
    if es != [] {
      var init := es[..|es| - 1];
      var e := es[|es| - 1];
      assert es == init + [e];
      assert NoDups(init) by {
        forall i, j | 0 <= i < j < |init|
          ensures init[i] != init[j]
        {
          assert init[i] == es[i] && init[j] == es[j];
        }
      }
      QueueOfLength(init, hit);
      forall i | 0 <= i < |init|
        ensures init[i] != e
      {
        assert init[i] == es[i];
      }
      if e in hit {
        assert Members(es, hit) == Members(init, hit) + {e};
      } else {
        assert Members(es, hit) == Members(init, hit);
      }
    }
  }

  /** The listed bodies are the bodies of the listed entries. */
  lemma {:induction false} SweptMembers(qs: seq<Queued>)
    ensures forall b :: b in Swept(qs) <==> exists q :: q in qs && q.body == b
  {
    if qs != [] {
      var init := qs[..|qs| - 1];
      SweptMembers(init);
      assert qs == init + [qs[|qs| - 1]];
      forall b
        ensures b in Swept(qs) <==> exists q :: q in qs && q.body == b
      {
        if b in Swept(init) {
          var q :| q in init && q.body == b;
          assert q in qs;
        }
        if exists q :: q in qs && q.body == b {
          var q :| q in qs && q.body == b;
          if q != qs[|qs| - 1] {
            assert q in init;
          }
        }
      }
    }
  }

  /**
   * Removing the listed bodies one at a time adds no body and keeps every
   * unlisted one; from a world without repeats, every listed body is gone.
   */
  lemma {:induction false} RemoveAllMembers(world: seq<Body>, qs: seq<Queued>)
    ensures forall b :: b in RemoveAll(world, qs) ==> b in world
    ensures forall b :: b in world && b !in Swept(qs) ==> b in RemoveAll(world, qs)
    ensures NoDups(world) ==> NoDups(RemoveAll(world, qs)) && forall b :: b in Swept(qs) ==> b !in RemoveAll(world, qs)
  {
    if qs != [] {
      var init := qs[..|qs| - 1];
      var x := qs[|qs| - 1].body;
      var before := RemoveAll(world, init);
      RemoveAllMembers(world, init);
      RemoveFirstMembers(before, x);
      if NoDups(world) {
        RemoveFirstNoDups(before, x);
      }
    }
  }

  /** The body became a sensor exactly when `made` says so, and nothing else about it changed. */
  twostate predicate SensorOnly(b: Body, made: bool)
    reads b
  {
    b.isSensor == (old(b.isSensor) || made)
    && b.position == old(b.position) && b.velocity == old(b.velocity) && b.bounds == old(b.bounds)
    && b.angle == old(b.angle) && b.force == old(b.force)
  }

  /** The score rose by `n`; the jump count, the running flag and the field are as they were. */
  twostate predicate Scored(gs: PhysicsGameStateComponent, n: int)
    reads gs
  {
    gs.score == old(gs.score) + n
    && gs.playerJumps == old(gs.playerJumps) && gs.isGameRunning == old(gs.isGameRunning)
    && gs.gameWidth == old(gs.gameWidth) && gs.gameHeight == old(gs.gameHeight) && gs.groundHeight == old(gs.groundHeight)
  }

  /** The component types a collected entity loses. */
  predicate Stripped(t: ComponentType) {
    t == PhysicsBodyKey || t == CollectibleKey
  }

  /** The store after one collection: the entity's physics body and collectible tag are gone. */
  function StripOne(components: map<nat, map<ComponentType, Component>>, entity: nat): map<nat, map<ComponentType, Component>> {
    Without(Without(components, entity, PhysicsBodyKey), entity, CollectibleKey)
  }

  /** The store after the collections of a removal list, in order. */
  function StripAll(components: map<nat, map<ComponentType, Component>>, qs: seq<Queued>): map<nat, map<ComponentType, Component>> {
    if qs == [] then components else StripOne(StripAll(components, qs[..|qs| - 1]), qs[|qs| - 1].entity)
  }

  /** The `onRemove` call of removing `t` from `entity`, when it holds one. */
  function RemovalOf(components: map<nat, map<ComponentType, Component>>, entity: nat, t: ComponentType): seq<Hook> {
    if entity in components && t in components[entity] then [OnRemove(components[entity][t])] else []
  }

  /** The `onRemove` calls of one collection: the physics body's, then the collectible tag's. */
  function StripLog(components: map<nat, map<ComponentType, Component>>, entity: nat): seq<Hook> {
    RemovalOf(components, entity, PhysicsBodyKey) + RemovalOf(Without(components, entity, PhysicsBodyKey), entity, CollectibleKey)
  }

  /** The `onRemove` calls of the collections of a removal list, in order. */
  function StripAllLog(components: map<nat, map<ComponentType, Component>>, qs: seq<Queued>): seq<Hook> {
    if qs == [] then []
    else StripAllLog(components, qs[..|qs| - 1]) + StripLog(StripAll(components, qs[..|qs| - 1]), qs[|qs| - 1].entity)
  }

  /** The store's entries and its hook log, as one value. */
  datatype Store = Store(components: map<nat, map<ComponentType, Component>>, hooks: seq<Hook>)

  /** The store after one collection, with the calls it logs. */
  function StripStore(st: Store, entity: nat): Store {
    Store(StripOne(st.components, entity), st.hooks + StripLog(st.components, entity))
  }

  /** The store after the collections of a removal list, in order. */
  function StripAllStore(st: Store, qs: seq<Queued>): Store {
    if qs == [] then st else StripStore(StripAllStore(st, qs[..|qs| - 1]), qs[|qs| - 1].entity)
  }

  /** Extending a prefix of a removal list by one entry adds one step to each fold over it. */
  lemma PrefixStep(world: seq<Body>, st: Store, qs: seq<Queued>, j: nat)
    requires j < |qs|
    ensures Swept(qs[..j + 1]) == Swept(qs[..j]) + {qs[j].body}
    ensures RemoveAll(world, qs[..j + 1]) == RemoveFirst(RemoveAll(world, qs[..j]), qs[j].body)
    ensures StripAllStore(st, qs[..j + 1]) == StripStore(StripAllStore(st, qs[..j]), qs[j].entity)
  {
    assert qs[..j + 1][..j] == qs[..j];
  }

  /** Collecting a list strips its entities in order and appends their calls to the log. */
  lemma {:induction false} StripAllStoreParts(st: Store, qs: seq<Queued>)
    ensures StripAllStore(st, qs) == Store(StripAll(st.components, qs), st.hooks + StripAllLog(st.components, qs))
  {
    if qs != [] {
      var p, e := qs[..|qs| - 1], qs[|qs| - 1].entity;
      StripAllStoreParts(st, p);
      StripStoreAppends(StripAll(st.components, p), st.hooks, StripAllLog(st.components, p), e);
    }
  }

  /** A removal pass logs only `onRemove` calls, at most two per collection. */
  lemma {:induction false} StripAllLogRemovals(c: map<nat, map<ComponentType, Component>>, qs: seq<Queued>)
    ensures |StripAllLog(c, qs)| <= 2 * |qs|
    ensures forall h :: h in StripAllLog(c, qs) ==> h.OnRemove?
  {
    if qs != [] {
      StripAllLogRemovals(c, qs[..|qs| - 1]);
    }
  }

  lemma StripStoreAppends(c: map<nat, map<ComponentType, Component>>, hooks: seq<Hook>, log: seq<Hook>, e: nat)
    ensures StripStore(Store(c, hooks + log), e) == Store(StripOne(c, e), hooks + (log + StripLog(c, e)))
  {
  }

  /** One collection removes the entity's physics body and collectible tag and keeps every other entry. */
  lemma StripOneAt(components: map<nat, map<ComponentType, Component>>, entity: nat, e: nat, t: ComponentType)
    requires e in components
    ensures StripOne(components, entity).Keys == components.Keys
    ensures t in StripOne(components, entity)[e] <==> t in components[e] && !(e == entity && Stripped(t))
    ensures t in StripOne(components, entity)[e] ==> StripOne(components, entity)[e][t] == components[e][t]
  {
  }

  /**
   * After the collections of a removal list, every listed entity has lost
   * exactly its physics body and collectible tag: an entity keeps a
   * component precisely when it had it and it is not one of those two on a
   * listed entity, and a kept component is the one it had.
   */
  lemma {:induction false} StripAllAt(components: map<nat, map<ComponentType, Component>>, qs: seq<Queued>, e: nat, t: ComponentType)
    requires e in components
    ensures StripAll(components, qs).Keys == components.Keys
    ensures t in StripAll(components, qs)[e] <==> t in components[e] && !(e in Taken(qs) && Stripped(t))
    ensures t in StripAll(components, qs)[e] ==> StripAll(components, qs)[e][t] == components[e][t]
  {
    if qs != [] {
      var init := qs[..|qs| - 1];
      var x := qs[|qs| - 1].entity;
      StripAllAt(components, init, e, t);
      StripOneAt(StripAll(components, init), x, e, t);
      assert Taken(qs) == Taken(init) + {x};
    }
  }

  class CollectibleSystem {
    const sys: System
    const componentManager: ComponentManager
    var playerBodies: set<Body>
    /** The engine whose world was handed over with `setPhysicsWorld`. */
    var world: Option<Engine>
    var gameStateEntity: Option<nat>

    /** The system requires a transform, a physics body and the collectible tag; it knows no world, player or game state yet. */
    constructor(componentManager: ComponentManager)
      ensures fresh(sys) && this.componentManager == componentManager
      ensures sys.Valid() && sys.name == "CollectibleSystem" && sys.entities == []
      ensures sys.requiredComponents == [TransformKey, PhysicsBodyKey, CollectibleKey] && sys.optionalComponents == []
      ensures playerBodies == {} && world == None && gameStateEntity == None
    {
      var s := new System("CollectibleSystem");
      s.RegisterRequiredComponent(TransformKey);
      s.RegisterRequiredComponent(PhysicsBodyKey);
      s.RegisterRequiredComponent(CollectibleKey);
      sys := s;
      this.componentManager := componentManager;
      playerBodies := {};
      world := None;
      gameStateEntity := None;
    }

    /** `setPhysicsWorld` */
    method SetPhysicsWorld(engine: Engine)
      modifies this
      ensures world == Some(engine) && playerBodies == old(playerBodies) && gameStateEntity == old(gameStateEntity)
    {
      world := Some(engine);
    }

    /** `setGameStateEntity` */
    method SetGameStateEntity(entity: nat)
      modifies this
      ensures gameStateEntity == Some(entity) && playerBodies == old(playerBodies) && world == old(world)
    {
      gameStateEntity := Some(entity);
    }

    /** `registerPlayerBody` adds the body to the set of players; registering it twice changes nothing. */
    method RegisterPlayerBody(body: Body)
      modifies this
      ensures playerBodies == old(playerBodies) + {body} && world == old(world) && gameStateEntity == old(gameStateEntity)
    {
      playerBodies := playerBodies + {body};
    }

    /** The frame's collection pass does nothing: no world, no player body or no game-state entity. */
    predicate Idle()
      reads this
    {
      world.None? || playerBodies == {} || gameStateEntity.None?
    }

    /** The body overlaps the bounds of some registered player body. */
    ghost predicate TouchesPlayer(b: Body)
      reads this, playerBodies, b
    {
      exists p :: p in playerBodies && AreColliding(p.bounds, b.bounds)
    }

    /** The bodies of the matched entities. */
    ghost function Bodies(): set<Body>
      reads sys, componentManager
    {
      set e | e in sys.entities && componentManager.PhysicsBodyOf(e).Some? :: componentManager.PhysicsBodyOf(e).value.body
    }

    /** The matched entities that have a physics body overlapping a player, each with that body. */
    ghost function Hits(): map<nat, Body>
      reads this, sys, componentManager, playerBodies, Bodies()
    {
      map e | e in sys.entities && componentManager.PhysicsBodyOf(e).Some? && TouchesPlayer(componentManager.PhysicsBodyOf(e).value.body)
        :: componentManager.PhysicsBodyOf(e).value.body
    }

    /** What this frame's detection pass queues. */
    ghost function Queue(): seq<Queued>
      reads this, sys, componentManager, playerBodies, Bodies()
    {
      QueueOf(sys.entities, Hits())
    }

    /** The game state the system reports to, if its entity is set and holds one. */
    function GameStateOf(): Option<PhysicsGameStateComponent>
      reads this`gameStateEntity, componentManager
    {
      if gameStateEntity.Some? then componentManager.PhysicsGameStateOf(gameStateEntity.value) else None
    }

    ghost function GameStates(): set<PhysicsGameStateComponent>
      reads this`gameStateEntity, componentManager
    {
      if GameStateOf().Some? then {GameStateOf().value} else {}
    }

    ghost function WorldFrame(): set<Engine>
      reads this`world
    {
      if world.Some? then {world.value} else {}
    }

    /**
     * `update`: idle, nothing changes. Otherwise every matched entity whose
     * physics body overlaps a player is collected, once: its body becomes a
     * sensor and leaves the world, it loses its physics body and collectible
     * tag, and the score rises by one for it. The count of boxes remaining
     * becomes the size of the matched set, which still holds the collected
     * entities; they can never be collected again.
     */
    method Update(deltaTime: real) returns (ghost queue: seq<Queued>)
      requires sys.Valid() && componentManager.Valid()
      modifies componentManager, WorldFrame(), Bodies(), GameStates()
      ensures componentManager.Valid() && GameStateOf() == old(GameStateOf())
      ensures old(Idle()) ==> unchanged(componentManager) && unchanged(WorldFrame()) && unchanged(GameStates())
      ensures old(Idle()) ==> forall b :: b in old(Bodies()) ==> unchanged(b)
      ensures !old(Idle()) ==> queue == old(Queue()) && |queue| == |Members(sys.entities, old(Hits()))|
      ensures !old(Idle()) ==> world.value.world == RemoveAll(old(world.value.world), queue)
      ensures !old(Idle()) ==> world.value.steps == old(world.value.steps) && world.value.gravity == old(world.value.gravity)
      ensures !old(Idle()) ==> componentManager.components == StripAll(old(componentManager.components), queue)
      ensures !old(Idle()) ==> componentManager.hooks == old(componentManager.hooks) + StripAllLog(old(componentManager.components), queue)
      ensures !old(Idle()) ==> forall b :: b in old(Bodies()) ==> SensorOnly(b, b in Swept(queue))
      ensures !old(Idle()) ==> forall e :: e in Taken(queue) ==> e in sys.entities
      ensures !old(Idle()) && GameStateOf().Some? ==> Scored(GameStateOf().value, |queue|)
      ensures !old(Idle()) && GameStateOf().Some? ==> GameStateOf().value.boxesRemaining == |sys.entities|
    {
      queue := [];
      if world.None? || playerBodies == {} {
        return;
      }
      if gameStateEntity.None? {
        return;
      }
      queue := Run();
    }

    /** The body of `update` past its guards: detection, removal, then the count of boxes remaining. */
    method Run() returns (queue: seq<Queued>)
      requires !Idle() && sys.Valid() && componentManager.Valid()
      modifies componentManager, WorldFrame(), Bodies(), GameStates()
      ensures componentManager.Valid() && GameStateOf() == old(GameStateOf())
      ensures queue == old(Queue()) && |queue| == |Members(sys.entities, old(Hits()))|
      ensures world.value.world == RemoveAll(old(world.value.world), queue)
      ensures world.value.steps == old(world.value.steps) && world.value.gravity == old(world.value.gravity)
      ensures componentManager.components == StripAll(old(componentManager.components), queue)
      ensures componentManager.hooks == old(componentManager.hooks) + StripAllLog(old(componentManager.components), queue)
      ensures forall b :: b in old(Bodies()) ==> SensorOnly(b, b in Swept(queue))
      ensures forall e :: e in Taken(queue) ==> e in sys.entities
      ensures GameStateOf().Some? ==> Scored(GameStateOf().value, |queue|)
      ensures GameStateOf().Some? ==> GameStateOf().value.boxesRemaining == |sys.entities|
    {
      queue := Sweep();
      var gameState := componentManager.PhysicsGameStateOf(gameStateEntity.value);
      if gameState.Some? {
        gameState.value.boxesRemaining := |sys.entities|;
      }
    }

    /** Detection and removal, before the count of boxes remaining is written. */
    method Sweep() returns (queue: seq<Queued>)
      requires !Idle() && sys.Valid() && componentManager.Valid()
      modifies componentManager, WorldFrame(), Bodies(), GameStates()
      ensures componentManager.Valid() && GameStateOf() == old(GameStateOf())
      ensures queue == old(Queue()) && |queue| == |Members(sys.entities, old(Hits()))|
      ensures world.value.world == RemoveAll(old(world.value.world), queue)
      ensures world.value.steps == old(world.value.steps) && world.value.gravity == old(world.value.gravity)
      ensures componentManager.components == StripAll(old(componentManager.components), queue)
      ensures componentManager.hooks == old(componentManager.hooks) + StripAllLog(old(componentManager.components), queue)
      ensures forall b :: b in old(Bodies()) ==> SensorOnly(b, b in Swept(queue))
      ensures forall e :: e in Taken(queue) ==> e in sys.entities
      ensures GameStateOf().Some? ==> Scored(GameStateOf().value, |queue|)
    {
      ghost var bodies := Bodies();
      queue := Detect();
      assert Bodies() == bodies;
      QueuedOnce(sys.entities, old(Hits()));
      Collect(queue);
    }

    /** An entity without a physics body is never queued, so a collected entity is not collected twice. */
    lemma NotHitAgain(e: nat)
      requires componentManager.PhysicsBodyOf(e).None?
      ensures e !in Hits() && e !in Taken(Queue())
    {
      QueuedOnce(sys.entities, Hits());
    }

    /** The detection pass: the removal list for this frame, built before anything is removed. */
    method Detect() returns (toRemove: seq<Queued>)
      requires componentManager.Valid()
      ensures toRemove == old(Queue())
      ensures forall q :: q in toRemove ==> q.body in old(Bodies())
    {
      ghost var hit := Hits();
      var es := sys.entities;
      toRemove := [];
      var i := 0;
      while i < |es|
        invariant 0 <= i <= |es|
        invariant toRemove == QueueOf(es[..i], hit)
      {
        var phys := componentManager.PhysicsBodyOf(es[i]);
        assert es[..i + 1][..i] == es[..i];
        if phys.Some? {
          var touches := OverlapsPlayer(phys.value.body);
          if touches {
            toRemove := toRemove + [Queued(es[i], phys.value.body)];
          }
        }
        i := i + 1;
      }
      assert es[..i] == es;
      QueuedOnce(es, hit);
      forall q | q in toRemove
        ensures q.body in old(Bodies())
      {
        assert componentManager.PhysicsBodyOf(q.entity).Some?;
      }
    }

    /** The inner loop of the detection pass: whether the body overlaps some player body. */
    method OverlapsPlayer(body: Body) returns (touches: bool)
      ensures touches <==> TouchesPlayer(body)
    {
      var pending := playerBodies;
      while pending != {}
        invariant pending <= playerBodies
        invariant forall p :: p in playerBodies && p !in pending ==> !AreColliding(p.bounds, body.bounds)
        decreases pending
      {
        var player :| player in pending;
        if AreColliding(player.bounds, body.bounds) {
          return true;
        }
        pending := pending - {player};
      }
      return false;
    }

    /** The removal pass over the whole list. */
    method Collect(toRemove: seq<Queued>)
      requires world.Some? && gameStateEntity.Some? && componentManager.Valid()
      modifies world.value, componentManager, set q | q in toRemove :: q.body, GameStates()
      ensures world.value.world == RemoveAll(old(world.value.world), toRemove)
      ensures world.value.steps == old(world.value.steps) && world.value.gravity == old(world.value.gravity)
      ensures componentManager.Valid() && GameStateOf() == old(GameStateOf())
      ensures componentManager.components == StripAll(old(componentManager.components), toRemove)
      ensures componentManager.hooks == old(componentManager.hooks) + StripAllLog(old(componentManager.components), toRemove)
      ensures forall b :: b in old(Bodies()) ==> SensorOnly(b, b in Swept(toRemove))
      ensures old(GameStateOf()).Some? ==> Scored(old(GameStateOf()).value, |toRemove|)
      ensures old(GameStateOf()).Some? ==> old(GameStateOf()).value.boxesRemaining == old(GameStateOf().value.boxesRemaining)
    {
      ghost var gs := GameStateOf();
      ghost var bodies := Bodies();
      ghost var w0, steps0, gravity0 := world.value.world, world.value.steps, world.value.gravity;
      ghost var s0 := Store(componentManager.components, componentManager.hooks);
      ghost var st := s0;
      var j := 0;
      while j < |toRemove|
        invariant 0 <= j <= |toRemove|
        invariant world.value.world == RemoveAll(w0, toRemove[..j])
        invariant world.value.steps == steps0 && world.value.gravity == gravity0
        invariant componentManager.Valid() && GameStateOf() == gs
        invariant st == StripAllStore(s0, toRemove[..j])
        invariant Store(componentManager.components, componentManager.hooks) == st
        invariant forall b :: b in bodies ==> SensorOnly(b, b in Swept(toRemove[..j]))
        invariant gs.Some? ==> Scored(gs.value, j) && gs.value.boxesRemaining == old(gs.value.boxesRemaining)
      {
        PrefixStep(w0, s0, toRemove, j);
        CollectOne(toRemove[j], gs);
        st := StripStore(st, toRemove[j].entity);
        j := j + 1;
      }
      assert toRemove[..j] == toRemove;
      StripAllStoreParts(s0, toRemove);
    }

    /** The two `removeComponent` calls of one collection. */
    method Strip(entity: nat)
      requires componentManager.Valid()
      modifies componentManager
      ensures componentManager.Valid()
      ensures componentManager.components == StripOne(old(componentManager.components), entity)
      ensures componentManager.hooks == old(componentManager.hooks) + StripLog(old(componentManager.components), entity)
    {
      componentManager.RemoveComponent(entity, PhysicsBodyKey);
      componentManager.RemoveComponent(entity, CollectibleKey);
    }

    /** One entry of the removal pass. */
    method CollectOne(q: Queued, ghost gs: Option<PhysicsGameStateComponent>)
      requires world.Some? && gameStateEntity.Some? && componentManager.Valid()
      requires gs == GameStateOf()
      modifies q.body, world.value, componentManager, if gs.Some? then {gs.value} else {}
      ensures q.body.isSensor && SensorOnly(q.body, true)
      ensures world.value.world == RemoveFirst(old(world.value.world), q.body)
      ensures world.value.steps == old(world.value.steps) && world.value.gravity == old(world.value.gravity)
      ensures componentManager.Valid() && GameStateOf() == gs
      ensures Store(componentManager.components, componentManager.hooks)
        == StripStore(Store(old(componentManager.components), old(componentManager.hooks)), q.entity)
      ensures gs.Some? ==> Scored(gs.value, 1) && gs.value.boxesRemaining == old(gs.value.boxesRemaining)
    {
      q.body.isSensor := true;
      world.value.Remove(q.body);
      Strip(q.entity);
      if gameStateEntity.value in old(componentManager.components) {
        StripOneAt(old(componentManager.components), q.entity, gameStateEntity.value, PhysicsGameStateKey);
      }
      var gameState := componentManager.PhysicsGameStateOf(gameStateEntity.value);
      assert gameState == gs;
      if gameState.Some? {
        gameState.value.score := gameState.value.score + 1;
      }
    }
  }
}
