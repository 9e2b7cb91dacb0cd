/**
 * The physics system (src/game/physicsGame/systems/PhysicsSystem.ts): it
 * owns the matter-js engine, remembers which bodies are players', grounds a
 * player that lands on top of another body, re-checks the ground once a
 * contact ends, and copies body positions into transforms every frame.
 *
 * The engine's collision events are the methods `CollisionStart` and
 * `CollisionEnd`, called with the pairs of the event. The 100 ms timer
 * before the re-check is not modelled: `CollisionEnd` returns the re-checks
 * it schedules and the environment runs each later with `RunRecheck`.
 */
module PhysicsSystems {
  import opened Wrappers
  import opened Vector2
  import opened Matter
  import opened Components
  import opened ComponentStore
  import opened Systems
  import opened PhysicsBodies
  import opened Animations
  import opened Transforms

  /** Half the player's height: its bottom is its centre plus this. */
  const HalfPlayerHeight: real := 25.0

  /** The landing animation's length in milliseconds. */
  const LandingDuration: real := 300.0

  /** The fixed step handed to the engine every frame, in milliseconds. */
  const FixedTimeStep: real := 16.67

  /**
   * `isPlayerOnTopOfBody` on values: the player's bottom lies from 5 above
   * the other body's top to 15 below it, and the two overlap horizontally,
   * edges that only touch not counting.
   */
  predicate OnTop(playerY: real, player: Bounds, other: Bounds) {
    var playerBottom := playerY + HalfPlayerHeight;
    var otherTop := other.min.y;
    playerBottom >= otherTop - 5.0 && playerBottom <= otherTop + 15.0
    && player.max.x > other.min.x && player.min.x < other.max.x
  }

  /**
   * In terms of the player's centre: it sits from 30 to 10 above the other
   * body's top, and the horizontal overlap is strict.
   */
  lemma OnTopBand(playerY: real, player: Bounds, other: Bounds)
    ensures OnTop(playerY, player, other) <==>
      other.min.y - 30.0 <= playerY <= other.min.y - 10.0
      && other.min.x < player.max.x && player.min.x < other.max.x
  {
  }

  /** The bounds of a 50-high player box centred at height `y`. */
  predicate PlayerBox(y: real, player: Bounds) {
    player.min.y == y - HalfPlayerHeight && player.max.y == y + HalfPlayerHeight
  }

  /**
   * For a player box on top of a body, the boxes overlap exactly when the
   * player's bottom has reached the body's top: the on-top test alone also
   * accepts a player hovering up to 5 above, which the collision-end
   * re-check, asking for both, does not.
   */
  lemma OnTopContact(y: real, player: Bounds, other: Bounds)
    requires PlayerBox(y, player) && WellFormed(player) && WellFormed(other)
    requires OnTop(y, player, other)
    ensures AreColliding(player, other) <==> y + HalfPlayerHeight >= other.min.y
  {
  }

  /** A player hovering 3 above a platform passes the on-top test without touching it. */
  lemma HoveringIsOnTop()
    ensures var player := Bounds(Vec2(0.0, -53.0), Vec2(50.0, -3.0));
      var platform := Bounds(Vec2(0.0, 0.0), Vec2(200.0, 20.0));
      OnTop(-28.0, player, platform) && !AreColliding(player, platform)
  {
  }

  /** A pair of bodies in a collision event. */
  datatype Pair = Pair(bodyA: Body, bodyB: Body)

  /**
   * How a pair is handled: with bodyA as the player when it is a player
   * body, otherwise with bodyB as the player when it is one, otherwise not
   * at all. The result has the player first.
   */
  function Dispatch(p: Pair, players: set<Body>): (r: Option<Pair>)
    ensures r.Some? ==> r.value.bodyA in players
    ensures r.Some? ==> r.value == p || r.value == Pair(p.bodyB, p.bodyA)
    ensures p.bodyA in players ==> r == Some(p)
    ensures r.None? <==> p.bodyA !in players && p.bodyB !in players
  {
    if p.bodyA in players then Some(p)
    else if p.bodyB in players then Some(Pair(p.bodyB, p.bodyA))
    else None
  }

  /** An entity's animation component as values: its animations and the current one. */
  datatype AnimationView = AnimationView(animations: map<AnimationType, AnimationState>, current: Option<AnimationType>)

  /** What a landing concerns of a player entity: its grounded flag and, when it has one, its animation component. */
  datatype Stance = Stance(grounded: bool, animation: Option<AnimationView>)

  /**
   * The stance after a collision that lands the player when `landed`: it is
   * grounded, and when it was airborne its landing animation starts for 300
   * ms; without a landing nothing changes.
   */
  function Landed(s: Stance, landed: bool): (r: Stance)
    ensures r.grounded == (s.grounded || landed)
    ensures r.animation.Some? == s.animation.Some?
    ensures r != s ==> landed && !s.grounded
    ensures landed && !s.grounded && s.animation.Some? ==>
      r.animation.value.current == Some(Landing)
      && r.animation.value.animations == s.animation.value.animations[Landing := Started(Landing, LandingDuration)]
  {
    if !landed || s.grounded then s
    else Stance(true, if s.animation.None? then None
      else Some(AnimationView(s.animation.value.animations[Landing := Started(Landing, LandingDuration)], Some(Landing))))
  }

  /**
   * Landings compose: two collisions in a row act as one that lands when
   * either does, so a player landed twice plays its landing animation once.
   */
  lemma LandedTwice(s: Stance, first: bool, second: bool)
    ensures Landed(Landed(s, first), second) == Landed(s, first || second)
    ensures Landed(Landed(s, true), true) == Landed(s, true)
  {
    if first && !s.grounded {
      assert Landed(s, first).grounded;
    }
  }

  /** A ground re-check scheduled by a collision end: the player's body and its physics component. */
  datatype Recheck = Recheck(playerBody: Body, component: PhysicsBodyComponent)

  class PhysicsSystem {
    const sys: System
    const componentManager: ComponentManager
    const engine: Engine
    var playerBodies: set<Body>

    /**
     * The system requires a transform and a physics body, its engine has an
     * empty world under a gravity of one unit downwards, and no body is a
     * player's yet.
     */
    constructor(componentManager: ComponentManager)
      ensures fresh(sys) && fresh(engine) && this.componentManager == componentManager
      ensures sys.Valid() && sys.name == "PhysicsSystem" && sys.entities == []
      ensures sys.requiredComponents == [TransformKey, PhysicsBodyKey] && sys.optionalComponents == []
      ensures engine.world == [] && engine.steps == [] && engine.gravity == Vec2(0.0, 1.0)
      ensures playerBodies == {}
    {
      var en := new Engine();
      en.gravity := Vec2(0.0, 1.0);
      var s := new System("PhysicsSystem");
      s.RegisterRequiredComponent(TransformKey);
      s.RegisterRequiredComponent(PhysicsBodyKey);
      sys := s;
      engine := en;
      this.componentManager := componentManager;
      playerBodies := {};
    }

    /** `addBody`: the body joins the world, and the player bodies only when `isPlayer`. */
    method AddBody(body: Body, isPlayer: bool := false)
      modifies this, engine
      ensures engine.world == old(engine.world) + [body]
      ensures playerBodies == if isPlayer then old(playerBodies) + {body} else old(playerBodies)
      ensures engine.steps == old(engine.steps) && engine.gravity == old(engine.gravity)
    {
      engine.Add(body);
      if isPlayer {
        playerBodies := playerBodies + {body};
      }
    }

    /** `removeBody`: the body leaves the world; a player body stays a player body. */
    method RemoveBody(body: Body)
      modifies engine
      ensures engine.world == Seqs.RemoveFirst(old(engine.world), body)
      ensures playerBodies == old(playerBodies)
      ensures engine.steps == old(engine.steps) && engine.gravity == old(engine.gravity)
    {
      engine.Remove(body);
    }

    /** `isPlayerOnTopOfBody` */
    predicate IsPlayerOnTopOfBody(playerBody: Body, otherBody: Body)
      reads playerBody, otherBody
    {
      OnTop(playerBody.position.y, playerBody.bounds, otherBody.bounds)
    }

    /** The physics component of `entity` holds `body`. */
    predicate Holds(entity: nat, body: Body)
      reads componentManager
    {
      var pc := componentManager.PhysicsBodyOf(entity);
      pc.Some? && pc.value.body == body
    }

    /** The entity `findEntityByBody` answers: the first of `es` whose physics component holds `body`. */
    function FirstHolder(es: seq<nat>, body: Body): (r: Option<nat>)
      reads componentManager
      ensures r.Some? ==> r.value in es && Holds(r.value, body)
    {
      if es == [] then None
      else if Holds(es[0], body) then Some(es[0])
      else FirstHolder(es[1..], body)
    }

    /**
     * The answer is none exactly when no entity of `es` holds the body, and
     * otherwise an entity holding it with none holding it before.
     */
    lemma {:induction false} FirstHolderIsFirst(es: seq<nat>, body: Body)
      ensures FirstHolder(es, body).None? <==> forall e :: e in es ==> !Holds(e, body)
      ensures FirstHolder(es, body).Some? ==>
        forall k :: 0 <= k < Seqs.IndexOf(es, FirstHolder(es, body).value) ==> !Holds(es[k], body)
    {
      if es != [] && !Holds(es[0], body) {
        FirstHolderIsFirst(es[1..], body);
        var r := FirstHolder(es[1..], body);
        assert forall e :: e in es ==> e == es[0] || e in es[1..];
        if r.Some? {
          assert es[0] != r.value && Seqs.IndexOf(es, r.value) == Seqs.IndexOf(es[1..], r.value) + 1;
          forall k | 0 <= k < Seqs.IndexOf(es, r.value)
            ensures !Holds(es[k], body)
          {
            if k > 0 {
              assert es[k] == es[1..][k - 1];
            }
          }
        }
      }
    }

    /**
     * `findEntityByBody`: the first matched entity whose physics component
     * holds the body, none when no matched entity's does.
     */
    method FindEntityByBody(body: Body) returns (r: Option<nat>)
      ensures r == FirstHolder(sys.entities, body)
    {
      var es := sys.entities;
      var i := 0;
      while i < |es|
        invariant 0 <= i <= |es|
        invariant FirstHolder(es, body) == FirstHolder(es[i..], body)
      {
        var pc := componentManager.PhysicsBodyOf(es[i]);
        if pc.Some? && pc.value.body == body {
          return Some(es[i]);
        }
        assert es[i..][1..] == es[i + 1..];
        i := i + 1;
      }
      return None;
    }

    /** The physics components of the matched entities. */
    ghost function PhysicsComponents(): set<PhysicsBodyComponent>
      reads this, sys, componentManager
    {
      set e | e in sys.entities && componentManager.PhysicsBodyOf(e).Some? :: componentManager.PhysicsBodyOf(e).value
    }

    /** The animation components of the matched entities. */
    ghost function AnimationComponents(): set<AnimationComponent>
      reads this, sys, componentManager
    {
      set e | e in sys.entities && componentManager.AnimationOf(e).Some? :: componentManager.AnimationOf(e).value
    }

    ghost function EntityFrame(e: nat): set<object>
      reads componentManager
    {
      (if componentManager.PhysicsBodyOf(e).Some? then {componentManager.PhysicsBodyOf(e).value} else {})
      + (if componentManager.AnimationOf(e).Some? then {componentManager.AnimationOf(e).value} else {})
    }

    /** The collision grounds the player: it is on top, its entity is found, and it is not moving up faster than 5. */
    ghost predicate Lands(playerBody: Body, otherBody: Body)
      reads this, sys, componentManager, playerBody, otherBody
    {
      IsPlayerOnTopOfBody(playerBody, otherBody)
      && FirstHolder(sys.entities, playerBody).Some?
      && playerBody.velocity.y >= -5.0
    }

    /** The stance of entity `e`, none when it has no physics component. */
    ghost function StanceOf(e: nat): Option<Stance>
      reads componentManager, EntityFrame(e)
    {
      var pc := componentManager.PhysicsBodyOf(e);
      if pc.None? then None
      else
        var an := componentManager.AnimationOf(e);
        Some(Stance(pc.value.isGrounded,
          if an.None? then None else Some(AnimationView(an.value.animations, an.value.current))))
    }

    /**
     * Between the earlier state and this one, entity `e` went through a
     * landing when `landed` and through nothing otherwise.
     */
    twostate predicate Evolved(e: nat, landed: bool)
      requires unchanged(componentManager)
      reads componentManager, EntityFrame(e)
    {
      old(StanceOf(e)).Some? ==> StanceOf(e) == Some(Landed(old(StanceOf(e)).value, landed))
    }

    /**
     * `handlePlayerCollision`: a landing grounds the player's entity and, when
     * it was not grounded before and has an animation component, starts a
     * 300 ms landing animation; every other entity, and the player's on
     * anything but a landing, is left as it was.
     */
    method HandlePlayerCollision(playerBody: Body, otherBody: Body)
      requires componentManager.Valid()
      modifies PhysicsComponents(), AnimationComponents()
      ensures forall e :: e in sys.entities ==>
        Evolved(e, Lands(playerBody, otherBody) && FirstHolder(sys.entities, playerBody) == Some(e))
    {
      if IsPlayerOnTopOfBody(playerBody, otherBody) {
        var playerEntity := FindEntityByBody(playerBody);
        if playerEntity.Some? {
          var physicsComponent := componentManager.PhysicsBodyOf(playerEntity.value);
          var animationComponent := componentManager.AnimationOf(playerEntity.value);
          if physicsComponent.Some? {
            if playerBody.velocity.y >= -5.0 {
              Land(physicsComponent.value, animationComponent);
            }
          }
        }
      }
    }

    /** The grounding step of a landing: grounded afterwards, with a landing animation only on the way from airborne. */
    static method Land(physicsComponent: PhysicsBodyComponent, animationComponent: Option<AnimationComponent>)
      modifies physicsComponent, if animationComponent.Some? then {animationComponent.value} else {}
      ensures physicsComponent.isGrounded
      ensures animationComponent.Some? ==>
        var a := animationComponent.value;
        if !old(physicsComponent.isGrounded) then
          a.animations == old(a.animations)[Landing := Started(Landing, LandingDuration)] && a.current == Some(Landing)
        else
          a.animations == old(a.animations) && a.current == old(a.current)
    {
      var wasGrounded := physicsComponent.IsOnGround();
      physicsComponent.SetGrounded(true);
      if !wasGrounded && animationComponent.Some? {
        animationComponent.value.StartLandingAnimation(LandingDuration);
      }
    }

    /** Pair `p` of a collision-start event lands the player whose entity is `e`. */
    ghost predicate LandsOn(p: Pair, e: nat)
      reads this, sys, componentManager, p.bodyA, p.bodyB
    {
      var d := Dispatch(p, playerBodies);
      d.Some? && Lands(d.value.bodyA, d.value.bodyB) && FirstHolder(sys.entities, d.value.bodyA) == Some(e)
    }

    /**
     * One pair of a collision-start event: handled with its player body
     * first, or ignored without one. Handling a pair grounds components
     * only, so which entities the pairs of the same event (`others`) land is
     * unchanged.
     */
    method HandleStartPair(p: Pair, ghost others: seq<Pair>)
      requires componentManager.Valid()
      modifies PhysicsComponents(), AnimationComponents()
      ensures unchanged(this, sys, componentManager)
      ensures forall k, e :: 0 <= k < |others| ==> old(LandsOn(others[k], e)) == LandsOn(others[k], e)
      ensures forall e :: e in sys.entities ==> Evolved(e, LandsOn(p, e))
    {
      var d := Dispatch(p, playerBodies);
      if d.Some? {
        HandlePlayerCollision(d.value.bodyA, d.value.bodyB);
      }
    }

    /**
     * The `collisionStart` handler: afterwards a matched player is grounded
     * exactly when it was before or some pair landed it, and its landing
     * animation has started once, only when it was airborne and some pair
     * landed it.
     */
    method CollisionStart(pairs: seq<Pair>)
      requires componentManager.Valid()
      modifies PhysicsComponents(), AnimationComponents()
      ensures forall e :: e in sys.entities ==> Evolved(e, exists k :: 0 <= k < |pairs| && LandsOn(pairs[k], e))
    {
      ghost var start: map<nat, Stance> := map e | e in sys.entities && componentManager.PhysicsBodyOf(e).Some? :: StanceOf(e).value;
      ghost var landed: set<nat> := {};
      for i := 0 to |pairs|
        invariant unchanged(this, sys, componentManager)
        invariant forall e :: e in start ==> e in sys.entities
        invariant forall e :: e in landed <==> e in sys.entities && exists k :: 0 <= k < i && LandsOn(pairs[k], e)
        invariant forall e :: e in start ==> StanceOf(e) == Some(Landed(start[e], e in landed))
      {
        landed := StartStep(pairs, i, start, landed);
      }
    }

    /**
     * The body of the `collisionStart` loop, with what it keeps: pair `i` is
     * handled, and the entities landed so far are those some pair up to and
     * including it lands.
     */
    method StartStep(pairs: seq<Pair>, i: nat, ghost start: map<nat, Stance>, ghost landed: set<nat>)
      returns (ghost landedNow: set<nat>)
      requires i < |pairs| && componentManager.Valid()
      requires forall e :: e in start ==> e in sys.entities
      requires forall e :: e in landed <==> e in sys.entities && exists k :: 0 <= k < i && LandsOn(pairs[k], e)
      requires forall e :: e in start ==> StanceOf(e) == Some(Landed(start[e], e in landed))
      modifies PhysicsComponents(), AnimationComponents()
      ensures unchanged(this, sys, componentManager)
      ensures forall e :: e in landedNow <==> e in sys.entities && exists k :: 0 <= k < i + 1 && LandsOn(pairs[k], e)
      ensures forall e :: e in start ==> StanceOf(e) == Some(Landed(start[e], e in landedNow))
    {
      ghost var mid := map e | e in start :: StanceOf(e);
      HandleStartPair(pairs[i], pairs);
      landedNow := landed + LandedBy(pairs[i]);
      forall e | e in start
        ensures StanceOf(e) == Some(Landed(start[e], e in landedNow))
      {
        assert e in sys.entities && old(StanceOf(e)) == mid[e];
        assert StanceOf(e) == Some(Landed(mid[e].value, e in LandedBy(pairs[i])));
        LandedTwice(start[e], e in landed, e in LandedBy(pairs[i]));
      }
      LandedGrows(pairs, i, landed);
    }

    /** The matched entities pair `p` lands. */
    ghost function LandedBy(p: Pair): (r: set<nat>)
      reads this, sys, componentManager, p.bodyA, p.bodyB
      ensures forall e :: e in r <==> e in sys.entities && LandsOn(p, e)
    {
      set e | e in sys.entities && LandsOn(p, e)
    }

    /** Adding the entities pair `i` lands to those the earlier pairs land gives those the pairs up to `i` land. */
    lemma LandedGrows(pairs: seq<Pair>, i: nat, landed: set<nat>)
      requires i < |pairs|
      requires forall e :: e in landed <==> e in sys.entities && exists k :: 0 <= k < i && LandsOn(pairs[k], e)
      ensures forall e :: e in landed + LandedBy(pairs[i]) <==> e in sys.entities && exists k :: 0 <= k < i + 1 && LandsOn(pairs[k], e)
    {
      forall e
        ensures e in landed + LandedBy(pairs[i]) <==> e in sys.entities && exists k :: 0 <= k < i + 1 && LandsOn(pairs[k], e)
      {
        if e in LandedBy(pairs[i]) {
          assert LandsOn(pairs[i], e);
        } else if e in sys.entities && exists k :: 0 <= k < i + 1 && LandsOn(pairs[k], e) {
          var k :| 0 <= k < i + 1 && LandsOn(pairs[k], e);
          assert k < i;
        }
      }
    }

    /** The re-checks a collision-end event schedules, pair by pair. */
    function RechecksFor(pairs: seq<Pair>): (r: seq<Recheck>)
      reads this, sys, componentManager
      ensures |r| <= |pairs|
      ensures forall k :: 0 <= k < |r| ==> r[k].playerBody in playerBodies && r[k].component.body == r[k].playerBody
    {
      if pairs == [] then []
      else
        var before := RechecksFor(pairs[..|pairs| - 1]);
        var d := Dispatch(pairs[|pairs| - 1], playerBodies);
        if d.None? then before
        else
          var h := FirstHolder(sys.entities, d.value.bodyA);
          if h.None? then before
          else before + [Recheck(d.value.bodyA, componentManager.PhysicsBodyOf(h.value).value)]
    }

    /**
     * `handlePlayerCollisionEnd`: when the player's entity is found, a
     * re-check of its ground contact is scheduled.
     */
    method HandlePlayerCollisionEnd(playerBody: Body) returns (r: Option<Recheck>)
      ensures r.Some? <==> FirstHolder(sys.entities, playerBody).Some?
      ensures r.Some? ==> r.value == Recheck(playerBody, componentManager.PhysicsBodyOf(FirstHolder(sys.entities, playerBody).value).value)
    {
      var playerEntity := FindEntityByBody(playerBody);
      r := None;
      if playerEntity.Some? {
        var physicsComponent := componentManager.PhysicsBodyOf(playerEntity.value);
        if physicsComponent.Some? {
          r := Some(Recheck(playerBody, physicsComponent.value));
        }
      }
    }

    /**
     * The `collisionEnd` handler: one re-check per pair with a player body
     * whose entity is found, in the order of the pairs; nothing changes now.
     */
    method CollisionEnd(pairs: seq<Pair>) returns (pending: seq<Recheck>)
      ensures pending == RechecksFor(pairs)
    {
      pending := [];
      for i := 0 to |pairs|
        invariant pending == RechecksFor(pairs[..i])
      {
        assert pairs[..i + 1][..i] == pairs[..i];
        var d := Dispatch(pairs[i], playerBodies);
        if d.Some? {
          var r := HandlePlayerCollisionEnd(d.value.bodyA);
          if r.Some? {
            pending := pending + [r.value];
          }
        }
      }
      assert pairs[..|pairs|] == pairs;
    }

    /** Some other body of the world overlaps the player and has it on top. */
    ghost predicate StillSupported(playerBody: Body)
      reads this, engine, engine.world, playerBody
    {
      exists b :: b in engine.world && b != playerBody
        && AreColliding(playerBody.bounds, b.bounds) && IsPlayerOnTopOfBody(playerBody, b)
    }

    /** The loop of the re-check: whether some other body of the world still supports the player. */
    method StillGrounded(playerBody: Body) returns (stillGrounded: bool)
      ensures stillGrounded <==> StillSupported(playerBody)
    {
      var allBodies := engine.world;
      stillGrounded := false;
      var i := 0;
      while i < |allBodies|
        invariant 0 <= i <= |allBodies|
        invariant forall k :: 0 <= k < i ==>
          !(allBodies[k] != playerBody && AreColliding(playerBody.bounds, allBodies[k].bounds) && IsPlayerOnTopOfBody(playerBody, allBodies[k]))
      {
        var body := allBodies[i];
        if body != playerBody && AreColliding(playerBody.bounds, body.bounds) {
          if IsPlayerOnTopOfBody(playerBody, body) {
            stillGrounded := true;
            break;
          }
        }
        i := i + 1;
      }
    }

    /**
     * The delayed part of `handlePlayerCollisionEnd`: the player stays
     * grounded when some other body still supports it and is airborne
     * otherwise; the re-check never grounds a player.
     */
    method RunRecheck(r: Recheck)
      modifies r.component
      ensures r.component.isGrounded == (old(r.component.isGrounded) && StillSupported(r.playerBody))
    {
      var stillGrounded := StillGrounded(r.playerBody);
      if !stillGrounded {
        r.component.SetGrounded(false);
      }
    }

    /** The transforms of the matched entities: what an update may change. */
    ghost function Transforms(): set<Transform>
      reads this, sys, componentManager
    {
      set e | e in sys.entities && componentManager.TransformOf(e).Some? :: componentManager.TransformOf(e).value
    }

    /**
     * `update`: the engine steps by a fixed 16.67 ms whatever the frame's
     * delta, then each matched entity with a transform and a physics body
     * takes its body's position and angle; scale is never touched.
     */
    method Update(deltaTime: real)
      requires componentManager.Valid() && sys.Valid()
      modifies engine, Transforms()
      ensures engine.steps == old(engine.steps) + [FixedTimeStep]
      ensures engine.world == old(engine.world) && engine.gravity == old(engine.gravity)
      ensures forall e :: e in sys.entities && componentManager.TransformOf(e).Some? ==>
        var t := componentManager.TransformOf(e).value;
        t.scale == old(t.scale)
        && if componentManager.PhysicsBodyOf(e).Some? then
          var body := componentManager.PhysicsBodyOf(e).value.body;
          t.position == body.position && t.rotation == body.angle
        else
          t.position == old(t.position) && t.rotation == old(t.rotation)
    {
      engine.Step(FixedTimeStep);
      var es := sys.entities;
      var cm := componentManager;
      for i := 0 to |es|
        invariant engine.steps == old(engine.steps) + [FixedTimeStep]
        invariant engine.world == old(engine.world) && engine.gravity == old(engine.gravity)
        invariant forall k :: 0 <= k < |es| && cm.TransformOf(es[k]).Some? ==>
          var t := cm.TransformOf(es[k]).value;
          t.scale == old(t.scale)
          && if k < i && cm.PhysicsBodyOf(es[k]).Some? then
            var body := cm.PhysicsBodyOf(es[k]).value.body;
            t.position == body.position && t.rotation == body.angle
          else
            t.position == old(t.position) && t.rotation == old(t.rotation)
      {
        var transform := cm.TransformOf(es[i]);
        var physicsBody := cm.PhysicsBodyOf(es[i]);
        if transform.Some? && physicsBody.Some? {
          transform.value.position := Vec2(physicsBody.value.body.position.x, physicsBody.value.body.position.y);
          transform.value.rotation := physicsBody.value.body.angle;
        }
      }
    }
  }
}
