/**
 * The platformer's input system
 * (src/game/physicsGame/systems/PlayerInputSystem.ts): it keeps the set of
 * keys held down, makes the first grounded player that may jump do so when a
 * jump key is pressed, and every frame counts down each player's jump
 * cooldown, pushes it sideways within the field, grounds it near the floor
 * and reopens its jump gate once grounded.
 */
module PlayerInputSystems {
  import opened Wrappers
  import opened Vector2
  import opened Strings
  import opened KeyboardEvents
  import opened Events
  import opened Matter
  import opened Components
  import opened ComponentStore
  import opened Systems
  import opened Players
  import opened PhysicsBodies
  import opened PhysicsGameState
  import opened Animations

  /** The player is a 50-pixel square; it may not be pushed past half its width from either wall. */
  const PlayerWidth: real := 50.0
  /** The right wall when there is no game state to give the field's width. */
  const DefaultRightBound: real := 800.0
  /** The share of the move speed applied as a force each frame. */
  const ForceScale: real := 0.01
  /** How far above the ground line a falling player is taken to be grounded. */
  const GroundMargin: real := 100.0
  /** The length of the jump animation, in milliseconds. */
  const JumpAnimationDuration: real := 200.0

  /** The keys that make the player jump, as the system stores them (lower case). */
  predicate IsJumpKey(key: string) {
    key == "space" || key == "up" || key == "w"
  }

  /**
   * The horizontal force the held keys ask for: minus the move speed for a
   * left key, plus it for a right key, the right key winning when both are
   * held, none otherwise.
   */
  function HorizontalForce(keys: set<string>, moveSpeed: real): (f: real)
    ensures ("d" in keys || "right" in keys) ==> f == moveSpeed
    ensures !("d" in keys || "right" in keys) ==> f == if "a" in keys || "left" in keys then -moveSpeed else 0.0
  {
    var f := if "a" in keys || "left" in keys then -moveSpeed else 0.0;
    if "d" in keys || "right" in keys then moveSpeed else f
  }

  /**
   * The held keys after a keyboard event: a press adds its lower-cased key;
   * any other event, a release or an auto-repeat, removes it.
   */
  function KeysAfter(keys: set<string>, e: KeyboardEvent): (r: set<string>)
    ensures ToLower(e.key) in r <==> IsPressed(e)
    ensures forall k :: k != ToLower(e.key) ==> (k in r <==> k in keys)
  {
    if IsPressed(e) then keys + {ToLower(e.key)} else keys - {ToLower(e.key)}
  }

  /**
   * Pressing and then releasing a key, in either letter case, leaves it not
   * held and every other key as it was; pressing it twice is pressing it once.
   */
  lemma PressThenRelease(keys: set<string>, press: KeyboardEvent, release: KeyboardEvent)
    requires IsPressed(press) && !IsPressed(release) && ToLower(press.key) == ToLower(release.key)
    ensures KeysAfter(KeysAfter(keys, press), release) == keys - {ToLower(press.key)}
    ensures KeysAfter(KeysAfter(keys, press), press) == KeysAfter(keys, press)
  {
    var once := KeysAfter(keys, press);
    var k := ToLower(press.key);
    assert KeysAfter(once, release) == once - {k};
    assert once == keys + {k};
  }

  /** What the system reads of the platformer's state: the field's width and its ground line. */
  datatype Field = Field(width: real, groundY: real)

  /** The right wall: the field's width less half a player, 800 without a field. */
  function RightBound(field: Option<Field>): real {
    if field.Some? then field.value.width - PlayerWidth / 2.0 else DefaultRightBound
  }

  /**
   * The sideways force a frame applies to a player at `x` that asks for `f`:
   * a hundredth of it, and only when it points away from the wall the player
   * has reached.
   */
  function Push(f: real, x: real, field: Option<Field>): (r: real)
    ensures r != 0.0 ==> r == f * ForceScale
    ensures r < 0.0 ==> x > PlayerWidth / 2.0
    ensures r > 0.0 ==> x < RightBound(field)
    ensures (f < 0.0 && x > PlayerWidth / 2.0) || (f > 0.0 && x < RightBound(field)) ==> r == f * ForceScale
  {
    if f != 0.0 && ((f < 0.0 && x > PlayerWidth / 2.0) || (f > 0.0 && x < RightBound(field))) then f * ForceScale
    else 0.0
  }

  /** What the system reads and writes of one player: its jump gate, its grounding and its body. */
  datatype PlayerView = PlayerView(
    canJump: bool, cooldown: real, maxCooldown: real, jumpForce: real, moveSpeed: real,
    grounded: bool, position: Vec2, force: Vec2)

  /** The player may jump: grounded, with the flag set and the cooldown run out. */
  predicate Ready(v: PlayerView) {
    v.grounded && v.canJump && v.cooldown <= 0.0
  }

  /** A jump: the jump force is applied upwards, the flag cleared and the cooldown restarted. */
  function JumpedView(v: PlayerView): (r: PlayerView)
    ensures !Ready(r) && r.grounded == v.grounded && r.position == v.position
  {
    v.(canJump := false, cooldown := v.maxCooldown, force := Add(v.force, Vec2(0.0, v.jumpForce)))
  }

  /**
   * One frame of one player: the cooldown counts down, the held keys push it
   * within the walls, it is grounded once it falls to within 100 of the
   * ground line, and a grounded player's jump gate reopens.
   */
  function PlayerStep(v: PlayerView, keys: set<string>, field: Option<Field>, dt: real): (r: PlayerView)
    ensures r.grounded <==> v.grounded || (field.Some? && v.position.y >= field.value.groundY - GroundMargin)
    ensures r.grounded ==> r.canJump
    ensures v.canJump ==> r.canJump
    ensures r.position == v.position && r.force.y == v.force.y
    ensures r.force.x == v.force.x + Push(HorizontalForce(keys, v.moveSpeed), v.position.x, field)
    ensures r.maxCooldown == v.maxCooldown && r.jumpForce == v.jumpForce && r.moveSpeed == v.moveSpeed
    ensures r.canJump == v.canJump ==> r.cooldown == CooledDown(v.cooldown, dt)
  {
    var cooled := CooledDown(v.cooldown, dt);
    var push := Push(HorizontalForce(keys, v.moveSpeed), v.position.x, field);
    var grounded := v.grounded || (field.Some? && v.position.y >= field.value.groundY - GroundMargin);
    var pushed := v.(cooldown := cooled, force := Add(v.force, Vec2(push, 0.0)), grounded := grounded);
    if grounded && !v.canJump then pushed.(canJump := true, cooldown := 0.0) else pushed
  }

  /** A grounded player that has had a frame may jump on the next one once its cooldown has run out. */
  lemma GroundedFrameReopensGate(v: PlayerView, keys: set<string>, field: Option<Field>, dt: real)
    requires PlayerStep(v, keys, field, dt).grounded
    ensures PlayerStep(v, keys, field, dt).canJump
    ensures !v.canJump ==> Ready(PlayerStep(v, keys, field, dt))
  {
  }

  /** Holding both directions pushes right, and at the right wall holding right pushes nowhere. */
  lemma RightWinsAndWallHolds(keys: set<string>, moveSpeed: real, x: real, field: Option<Field>)
    requires moveSpeed > 0.0
    ensures ("a" in keys && "d" in keys) ==> Push(HorizontalForce(keys, moveSpeed), x, field) >= 0.0
    ensures x >= RightBound(field) && "left" !in keys && "a" !in keys ==> Push(HorizontalForce(keys, moveSpeed), x, field) == 0.0
  {
  }

  /** The first entity of `es` that belongs to `s`. */
  function FirstIn(es: seq<nat>, s: set<nat>): (r: Option<nat>)
    ensures r.Some? ==> r.value in es && r.value in s
  {
    if es == [] then None
    else if es[0] in s then Some(es[0])
    else FirstIn(es[1..], s)
  }

  /** There is none exactly when no entity of `es` belongs to `s`; otherwise none before it does. */
  lemma {:induction false} FirstInIsFirst(es: seq<nat>, s: set<nat>)
    ensures FirstIn(es, s).None? <==> forall e :: e in es ==> e !in s
    ensures FirstIn(es, s).Some? ==> forall k :: 0 <= k < Seqs.IndexOf(es, FirstIn(es, s).value) ==> es[k] !in s
  {
    if es != [] && es[0] !in s {
      FirstInIsFirst(es[1..], s);
      assert forall e :: e in es ==> e == es[0] || e in es[1..];
      var r := FirstIn(es[1..], s);
      if r.Some? {
        assert Seqs.IndexOf(es, r.value) == Seqs.IndexOf(es[1..], r.value) + 1;
        forall k | 0 <= k < Seqs.IndexOf(es, r.value)
          ensures es[k] !in s
        {
          if k > 0 {
            assert es[k] == es[1..][k - 1];
          }
        }
      }
    }
  }

  /** The players of `views` that are ready to jump. */
  function ReadySet(views: map<nat, PlayerView>): (r: set<nat>)
    ensures forall e :: e in r <==> e in views && Ready(views[e])
  {
    set e | e in views && Ready(views[e])
  }

  /** What the system reads and writes of an animation component: the stored animations and the current one. */
  datatype AnimView = AnimView(animations: map<AnimationType, AnimationState>, current: Option<AnimationType>)

  /** A jump animation: a fresh 200 ms jump replaces the stored one and becomes the current one. */
  function JumpedAnim(a: AnimView): (r: AnimView)
    ensures r.current == Some(Jump) && Jump in r.animations
    ensures r.animations[Jump] == Started(Jump, JumpAnimationDuration)
    ensures forall t :: t != Jump ==> (t in r.animations <==> t in a.animations)
    ensures forall t :: t != Jump && t in a.animations ==> r.animations[t] == a.animations[t]
  {
    AnimView(a.animations[Jump := Started(Jump, JumpAnimationDuration)], Some(Jump))
  }

  /**
   * After a jump the jumper is not ready, so a second press before anything
   * else happens finds the next ready player, or none.
   */
  lemma {:induction false} SecondPressSkipsJumper(es: seq<nat>, views: map<nat, PlayerView>)
    requires FirstIn(es, ReadySet(views)).Some?
    ensures var j := FirstIn(es, ReadySet(views)).value;
      FirstIn(es, ReadySet(views[j := JumpedView(views[j])])) == FirstIn(es, ReadySet(views) - {j})
  {
    var j := FirstIn(es, ReadySet(views)).value;
    assert ReadySet(views[j := JumpedView(views[j])]) == ReadySet(views) - {j};
  }

  class PlayerInputSystem {
    const sys: System
    const componentManager: ComponentManager
    /** The entity holding the platformer's game state, once set. */
    var gameStateEntity: Option<nat>
    /** The keys held down, lower-cased. */
    var keysPressed: set<string>

    /**
     * The system requires a player and a physics body, holds no key and no
     * game state yet, and is subscribed as `listener` to key presses and
     * releases.
     */
    constructor(componentManager: ComponentManager, eventManager: EventManager, listener: ListenerId)
      requires eventManager.Valid()
      modifies eventManager
      ensures fresh(sys) && sys.Valid() && sys.name == "PlayerInputSystem" && sys.entities == []
      ensures sys.requiredComponents == [PlayerKey, PhysicsBodyKey] && sys.optionalComponents == []
      ensures this.componentManager == componentManager && gameStateEntity == None && keysPressed == {}
      ensures eventManager.Valid() && eventManager.queue == old(eventManager.queue)
      ensures eventManager.listeners == Subscribed(Subscribed(old(eventManager.listeners), KEY_PRESSED, listener), KEY_RELEASED, listener)
    {
      var s := new System("PlayerInputSystem");
      s.RegisterRequiredComponent(PlayerKey);
      s.RegisterRequiredComponent(PhysicsBodyKey);
      sys := s;
      this.componentManager := componentManager;
      gameStateEntity := None;
      keysPressed := {};
      eventManager.Subscribe(KEY_PRESSED, listener);
      eventManager.Subscribe(KEY_RELEASED, listener);
    }

    /** `setGameStateEntity` */
    method SetGameStateEntity(entity: nat)
      modifies this
      ensures gameStateEntity == Some(entity) && keysPressed == old(keysPressed)
    {
      gameStateEntity := Some(entity);
    }

    /** The view of a player through its player component and its physics component. */
    static ghost function View(p: PlayerComponent, pc: PhysicsBodyComponent): PlayerView
      reads p, pc, pc.body
    {
      PlayerView(p.canJump, p.jumpCooldown, p.maxJumpCooldown, p.jumpForce, p.moveSpeed,
        pc.isGrounded, pc.body.position, pc.body.force)
    }

    /** The player view of entity `e`, when it has both a player and a physics body. */
    ghost function ViewOf(e: nat): Option<PlayerView>
      reads componentManager, EntityObjects(e)
    {
      var p := componentManager.PlayerOf(e);
      var pc := componentManager.PhysicsBodyOf(e);
      if p.None? || pc.None? then None else Some(View(p.value, pc.value))
    }

    /** The objects `ViewOf(e)` reads: the player, the physics component and its body. */
    ghost function EntityObjects(e: nat): set<object>
      reads componentManager
    {
      (if componentManager.PlayerOf(e).Some? then {componentManager.PlayerOf(e).value} else {})
      + (if componentManager.PhysicsBodyOf(e).Some? then {componentManager.PhysicsBodyOf(e).value, componentManager.PhysicsBodyOf(e).value.body} else {})
    }

    /** The player components of the matched entities that also hold a physics body: the only players the system changes. */
    ghost function Players(): set<PlayerComponent>
      reads sys, componentManager
    {
      set e | e in sys.entities && componentManager.PlayerOf(e).Some? && componentManager.PhysicsBodyOf(e).Some?
        :: componentManager.PlayerOf(e).value
    }

    /** The physics body components of the matched entities that also hold a player. */
    ghost function PhysicsComponents(): set<PhysicsBodyComponent>
      reads sys, componentManager
    {
      set e | e in sys.entities && componentManager.PlayerOf(e).Some? && componentManager.PhysicsBodyOf(e).Some?
        :: componentManager.PhysicsBodyOf(e).value
    }

    /** The matter bodies of the matched entities that hold a player and a physics body: the only bodies the system changes. */
    ghost function Bodies(): set<Body>
      reads sys, componentManager
    {
      set e | e in sys.entities && componentManager.PlayerOf(e).Some? && componentManager.PhysicsBodyOf(e).Some?
        :: componentManager.PhysicsBodyOf(e).value.body
    }

    /** The players the system sees: every matched entity with a player and a physics body, by entity. */
    ghost function Views(): (r: map<nat, PlayerView>)
      reads sys, componentManager, Players(), PhysicsComponents(), Bodies()
      ensures forall e :: e in r <==> e in sys.entities && componentManager.PlayerOf(e).Some? && componentManager.PhysicsBodyOf(e).Some?
    {
      map e | e in sys.entities && componentManager.PlayerOf(e).Some? && componentManager.PhysicsBodyOf(e).Some?
        :: ViewOf(e).value
    }

    /** The animation component of entity `e`, as a frame. */
    ghost function AnimFrame(e: nat): set<AnimationComponent>
      reads componentManager
    {
      if componentManager.AnimationOf(e).Some? then {componentManager.AnimationOf(e).value} else {}
    }

    /** The animation state of entity `e`, when it has an animation component. */
    ghost function AnimOf(e: nat): Option<AnimView>
      reads componentManager, AnimFrame(e)
    {
      var an := componentManager.AnimationOf(e);
      if an.None? then None else Some(AnimView(an.value.animations, an.value.current))
    }

    /** The animation components of the matched entities. */
    ghost function AnimationComponents(): set<AnimationComponent>
      reads sys, componentManager
    {
      set e | e in sys.entities && componentManager.AnimationOf(e).Some? :: componentManager.AnimationOf(e).value
    }

    /** The animation states of the matched entities, by entity. */
    ghost function Anims(): (r: map<nat, AnimView>)
      reads sys, componentManager, AnimationComponents()
      ensures forall e :: e in r <==> e in sys.entities && AnimOf(e).Some?
    {
      map e | e in sys.entities && AnimOf(e).Some? :: AnimOf(e).value
    }

    /** No two matched entities share a matter body. */
    ghost predicate BodiesDistinct()
      reads sys, componentManager
    {
      forall e1, e2 :: e1 in sys.entities && e2 in sys.entities && e1 != e2
        && componentManager.PhysicsBodyOf(e1).Some? && componentManager.PhysicsBodyOf(e2).Some?
        ==> componentManager.PhysicsBodyOf(e1).value.body != componentManager.PhysicsBodyOf(e2).value.body
    }

    /** The game state component of the game state entity, when both are there. */
    function GameStateOf(): (r: Option<PhysicsGameStateComponent>)
      reads this`gameStateEntity, componentManager
      ensures r.Some? ==> gameStateEntity.Some?
    {
      if gameStateEntity.None? then None else componentManager.PhysicsGameStateOf(gameStateEntity.value)
    }

    /** The game state component, as a frame. */
    ghost function GameStates(): set<PhysicsGameStateComponent>
      reads this`gameStateEntity, componentManager
    {
      if GameStateOf().Some? then {GameStateOf().value} else {}
    }

    /** The field a game state gives: its width and its ground line. */
    static ghost function FieldFrom(gs: Option<PhysicsGameStateComponent>): Option<Field>
      reads if gs.Some? then {gs.value} else {}
    {
      if gs.None? then None else Some(Field(gs.value.gameWidth, gs.value.GetGroundY()))
    }

    /**
     * Between the earlier state and this one, `jumper` (if any) jumped and
     * nothing else happened: its view is the jumped one, its animation (if
     * it has one) is a fresh jump, the jump counter of `gs` went up by one;
     * every other player and animation, and the rest of `gs`, are as they
     * were.
     */
    twostate predicate Jumped(jumper: Option<nat>, gs: Option<PhysicsGameStateComponent>)
      requires unchanged(componentManager)
      reads sys, componentManager, Players(), PhysicsComponents(), Bodies(), AnimationComponents()
      reads if gs.Some? then {gs.value} else {}
    {
      (gs.Some? ==>
        var g := gs.value;
        g.playerJumps == old(g.playerJumps) + (if jumper.Some? then 1 else 0)
        && g.score == old(g.score) && g.boxesRemaining == old(g.boxesRemaining)
        && g.isGameRunning == old(g.isGameRunning) && g.gameWidth == old(g.gameWidth)
        && g.gameHeight == old(g.gameHeight) && g.groundHeight == old(g.groundHeight))
      && (forall x :: x in sys.entities && old(ViewOf(x)).Some? ==>
        ViewOf(x) == Some(if jumper == Some(x) then JumpedView(old(ViewOf(x)).value) else old(ViewOf(x)).value))
      && (forall x :: x in sys.entities && old(AnimOf(x)).Some? ==>
        AnimOf(x) == Some(if jumper == Some(x) then JumpedAnim(old(AnimOf(x)).value) else old(AnimOf(x)).value))
    }

    /**
     * `handleJumpInput`: the first matched entity that is grounded and may
     * jump jumps, and the search stops there.
     */
    method HandleJumpInput(gameState: PhysicsGameStateComponent) returns (ghost jumper: Option<nat>)
      requires componentManager.Valid() && BodiesDistinct()
      modifies Players(), Bodies(), AnimationComponents(), gameState
      ensures jumper == old(FirstIn(sys.entities, ReadySet(Views())))
      ensures Jumped(jumper, Some(gameState))
    {
      var es := sys.entities;
      ghost var ready := ReadySet(Views());
      var i := 0;
      while i < |es|
        invariant 0 <= i <= |es|
        invariant FirstIn(es, ready) == FirstIn(es[i..], ready)
      {
        var e := es[i];
        var player := componentManager.PlayerOf(e);
        var physicsBody := componentManager.PhysicsBodyOf(e);
        if player.Some? && physicsBody.Some? && physicsBody.value.IsOnGround() && player.value.CanPerformJump() {
          assert e in ready;
          JumpOf(e, gameState);
          return Some(e);
        }
        assert e !in ready;
        assert es[i..][1..] == es[i + 1..];
        i := i + 1;
      }
      return None;
    }

    /** The jump of entity `e`, which leaves every other player and animation as it was. */
    method JumpOf(e: nat, gameState: PhysicsGameStateComponent)
      requires componentManager.Valid() && BodiesDistinct()
      requires e in sys.entities && ViewOf(e).Some? && Ready(ViewOf(e).value)
      modifies Players(), Bodies(), AnimationComponents(), gameState
      ensures Jumped(Some(e), Some(gameState))
    {
      var player := componentManager.PlayerOf(e).value;
      var body := componentManager.PhysicsBodyOf(e).value.body;
      var animation := componentManager.AnimationOf(e);
      PerformJumpOf(e, gameState);
      forall x | x in sys.entities && x != e && old(ViewOf(x)).Some?
        ensures ViewOf(x) == old(ViewOf(x))
      {
        assert componentManager.PlayerOf(x).value != player;
        assert componentManager.PhysicsBodyOf(x).value.body != body;
      }
      forall x | x in sys.entities && x != e && old(AnimOf(x)).Some?
        ensures AnimOf(x) == old(AnimOf(x))
      {
        assert componentManager.AnimationOf(x) != animation;
      }
    }

    /**
     * The effect of a jump on entity `e`: the jump force applied to its
     * body, its jump gate closed, the game's jump counter incremented and,
     * with an animation component, a 200 ms jump animation started.
     */
    method PerformJumpOf(e: nat, gameState: PhysicsGameStateComponent)
      requires componentManager.Valid()
      requires ViewOf(e).Some? && Ready(ViewOf(e).value)
      modifies componentManager.PlayerOf(e).value, componentManager.PhysicsBodyOf(e).value.body, AnimFrame(e), gameState
      ensures ViewOf(e) == Some(JumpedView(old(ViewOf(e)).value))
      ensures AnimOf(e) == if old(AnimOf(e)).None? then None else Some(JumpedAnim(old(AnimOf(e)).value))
      ensures gameState.playerJumps == old(gameState.playerJumps) + 1
      ensures gameState.score == old(gameState.score) && gameState.boxesRemaining == old(gameState.boxesRemaining)
      ensures gameState.isGameRunning == old(gameState.isGameRunning) && gameState.gameWidth == old(gameState.gameWidth)
      ensures gameState.gameHeight == old(gameState.gameHeight) && gameState.groundHeight == old(gameState.groundHeight)
    {
      var player := componentManager.PlayerOf(e).value;
      var physicsBody := componentManager.PhysicsBodyOf(e).value;
      var animation := componentManager.AnimationOf(e);
      physicsBody.body.ApplyForce(Vec2(0.0, player.jumpForce));
      player.PerformJump();
      gameState.IncrementJumps();
      if animation.Some? {
        animation.value.StartJumpAnimation(JumpAnimationDuration);
      }
    }

    /** The player a press of `key` makes jump: none unless the game runs and `key` is a jump key. */
    ghost function PressTarget(key: string): (r: Option<nat>)
      reads this`gameStateEntity, sys, componentManager, Players(), PhysicsComponents(), Bodies(), GameStates()
      ensures r.Some? ==> IsJumpKey(key) && GameStateOf().Some? && GameStateOf().value.isGameRunning
    {
      if GameStateOf().Some? && GameStateOf().value.isGameRunning && IsJumpKey(key)
      then FirstIn(sys.entities, ReadySet(Views())) else None
    }

    /**
     * `handleKeyPress`: without a game state entity, a game state component
     * or a running game nothing happens; otherwise a jump key makes the
     * first ready player jump.
     */
    method HandleKeyPress(key: string) returns (ghost jumper: Option<nat>)
      requires componentManager.Valid() && BodiesDistinct()
      modifies Players(), Bodies(), AnimationComponents(), GameStates()
      ensures jumper == old(PressTarget(key))
      ensures Jumped(jumper, GameStateOf())
    {
      if gameStateEntity.None? {
        return None;
      }
      var gameState := componentManager.PhysicsGameStateOf(gameStateEntity.value);
      if gameState.None? || !gameState.value.isGameRunning {
        return None;
      }
      if IsJumpKey(key) {
        jumper := HandleJumpInput(gameState.value);
      } else {
        jumper := None;
      }
    }

    /**
     * `handleEvent`: a key press adds its lower-cased key to the held ones
     * and is handled as a press; any other keyboard event removes its key;
     * other events are ignored.
     */
    method HandleEvent(event: Event) returns (ghost jumper: Option<nat>)
      requires componentManager.Valid() && BodiesDistinct()
      modifies this, Players(), Bodies(), AnimationComponents(), GameStates()
      ensures gameStateEntity == old(gameStateEntity)
      ensures keysPressed == if event.Keyboard? then KeysAfter(old(keysPressed), event.k) else old(keysPressed)
      ensures jumper == if event.Keyboard? && IsPressed(event.k) then old(PressTarget(ToLower(event.k.key))) else None
      ensures Jumped(jumper, GameStateOf())
    {
      jumper := None;
      if event.Keyboard? {
        var normalizedKey := ToLower(event.k.key);
        if IsPressed(event.k) {
          jumper := Press(normalizedKey);
        } else {
          keysPressed := keysPressed - {normalizedKey};
        }
      }
    }

    /** A key press: the key is held from now on and handled by `handleKeyPress`. */
    method Press(key: string) returns (ghost jumper: Option<nat>)
      requires componentManager.Valid() && BodiesDistinct()
      modifies this, Players(), Bodies(), AnimationComponents(), GameStates()
      ensures gameStateEntity == old(gameStateEntity) && keysPressed == old(keysPressed) + {key}
      ensures jumper == old(PressTarget(key))
      ensures Jumped(jumper, GameStateOf())
    {
      keysPressed := keysPressed + {key};
      ComponentsKept(key);
      jumper := HandleKeyPress(key);
    }

    /**
     * A change that leaves the component store, the game state entity and
     * every component the system may touch as they were changes nothing the
     * system sees.
     */
    twostate lemma ComponentsKept(key: string)
      requires unchanged(sys, componentManager) && unchanged(this`gameStateEntity)
      requires unchanged(old(Players()), old(PhysicsComponents()), old(Bodies()))
      requires unchanged(old(AnimationComponents()), old(GameStates()))
      ensures Players() == old(Players()) && PhysicsComponents() == old(PhysicsComponents()) && Bodies() == old(Bodies())
      ensures AnimationComponents() == old(AnimationComponents()) && GameStates() == old(GameStates())
      ensures Views() == old(Views())
      ensures forall x :: x in sys.entities ==> ViewOf(x) == old(ViewOf(x)) && AnimOf(x) == old(AnimOf(x))
      ensures PressTarget(key) == old(PressTarget(key))
    {
      assert Players() == old(Players()) && PhysicsComponents() == old(PhysicsComponents()) && Bodies() == old(Bodies());
      assert Views() == old(Views());
    }

    /**
     * `update`, one frame: every matched entity with a player and a physics
     * body, in order, goes through `PlayerStep` with the held keys and the
     * field of the game state. Without a game state entity the first such
     * player has its cooldown counted down and then the frame fails (the
     * lookup of the game state dereferences a null entity), which the model
     * returns as `threw`; the players after it are not reached.
     */
    method Update(deltaTime: real) returns (threw: bool)
      requires componentManager.Valid() && sys.Valid() && BodiesDistinct()
      modifies Players(), PhysicsComponents(), Bodies()
      ensures threw <==> gameStateEntity.None? && old(Views()) != map[]
      ensures !threw ==> forall e :: e in old(Views()) ==>
        ViewOf(e) == Some(PlayerStep(old(Views())[e], keysPressed, FieldFrom(GameStateOf()), deltaTime))
      ensures threw ==> FirstIn(sys.entities, old(Views()).Keys).Some?
      ensures threw ==> forall e :: e in old(Views()) ==>
        ViewOf(e) == Some(if Some(e) == FirstIn(sys.entities, old(Views()).Keys)
          then old(Views())[e].(cooldown := CooledDown(old(Views())[e].cooldown, deltaTime)) else old(Views())[e])
    {
      var es := sys.entities;
      ghost var start := Views();
      ghost var field := FieldFrom(GameStateOf());
      for i := 0 to |es|
        invariant SteppedUpTo(i, start, field, deltaTime) && FieldFrom(GameStateOf()) == field
        invariant gameStateEntity.None? ==> forall k :: 0 <= k < i ==> es[k] !in start
        invariant gameStateEntity.None? ==> FirstIn(es, start.Keys) == FirstIn(es[i..], start.Keys)
      {
        var failed := FrameStep(i, start, field, deltaTime);
        if failed {
          assert es[i..][0] == es[i];
          assert FirstIn(es, start.Keys) == Some(es[i]);
          return true;
        }
        assert es[i..][1..] == es[i + 1..];
      }
      FirstInIsFirst(es, start.Keys);
      AllStepped(start, field, deltaTime);
      threw := false;
    }

    /**
     * Players 0 to `i` - 1 of the matched entities have had their frame, the
     * others not yet: the progress of `update` against the views `start` it
     * began from.
     */
    ghost predicate SteppedUpTo(i: nat, start: map<nat, PlayerView>, field: Option<Field>, deltaTime: real)
      reads this`keysPressed, sys, componentManager, Players(), PhysicsComponents(), Bodies()
    {
      (forall e :: e in start <==>
        e in sys.entities && componentManager.PlayerOf(e).Some? && componentManager.PhysicsBodyOf(e).Some?)
      && forall k :: 0 <= k < |sys.entities| && sys.entities[k] in start ==>
        ViewOf(sys.entities[k]) == Some(if k < i then PlayerStep(start[sys.entities[k]], keysPressed, field, deltaTime)
          else start[sys.entities[k]])
    }

    /**
     * The body of `update`'s loop for the `i`-th matched entity: nothing
     * without a player or a body; otherwise its frame, or, without a game
     * state entity, the cooldown and then the failure.
     */
    method FrameStep(i: nat, ghost start: map<nat, PlayerView>, ghost field: Option<Field>, deltaTime: real)
      returns (failed: bool)
      requires componentManager.Valid() && sys.Valid() && BodiesDistinct()
      requires i < |sys.entities|
      requires field == FieldFrom(GameStateOf()) && SteppedUpTo(i, start, field, deltaTime)
      requires gameStateEntity.None? ==> forall k :: 0 <= k < i ==> sys.entities[k] !in start
      modifies Players(), PhysicsComponents(), Bodies()
      ensures failed <==> gameStateEntity.None? && sys.entities[i] in start
      ensures !failed ==> field == FieldFrom(GameStateOf()) && SteppedUpTo(i + 1, start, field, deltaTime)
      ensures !failed && gameStateEntity.None? ==> forall k :: 0 <= k <= i ==> sys.entities[k] !in start
      ensures failed ==> forall e :: e in start ==>
        ViewOf(e) == Some(if e == sys.entities[i] then start[e].(cooldown := CooledDown(start[e].cooldown, deltaTime)) else start[e])
    {
      var e := sys.entities[i];
      var player := componentManager.PlayerOf(e);
      var physicsBody := componentManager.PhysicsBodyOf(e);
      if player.Some? && physicsBody.Some? {
        if gameStateEntity.None? {
          CooldownThenThrow(i, start, deltaTime);
          return true;
        }
        UpdateStep(i, start, field, deltaTime);
      } else {
        Skipped(i, start, field, deltaTime);
      }
      return false;
    }

    /** A matched entity without a player or a body is passed over. */
    lemma Skipped(i: nat, start: map<nat, PlayerView>, field: Option<Field>, deltaTime: real)
      requires i < |sys.entities| && SteppedUpTo(i, start, field, deltaTime)
      requires componentManager.PlayerOf(sys.entities[i]).None? || componentManager.PhysicsBodyOf(sys.entities[i]).None?
      ensures sys.entities[i] !in start && SteppedUpTo(i + 1, start, field, deltaTime)
    {
    }

    /** Once every matched entity has had its frame, every player of `start` has had exactly one step. */
    lemma AllStepped(start: map<nat, PlayerView>, field: Option<Field>, deltaTime: real)
      requires SteppedUpTo(|sys.entities|, start, field, deltaTime)
      ensures forall e :: e in start ==> ViewOf(e) == Some(PlayerStep(start[e], keysPressed, field, deltaTime))
    {
      forall e | e in start
        ensures ViewOf(e) == Some(PlayerStep(start[e], keysPressed, field, deltaTime))
      {
        var k := Seqs.IndexOf(sys.entities, e);
      }
    }

    /** The frame of the `i`-th matched entity, a player, which leaves every other player as it was. */
    method UpdateStep(i: nat, ghost start: map<nat, PlayerView>, ghost field: Option<Field>, deltaTime: real)
      requires componentManager.Valid() && sys.Valid() && BodiesDistinct() && gameStateEntity.Some?
      requires i < |sys.entities| && sys.entities[i] in start
      requires field == FieldFrom(GameStateOf()) && SteppedUpTo(i, start, field, deltaTime)
      modifies Players(), PhysicsComponents(), Bodies()
      ensures field == FieldFrom(GameStateOf()) && SteppedUpTo(i + 1, start, field, deltaTime)
    {
      var es := sys.entities;
      var e := es[i];
      var player := componentManager.PlayerOf(e).value;
      var physicsBody := componentManager.PhysicsBodyOf(e).value;
      UpdatePlayer(player, physicsBody, deltaTime);
      forall k | 0 <= k < |es| && es[k] in start && k != i
        ensures ViewOf(es[k]) == old(ViewOf(es[k]))
      {
        assert es[k] != e;
        assert componentManager.PlayerOf(es[k]).value != player;
        assert componentManager.PhysicsBodyOf(es[k]).value != physicsBody;
        assert componentManager.PhysicsBodyOf(es[k]).value.body != physicsBody.body;
      }
    }

    /**
     * The `i`-th matched entity, the first player, has its cooldown counted
     * down before the frame fails; every other player is as it was.
     */
    method CooldownThenThrow(i: nat, ghost start: map<nat, PlayerView>, deltaTime: real)
      requires componentManager.Valid() && sys.Valid()
      requires i < |sys.entities| && sys.entities[i] in start
      requires SteppedUpTo(i, start, None, deltaTime)
      requires forall k :: 0 <= k < i ==> sys.entities[k] !in start
      modifies Players()
      ensures forall e :: e in start ==>
        ViewOf(e) == Some(if e == sys.entities[i] then start[e].(cooldown := CooledDown(start[e].cooldown, deltaTime)) else start[e])
    {
      var es := sys.entities;
      var e := es[i];
      var player := componentManager.PlayerOf(e).value;
      player.UpdateCooldown(deltaTime);
      forall x | x in start
        ensures ViewOf(x) == Some(if x == e then start[x].(cooldown := CooledDown(start[x].cooldown, deltaTime)) else start[x])
      {
        var k := Seqs.IndexOf(es, x);
        if x != e {
          assert componentManager.PlayerOf(x).value != player;
        }
      }
    }

    /**
     * The frame of one player (the body of `update`'s loop): the cooldown
     * counts down, a held direction pushes it unless it is at that wall, it
     * is grounded within 100 of the ground line, and once grounded its jump
     * gate reopens.
     */
    method UpdatePlayer(player: PlayerComponent, physicsBody: PhysicsBodyComponent, deltaTime: real)
      requires gameStateEntity.Some?
      modifies player, physicsBody, physicsBody.body
      ensures View(player, physicsBody) == PlayerStep(old(View(player, physicsBody)), keysPressed, FieldFrom(GameStateOf()), deltaTime)
    {
      player.UpdateCooldown(deltaTime);
      Move(player, physicsBody.body);
      FallbackGrounding(physicsBody);
      if physicsBody.IsOnGround() && !player.canJump {
        player.ResetJump();
      }
    }

    /** The held direction pushes the player with a hundredth of its move speed, unless it is at that wall. */
    method Move(player: PlayerComponent, body: Body)
      requires gameStateEntity.Some?
      modifies body
      ensures body.force == Add(old(body.force), Vec2(Push(HorizontalForce(keysPressed, player.moveSpeed), body.position.x, FieldFrom(GameStateOf())), 0.0))
      ensures body.position == old(body.position)
    {
      var horizontalForce := 0.0;
      if "a" in keysPressed || "left" in keysPressed {
        horizontalForce := -player.moveSpeed;
      }
      if "d" in keysPressed || "right" in keysPressed {
        horizontalForce := player.moveSpeed;
      }
      if horizontalForce != 0.0 {
        var gameState := componentManager.PhysicsGameStateOf(gameStateEntity.value);
        var playerX := body.position.x;
        var leftBound := PlayerWidth / 2.0;
        var rightBound := if gameState.Some? then gameState.value.gameWidth - PlayerWidth / 2.0 else DefaultRightBound;
        var canMoveLeft := horizontalForce < 0.0 && playerX > leftBound;
        var canMoveRight := horizontalForce > 0.0 && playerX < rightBound;
        if canMoveLeft || canMoveRight {
          body.ApplyForce(Vec2(horizontalForce * ForceScale, 0.0));
          return;
        }
      }
      assert body.force == Add(body.force, Vec2(0.0, 0.0));
    }

    /** With a game state, a player that is not grounded is grounded once it is within 100 of the ground line. */
    method FallbackGrounding(physicsBody: PhysicsBodyComponent)
      requires gameStateEntity.Some?
      modifies physicsBody
      ensures physicsBody.isGrounded <==>
        old(physicsBody.isGrounded) || (FieldFrom(GameStateOf()).Some? && physicsBody.body.position.y >= FieldFrom(GameStateOf()).value.groundY - GroundMargin)
    {
      var gameState := componentManager.PhysicsGameStateOf(gameStateEntity.value);
      if gameState.Some? && !physicsBody.IsOnGround() {
        var groundY := gameState.value.GetGroundY();
        var playerY := physicsBody.body.position.y;
        if playerY >= groundY - GroundMargin {
          physicsBody.SetGrounded(true);
        }
      }
    }
  }
}
