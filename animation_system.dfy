/**
 * The animation system (src/game/physicsGame/systems/AnimationSystem.ts):
 * every frame, each matched entity's animation advances by one update.
 */
module AnimationSystems {
  import opened Wrappers
  import opened Seqs
  import opened Components
  import opened ComponentStore
  import opened Systems
  import opened Animations

  class AnimationSystem {
    const sys: System
    const componentManager: ComponentManager

    /** The system requires exactly the animation component and has matched nothing yet. */
    constructor(componentManager: ComponentManager)
      ensures fresh(sys) && sys.Valid() && sys.name == "AnimationSystem"
      ensures sys.requiredComponents == [AnimationKey] && sys.optionalComponents == [] && sys.entities == []
      ensures this.componentManager == componentManager
    {
      var s := new System("AnimationSystem");
      s.RegisterRequiredComponent(AnimationKey);
      sys := s;
      this.componentManager := componentManager;
    }

    /** The animation components of the matched entities: what an update may change. */
    ghost function Animated(): set<AnimationComponent>
      reads this, sys, componentManager
    {
      set e | e in sys.entities && componentManager.AnimationOf(e).Some? :: componentManager.AnimationOf(e).value
    }

    /** Every matched entity's animation, where it has one, is in a consistent state. */
    ghost predicate AnimationsValid()
      reads this, sys, componentManager, Animated()
    {
      forall e :: e in sys.entities && componentManager.AnimationOf(e).Some? ==> componentManager.AnimationOf(e).value.Valid()
    }

    /**
     * `update`: each matched entity that has an animation component gets
     * exactly one `updateAnimation(deltaTime)`; a matched entity without one
     * is skipped, and the matched set is left as it is.
     */
    method Update(deltaTime: real, sinPi: real -> real)
      requires componentManager.Valid() && sys.Valid() && AnimationsValid()
      modifies Animated()
      ensures AnimationsValid()
      ensures forall e :: e in sys.entities && componentManager.AnimationOf(e).Some? ==>
        var a := componentManager.AnimationOf(e).value;
        (a.animations, a.current) == AfterUpdate(old(a.animations), old(a.current), deltaTime, sinPi)
    {
      var ss := sys.entities;
      var cm := componentManager;
      for i := 0 to |ss|
        invariant forall k :: 0 <= k < |ss| && cm.AnimationOf(ss[k]).Some? ==>
          var a := cm.AnimationOf(ss[k]).value;
          a.Valid()
          && (k < i ==> (a.animations, a.current) == AfterUpdate(old(a.animations), old(a.current), deltaTime, sinPi))
          && (k >= i ==> a.animations == old(a.animations) && a.current == old(a.current))
      {
        var a := cm.AnimationOf(ss[i]);
        if a.Some? {
          a.value.UpdateAnimation(deltaTime, sinPi);
        }
      }
    }
  }
}
