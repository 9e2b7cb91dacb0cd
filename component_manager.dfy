/**
 * The component store (src/game/ecs/ComponentManager.ts): for each entity
 * id, a map from component type to the one component of that type the
 * entity holds. The store calls no system; keeping the systems' matched
 * sets up to date is the caller's job (see module EcsProtocol).
 */
module ComponentStore {
  import opened Wrappers
  import opened Components
  import Transforms
  import PhysicsBodies
  import Players
  import PhysicsGameState
  import Animations
  import RhythmGameState
  import HitLines
  import RhythmNotes

  /** In `components`, `entity` holds a component of every listed type. */
  ghost predicate HasAll(components: map<nat, map<ComponentType, Component>>, entity: nat, required: seq<ComponentType>) {
    forall t :: t in required ==> entity in components && t in components[entity]
  }

  /** Whether an entity holds every listed type depends only on which types it holds. */
  lemma HasAllSameTypes(a: map<nat, map<ComponentType, Component>>, b: map<nat, map<ComponentType, Component>>, entity: nat, required: seq<ComponentType>)
    requires entity in a <==> entity in b
    requires entity in a ==> a[entity].Keys == b[entity].Keys
    ensures HasAll(a, entity, required) <==> HasAll(b, entity, required)
  {
  }

  /** An entity that gains types keeps every match it had. */
  lemma HasAllMoreTypes(a: map<nat, map<ComponentType, Component>>, b: map<nat, map<ComponentType, Component>>, entity: nat, required: seq<ComponentType>)
    requires entity in a ==> entity in b && a[entity].Keys <= b[entity].Keys
    ensures HasAll(a, entity, required) ==> HasAll(b, entity, required)
  {
  }

  /** The store after `removeComponent(entity, t)`: the entry goes if it was there; nothing else changes. */
  function Without(components: map<nat, map<ComponentType, Component>>, entity: nat, t: ComponentType): (r: map<nat, map<ComponentType, Component>>)
    ensures r.Keys == components.Keys
    ensures forall e :: e in r && e != entity ==> r[e] == components[e]
    ensures entity in r ==> r[entity] == components[entity] - {t}
  {
    if entity in components && t in components[entity] then components[entity := components[entity] - {t}] else components
  }

  /** What `entity` holds in `components`; nothing for an entity the store has never seen. */
  function Held(components: map<nat, map<ComponentType, Component>>, entity: nat): map<ComponentType, Component> {
    if entity in components then components[entity] else map[]
  }

  class ComponentManager {
    var components: map<nat, map<ComponentType, Component>>
    /** Every `onAdd` and `onRemove` call made so far, oldest first. */
    var hooks: seq<Hook>

    /** Each stored component sits under its own type and under the entity it was created for. */
    ghost predicate Valid()
      reads this
    {
      forall e :: e in components ==>
        forall t :: t in components[e] ==> TypeOf(components[e][t]) == t && Owner(components[e][t]) == e
    }

    constructor()
      ensures Valid() && components == map[] && hooks == []
    {
      components := map[];
      hooks := [];
    }

    /** The components of `entity`, empty for an entity the store has never seen. */
    function EntityMap(entity: nat): map<ComponentType, Component>
      reads this
    {
      Held(components, entity)
    }

    /** `hasComponent` */
    predicate HasComponent(entity: nat, t: ComponentType)
      reads this
    {
      entity in components && t in components[entity]
    }

    /**
     * `getComponent`: defined exactly when `hasComponent` holds, never for an
     * entity the store has not seen, and then a component of type `t`
     * created for `entity`.
     */
    function GetComponent(entity: nat, t: ComponentType): (r: Option<Component>)
      reads this
      ensures r.Some? <==> HasComponent(entity, t)
      ensures entity !in components ==> r.None?
      ensures Valid() && r.Some? ==> TypeOf(r.value) == t && Owner(r.value) == entity
    {
      if entity in components && t in components[entity] then Some(components[entity][t]) else None
    }

    /**
     * `addComponent`: the component replaces any of its type the entity held,
     * gets its one `onAdd` call, and is returned; nothing else changes.
     * The source does not check that the component was created for
     * `entity`; every caller passes its own entity, which is required here.
     */
    method AddComponent(entity: nat, component: Component) returns (r: Component)
      requires Valid() && Owner(component) == entity
      modifies this
      ensures Valid() && r == component
      ensures components == old(components)[entity := old(EntityMap(entity))[TypeOf(component) := component]]
      ensures hooks == old(hooks) + [OnAdd(component)]
      ensures GetComponent(entity, TypeOf(component)) == Some(component)
      ensures forall t :: t != TypeOf(component) ==> GetComponent(entity, t) == old(GetComponent(entity, t))
      ensures forall e, t :: e != entity ==> GetComponent(e, t) == old(GetComponent(e, t))
    {
      var entityComponents := EntityMap(entity);
      components := components[entity := entityComponents[TypeOf(component) := component]];
      hooks := hooks + [OnAdd(component)];
      r := component;
    }

    /**
     * `removeComponent`: when the entity holds a component of type `t`, that
     * component gets its `onRemove` call and leaves the store; otherwise
     * nothing happens. No other entity or type is touched.
     */
    method RemoveComponent(entity: nat, t: ComponentType)
      requires Valid()
      modifies this
      ensures Valid() && !HasComponent(entity, t)
      ensures components == Without(old(components), entity, t)
      ensures old(HasComponent(entity, t)) ==>
        components == old(components)[entity := old(components[entity]) - {t}]
        && hooks == old(hooks) + [OnRemove(old(components[entity][t]))]
      ensures !old(HasComponent(entity, t)) ==> components == old(components) && hooks == old(hooks)
    {
      if entity !in components {
        return;
      }
      var entityComponents := components[entity];
      if t in entityComponents {
        hooks := hooks + [OnRemove(entityComponents[t])];
        components := components[entity := entityComponents - {t}];
      }
    }

    /**
     * `removeAllComponents`: every component the entity held gets one
     * `onRemove` call, then the entity's entry goes; other entities keep
     * theirs.
     */
    method RemoveAllComponents(entity: nat)
      requires Valid()
      modifies this
      ensures Valid()
      ensures components == old(components) - {entity}
      ensures forall t :: !HasComponent(entity, t)
      ensures GetEntityComponents(entity) == {}
      ensures |hooks| == |old(hooks)| + |old(EntityMap(entity))| && hooks[..|old(hooks)|] == old(hooks)
      ensures forall h :: h in hooks[|old(hooks)|..] ==> h.OnRemove? && h.removed in old(EntityMap(entity)).Values
      ensures forall t :: t in old(EntityMap(entity)) ==> OnRemove(old(EntityMap(entity))[t]) in hooks[|old(hooks)|..]
    {
      if entity !in components {
        return;
      }
      CallOnRemove(components[entity]);
      components := components - {entity};
    }

    /**
     * Since the old state, the hook log has grown by exactly one `onRemove`
     * call for each component of `m`, and by nothing else.
     */
    twostate predicate LoggedRemovals(m: map<ComponentType, Component>)
      reads this
    {
      |hooks| == |old(hooks)| + |m| && hooks[..|old(hooks)|] == old(hooks)
      && (forall h :: h in hooks[|old(hooks)|..] ==> h.OnRemove? && h.removed in m.Values)
      && (forall t :: t in m ==> OnRemove(m[t]) in hooks[|old(hooks)|..])
    }

    /** The loop of `removeAllComponents`: one `onRemove` call per component of `m`, in no particular order. */
    method CallOnRemove(m: map<ComponentType, Component>)
      modifies this
      ensures components == old(components)
      ensures |hooks| == |old(hooks)| + |m| && hooks[..|old(hooks)|] == old(hooks)
      ensures forall h :: h in hooks[|old(hooks)|..] ==> h.OnRemove? && h.removed in m.Values
      ensures forall t :: t in m ==> OnRemove(m[t]) in hooks[|old(hooks)|..]
    {
      var pending := m.Keys;
      ghost var done: set<ComponentType> := {};
      var calls: seq<Hook> := [];
      ghost var order: seq<ComponentType> := [];
      while pending != {}
        invariant pending + done == m.Keys && pending !! done
        invariant |calls| == |done| == |order|
        invariant forall i :: 0 <= i < |order| ==> order[i] in m && calls[i] == OnRemove(m[order[i]])
        invariant forall t :: t in done ==> OnRemove(m[t]) in calls
        decreases pending
      {
        var t :| t in pending;
        calls := calls + [OnRemove(m[t])];
        order := order + [t];
        pending := pending - {t};
        done := done + {t};
      }
      RemovalsOfValues(m, calls, order);
      assert done == m.Keys;
      assert |m| == |m.Keys|;
      hooks := hooks + calls;
      assert hooks[|old(hooks)|..] == calls;
    }

    /** Calls made one per listed key are calls on values of the map. */
    static lemma RemovalsOfValues(m: map<ComponentType, Component>, calls: seq<Hook>, order: seq<ComponentType>)
      requires |calls| == |order|
      requires forall i :: 0 <= i < |order| ==> order[i] in m && calls[i] == OnRemove(m[order[i]])
      ensures forall h :: h in calls ==> h.OnRemove? && h.removed in m.Values
    {
      forall h | h in calls
        ensures h.OnRemove? && h.removed in m.Values
      {
        var i :| 0 <= i < |calls| && calls[i] == h;
        assert m[order[i]] in m.Values;
      }
    }

    /** `getComponent(entity, Transform)`: the stored component of that class, present exactly when `hasComponent` holds in a valid store and then created for `entity`. */
    function TransformOf(entity: nat): (r: Option<Transforms.Transform>)
      reads this
      ensures r.Some? ==> GetComponent(entity, TransformKey) == Some(TransformC(r.value))
      ensures Valid() ==> (r.Some? <==> HasComponent(entity, TransformKey))
      ensures Valid() && r.Some? ==> r.value.entity == entity
    {
      if entity in components && TransformKey in components[entity] && components[entity][TransformKey].TransformC?
      then Some(components[entity][TransformKey].transform)
      else None
    }

    /** `getComponent(entity, PhysicsBodyComponent)` */
    function PhysicsBodyOf(entity: nat): (r: Option<PhysicsBodies.PhysicsBodyComponent>)
      reads this
      ensures r.Some? ==> GetComponent(entity, PhysicsBodyKey) == Some(PhysicsBodyC(r.value))
      ensures Valid() ==> (r.Some? <==> HasComponent(entity, PhysicsBodyKey))
      ensures Valid() && r.Some? ==> r.value.entity == entity
    {
      if entity in components && PhysicsBodyKey in components[entity] && components[entity][PhysicsBodyKey].PhysicsBodyC?
      then Some(components[entity][PhysicsBodyKey].physicsBody)
      else None
    }

    /** `getComponent(entity, PlayerComponent)` */
    function PlayerOf(entity: nat): (r: Option<Players.PlayerComponent>)
      reads this
      ensures r.Some? ==> GetComponent(entity, PlayerKey) == Some(PlayerC(r.value))
      ensures Valid() ==> (r.Some? <==> HasComponent(entity, PlayerKey))
      ensures Valid() && r.Some? ==> r.value.entity == entity
    {
      if entity in components && PlayerKey in components[entity] && components[entity][PlayerKey].PlayerC?
      then Some(components[entity][PlayerKey].player)
      else None
    }

    /** `getComponent(entity, PhysicsGameStateComponent)` */
    function PhysicsGameStateOf(entity: nat): (r: Option<PhysicsGameState.PhysicsGameStateComponent>)
      reads this
      ensures r.Some? ==> GetComponent(entity, PhysicsGameStateKey) == Some(PhysicsGameStateC(r.value))
      ensures Valid() ==> (r.Some? <==> HasComponent(entity, PhysicsGameStateKey))
      ensures Valid() && r.Some? ==> r.value.entity == entity
    {
      if entity in components && PhysicsGameStateKey in components[entity] && components[entity][PhysicsGameStateKey].PhysicsGameStateC?
      then Some(components[entity][PhysicsGameStateKey].physicsState)
      else None
    }

    /** `getComponent(entity, AnimationComponent)` */
    function AnimationOf(entity: nat): (r: Option<Animations.AnimationComponent>)
      reads this
      ensures r.Some? ==> GetComponent(entity, AnimationKey) == Some(AnimationC(r.value))
      ensures Valid() ==> (r.Some? <==> HasComponent(entity, AnimationKey))
      ensures Valid() && r.Some? ==> r.value.entity == entity
    {
      if entity in components && AnimationKey in components[entity] && components[entity][AnimationKey].AnimationC?
      then Some(components[entity][AnimationKey].animation)
      else None
    }

    /** `getComponent(entity, RhythmGameStateComponent)` */
    function RhythmGameStateComponentOf(entity: nat): (r: Option<RhythmGameState.RhythmGameStateComponent>)
      reads this
      ensures r.Some? ==> GetComponent(entity, RhythmGameStateComponentKey) == Some(RhythmGameStateComponentC(r.value))
      ensures Valid() ==> (r.Some? <==> HasComponent(entity, RhythmGameStateComponentKey))
      ensures Valid() && r.Some? ==> r.value.entity == entity
    {
      if entity in components && RhythmGameStateComponentKey in components[entity] && components[entity][RhythmGameStateComponentKey].RhythmGameStateComponentC?
      then Some(components[entity][RhythmGameStateComponentKey].rhythmState)
      else None
    }

    /** `getComponent(entity, RhythmGameState)` */
    function RhythmGameStateOf(entity: nat): (r: Option<RhythmGameState.RhythmGameStateComponent>)
      reads this
      ensures r.Some? ==> GetComponent(entity, RhythmGameStateKey) == Some(RhythmGameStateC(r.value))
      ensures Valid() ==> (r.Some? <==> HasComponent(entity, RhythmGameStateKey))
      ensures Valid() && r.Some? ==> r.value.entity == entity
    {
      if entity in components && RhythmGameStateKey in components[entity] && components[entity][RhythmGameStateKey].RhythmGameStateC?
      then Some(components[entity][RhythmGameStateKey].rhythmState)
      else None
    }

    /** `getComponent(entity, HitLine)` */
    function HitLineOf(entity: nat): (r: Option<HitLines.HitLineComponent>)
      reads this
      ensures r.Some? ==> GetComponent(entity, HitLineKey) == Some(HitLineC(r.value))
      ensures Valid() ==> (r.Some? <==> HasComponent(entity, HitLineKey))
      ensures Valid() && r.Some? ==> r.value.entity == entity
    {
      if entity in components && HitLineKey in components[entity] && components[entity][HitLineKey].HitLineC?
      then Some(components[entity][HitLineKey].hitLine)
      else None
    }

    /** `getComponent(entity, RhythmNoteComponent)` */
    function RhythmNoteComponentOf(entity: nat): (r: Option<RhythmNotes.RhythmNoteComponent>)
      reads this
      ensures r.Some? ==> GetComponent(entity, RhythmNoteComponentKey) == Some(RhythmNoteComponentC(r.value))
      ensures Valid() ==> (r.Some? <==> HasComponent(entity, RhythmNoteComponentKey))
      ensures Valid() && r.Some? ==> r.value.entity == entity
    {
      if entity in components && RhythmNoteComponentKey in components[entity] && components[entity][RhythmNoteComponentKey].RhythmNoteComponentC?
      then Some(components[entity][RhythmNoteComponentKey].note)
      else None
    }

    /** `getComponent(entity, RhythmNote)` */
    function RhythmNoteOf(entity: nat): (r: Option<RhythmNotes.RhythmNoteComponent>)
      reads this
      ensures r.Some? ==> GetComponent(entity, RhythmNoteKey) == Some(RhythmNoteC(r.value))
      ensures Valid() ==> (r.Some? <==> HasComponent(entity, RhythmNoteKey))
      ensures Valid() && r.Some? ==> r.value.entity == entity
    {
      if entity in components && RhythmNoteKey in components[entity] && components[entity][RhythmNoteKey].RhythmNoteC?
      then Some(components[entity][RhythmNoteKey].note)
      else None
    }

    /** `getEntityComponents`: exactly the components the entity holds, none for an unknown entity. */
    function GetEntityComponents(entity: nat): (s: set<Component>)
      reads this
      ensures entity !in components ==> s == {}
      ensures forall t :: HasComponent(entity, t) ==> GetComponent(entity, t).value in s
      ensures Valid() ==> forall c :: c in s ==> GetComponent(entity, TypeOf(c)) == Some(c)
    {
      if entity in components then components[entity].Values else {}
    }
  }
}
