/**
 * The matched-set invariant of the scheduler (src/game/ecs/SystemManager.ts)
 * and the calling protocol that keeps it.
 *
 * The component store never calls the scheduler, and the registry notifies
 * no system; a system's matched set is right only if every change to the
 * store or the registry is followed by the matching notification. Under that
 * protocol a system holds exactly the live entities that have every type it
 * requires. Destroying an entity without `notifyEntityRemoved` breaks it.
 */
module EcsProtocol {
  import opened Wrappers
  import opened Seqs
  import opened Components
  import opened ComponentStore
  import opened Entities
  import opened EntityManagement
  import opened Systems
  import opened SystemScheduling

  /** Every system's matched set is exactly the live entities that have every type it requires. */
  ghost predicate Consistent(sm: SystemManager, live: set<nat>)
    reads sm, sm.systems, sm.componentManager
  {
    forall s, e :: s in sm.systems ==>
      (e in s.entities <==> e in live && sm.Matches(e, s.requiredComponents))
  }

  /** With no live entity, a system with an empty matched set keeps the invariant when it is registered. */
  method AddSystemAndKeep(sm: SystemManager, system: System)
    requires sm.Valid() && system.Valid() && system.entities == []
    requires Consistent(sm, {})
    modifies sm
    ensures sm.Valid() && sm.systems == old(sm.systems) + [system]
    ensures Consistent(sm, {})
  {
    sm.AddSystem(system);
  }

  /**
   * `addComponent` followed by `notifyComponentAdded` on a live entity keeps
   * the invariant: the entity may now match more systems, and only it.
   */
  method AddComponentAndNotify(sm: SystemManager, live: set<nat>, entity: nat, component: Component)
    requires sm.Valid() && sm.componentManager.Valid() && Owner(component) == entity
    requires entity in live && Consistent(sm, live)
    modifies sm, sm.systems, sm.componentManager
    ensures sm.Valid() && sm.componentManager.Valid() && sm.systems == old(sm.systems)
    ensures sm.componentManager.GetComponent(entity, TypeOf(component)) == Some(component)
    ensures Consistent(sm, live)
  {
    var cm := sm.componentManager;
    ghost var before := cm.components;
    var _ := cm.AddComponent(entity, component);
    sm.NotifyComponentAdded(entity, component);
    forall s, e | s in sm.systems
      ensures e in s.entities <==> e in live && sm.Matches(e, s.requiredComponents)
    {
      assert e in old(s.entities) <==> e in live && HasAll(before, e, s.requiredComponents);
      sm.AfterAddedMembers(entity, s.requiredComponents, old(s.entities), e);
      if e != entity {
        HasAllSameTypes(before, cm.components, e, s.requiredComponents);
      } else {
        HasAllMoreTypes(before, cm.components, e, s.requiredComponents);
      }
    }
  }

  /**
   * `removeComponent` of a component the entity holds, followed by
   * `notifyComponentRemoved`, keeps the invariant: the entity may now match
   * fewer systems, and only it.
   */
  method RemoveComponentAndNotify(sm: SystemManager, live: set<nat>, entity: nat, t: ComponentType)
    requires sm.Valid() && sm.componentManager.Valid()
    requires sm.componentManager.HasComponent(entity, t) && Consistent(sm, live)
    modifies sm, sm.systems, sm.componentManager
    ensures sm.Valid() && sm.componentManager.Valid() && sm.systems == old(sm.systems)
    ensures !sm.componentManager.HasComponent(entity, t)
    ensures Consistent(sm, live)
  {
    var cm := sm.componentManager;
    ghost var before := cm.components;
    var removed := cm.GetComponent(entity, t).value;
    cm.RemoveComponent(entity, t);
    sm.NotifyComponentRemoved(entity, removed);
    forall s, e | s in sm.systems
      ensures e in s.entities <==> e in live && sm.Matches(e, s.requiredComponents)
    {
      assert e in old(s.entities) <==> e in live && HasAll(before, e, s.requiredComponents);
      assert old(s.Valid());
      sm.AfterRemovedMembers(entity, s.requiredComponents, old(s.entities), e);
      if e != entity {
        HasAllSameTypes(before, cm.components, e, s.requiredComponents);
      } else {
        HasAllMoreTypes(cm.components, before, e, s.requiredComponents);
      }
    }
  }

  /** `createEntity` followed by `notifyEntityAdded` keeps the invariant over the registered ids. */
  method CreateAndNotify(em: EntityManager, sm: SystemManager, name: string) returns (e: Entity)
    requires em.Valid() && sm.Valid() && em.componentManager == sm.componentManager
    requires Consistent(sm, em.entities.Keys)
    modifies em, em.ids, sm.systems
    ensures em.Valid() && sm.Valid() && fresh(e) && em.GetEntity(e.id) == Some(e)
    ensures Consistent(sm, em.entities.Keys)
  {
    e := em.CreateEntity(name);
    sm.NotifyEntityAdded(e.id);
    forall s, x | s in sm.systems
      ensures x in s.entities <==> x in em.entities.Keys && sm.Matches(x, s.requiredComponents)
    {
      assert x in old(s.entities) <==> x in old(em.entities.Keys) && sm.Matches(x, s.requiredComponents);
      sm.AfterAddedMembers(e.id, s.requiredComponents, old(s.entities), x);
    }
  }

  /** `notifyEntityRemoved` followed by `destroyEntity` keeps the invariant over the registered ids. */
  method DestroyAndNotify(em: EntityManager, sm: SystemManager, entity: Entity)
    requires em.Valid() && sm.Valid() && em.componentManager == sm.componentManager
    requires Consistent(sm, em.entities.Keys)
    modifies em, em.componentManager, entity, sm.systems
    ensures em.Valid() && sm.Valid() && em.GetEntity(entity.id) == None
    ensures Consistent(sm, em.entities.Keys)
  {
    var cm := sm.componentManager;
    ghost var before := cm.components;
    sm.NotifyEntityRemoved(entity.id);
    Destroy(em, entity);
    forall s, x | s in sm.systems
      ensures x in s.entities <==> x in em.entities.Keys && sm.Matches(x, s.requiredComponents)
    {
      assert x in old(s.entities) <==> x in old(em.entities.Keys) && HasAll(before, x, s.requiredComponents);
      RemoveFirstMembers(old(s.entities), entity.id);
      if x != entity.id {
        HasAllSameTypes(before, cm.components, x, s.requiredComponents);
      }
    }
  }

  /** `destroyEntity`, seen only through the two indexes the invariant reads. */
  method Destroy(em: EntityManager, entity: Entity)
    requires em.Valid()
    modifies em, em.componentManager, entity
    ensures em.Valid() && em.entities == old(em.entities) - {entity.id}
    ensures em.componentManager.components == old(em.componentManager.components) - {entity.id}
  {
    em.DestroyEntity(entity);
  }

  /**
   * `destroyEntity` alone, the registry's own behaviour: a new entity that a
   * system requiring nothing took in stays in that system's matched set
   * after it is destroyed, though it is no longer registered.
   */
  method DestroyWithoutNotify(em: EntityManager, sm: SystemManager, system: System) returns (gone: nat)
    requires em.Valid() && sm.Valid() && em.componentManager == sm.componentManager
    requires system in sm.systems && system.requiredComponents == []
    modifies em, em.ids, em.componentManager, sm.systems
    ensures gone in system.entities && gone !in em.entities
    ensures !Consistent(sm, em.entities.Keys)
  {
    var e := em.CreateEntity("");
    sm.NotifyEntityAdded(e.id);
    assert sm.Matches(e.id, system.requiredComponents);
    em.DestroyEntity(e);
    gone := e.id;
  }
}
