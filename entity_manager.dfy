/**
 * The entity registry (src/game/ecs/EntityManager.ts): entities by id and
 * by name, next to the component store whose entries `destroyEntity`
 * removes. The registry notifies no system.
 */
module EntityManagement {
  import opened Wrappers
  import opened Entities
  import opened ComponentStore
  import opened Components

  class EntityManager {
    var entities: map<nat, Entity>
    var entitiesByName: map<string, Entity>
    const componentManager: ComponentManager
    const ids: IdSource

    /** Every registered entity sits under its own id, and that id has already been issued. */
    ghost predicate Valid()
      reads this, ids, componentManager
    {
      componentManager.Valid()
      && forall id :: id in entities ==> entities[id].id == id && id < ids.nextId
    }

    constructor(componentManager: ComponentManager, ids: IdSource)
      requires componentManager.Valid()
      ensures Valid() && entities == map[] && entitiesByName == map[]
      ensures this.componentManager == componentManager && this.ids == ids
    {
      entities := map[];
      entitiesByName := map[];
      this.componentManager := componentManager;
      this.ids := ids;
    }

    /**
     * `createEntity`: a new, active entity with an id never registered
     * before, found afterwards both by id and by its name; a name already in
     * use now leads to the new entity, while the old one keeps its id entry.
     */
    method CreateEntity(name: string := "") returns (e: Entity)
      requires Valid()
      modifies this, ids
      ensures Valid() && fresh(e) && e.active && e.name == DefaultName(name, e.id)
      ensures e.id == old(ids.nextId) && ids.nextId == e.id + 1 && e.id !in old(entities)
      ensures entities == old(entities)[e.id := e] && entitiesByName == old(entitiesByName)[e.name := e]
      ensures GetEntity(e.id) == Some(e) && GetEntityByName(e.name) == Some(e)
    {
      e := new Entity(ids, name);
      entities := entities[e.id := e];
      if e.name != "" {
        entitiesByName := entitiesByName[e.name := e];
      }
    }

    /** `getEntity` */
    function GetEntity(id: nat): (r: Option<Entity>)
      reads this
      ensures r.Some? <==> id in entities
      ensures r.Some? ==> r.value == entities[id]
    {
      if id in entities then Some(entities[id]) else None
    }

    /** `getEntityByName`: the entity most recently created or registered with that name. */
    function GetEntityByName(name: string): (r: Option<Entity>)
      reads this
      ensures r.Some? <==> name in entitiesByName
      ensures r.Some? ==> r.value == entitiesByName[name]
    {
      if name in entitiesByName then Some(entitiesByName[name]) else None
    }

    /** `getActiveEntities`: exactly the registered entities whose flag is set. */
    function GetActiveEntities(): (r: set<Entity>)
      reads this, entities.Values
      ensures r <= entities.Values
      ensures forall e :: e in entities.Values ==> (e in r <==> e.active)
    {
      set e | e in entities.Values && e.active
    }

    /**
     * `destroyEntity`: the entity's components go (with their `onRemove`
     * calls), its id entry and the entry of its name go, even when that name
     * now leads to a different entity, and the entity becomes inactive.
     */
    method DestroyEntity(entity: Entity)
      requires Valid()
      modifies this, componentManager, entity
      ensures Valid()
      ensures componentManager.components == old(componentManager.components) - {entity.id}
      ensures componentManager.LoggedRemovals(old(componentManager.EntityMap(entity.id)))
      ensures entities == old(entities) - {entity.id}
      ensures entity.name != "" ==> entitiesByName == old(entitiesByName) - {entity.name}
      ensures entity.name == "" ==> entitiesByName == old(entitiesByName)
      ensures !entity.active && !entity.hasGraphics && entity.name == old(entity.name)
    {
      componentManager.RemoveAllComponents(entity.id);
      entities := entities - {entity.id};
      if entity.name != "" {
        entitiesByName := entitiesByName - {entity.name};
      }
      entity.Destroy();
    }

    /**
     * `destroyEntity` of the entity registered under `id`, as `clear` uses
     * it. Its `onRemove` calls are those `DestroyEntity` states; they are not
     * repeated here, so that `clear`'s loop does not carry them.
     */
    method DestroyRegistered(id: nat)
      requires Valid() && id in entities
      modifies this, componentManager, entities[id]
      ensures Valid() && entities == old(entities) - {id}
      ensures componentManager.components == old(componentManager.components) - {id}
      ensures !old(entities[id]).active && !old(entities[id]).hasGraphics && old(entities[id]).name == old(entities[id].name)
    {
      DestroyEntity(entities[id]);
    }

    /**
     * `clear`: every registered entity is destroyed, and both indexes end up
     * empty. Left open here: the destroyed entities' names (each single
     * destruction keeps its entity's name, as `DestroyRegistered` states) and
     * the hook log, whose `onRemove` calls follow the order in which the id
     * index is walked, an order this model does not fix.
     */
    method Clear()
      requires Valid()
      modifies this, componentManager, entities.Values
      ensures Valid() && entities == map[] && entitiesByName == map[]
      ensures componentManager.components == old(componentManager.components) - old(entities).Keys
      ensures forall e :: e in old(entities).Values ==> !e.active && !e.hasGraphics
    {
      var pending := entities.Keys;
      ghost var registered := entities;
      while pending != {}
        invariant Valid() && entities.Keys == pending && pending <= registered.Keys
        invariant forall id :: id in entities ==> entities[id] == registered[id]
        invariant forall id :: id in registered.Keys - pending ==> !registered[id].active && !registered[id].hasGraphics
        invariant componentManager.components == old(componentManager.components) - (registered.Keys - pending)
        decreases pending
      {
        var id :| id in pending;
        DestroyRegistered(id);
        pending := pending - {id};
      }
      entities := map[];
      entitiesByName := map[];
    }

    /** `cleanup`, the same as `clear`. */
    method Cleanup()
      requires Valid()
      modifies this, componentManager, entities.Values
      ensures Valid() && entities == map[] && entitiesByName == map[]
      ensures componentManager.components == old(componentManager.components) - old(entities).Keys
      ensures forall e :: e in old(entities).Values ==> !e.active && !e.hasGraphics
    {
      Clear();
    }
  }

  /**
   * Destroying an entity whose name a later entity took over also removes
   * the later entity from the name index, though it stays registered by id.
   */
  method DestroyShadowedName(m: EntityManager, name: string) returns (first: Entity, second: Entity)
    requires m.Valid() && name != ""
    modifies m, m.ids, m.componentManager
    ensures m.Valid() && first != second
    ensures m.GetEntity(second.id) == Some(second) && second.active
    ensures m.GetEntityByName(name) == None
  {
    first := m.CreateEntity(name);
    second := m.CreateEntity(name);
    m.DestroyEntity(first);
  }
}
