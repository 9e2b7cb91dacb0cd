/**
 * The system base class (src/game/ecs/System.ts): the component types a
 * system requires and those it may use, and its matched set of entities.
 *
 * The matched set is a JavaScript `Set`, which iterates in insertion order;
 * it is a duplicate-free sequence of entity ids here. Entity objects are
 * identified by their ids, which the id counter never reuses. The concrete
 * systems hold a `System` and add their own state and `update`. The
 * `onComponentAdded` and `onComponentRemoved` hooks do nothing in every
 * system; the scheduler only records that it called them.
 */
module Systems {
  import opened Seqs
  import opened Components

  class System {
    /** `constructor.name`, the key its timings are recorded under. */
    const name: string
    var requiredComponents: seq<ComponentType>
    var optionalComponents: seq<ComponentType>
    var entities: seq<nat>

    ghost predicate Valid()
      reads this
    {
      NoDups(entities)
    }

    /** A new system requires nothing, uses nothing and has matched no entity. */
    constructor(name: string)
      ensures Valid() && this.name == name
      ensures requiredComponents == [] && optionalComponents == [] && entities == []
    {
      this.name := name;
      requiredComponents := [];
      optionalComponents := [];
      entities := [];
    }

    /** `registerRequiredComponent` appends to the required list and touches nothing else. */
    method RegisterRequiredComponent(t: ComponentType)
      modifies this
      ensures requiredComponents == old(requiredComponents) + [t]
      ensures optionalComponents == old(optionalComponents) && entities == old(entities)
    {
      requiredComponents := requiredComponents + [t];
    }

    /** `registerOptionalComponent` appends to the optional list and touches nothing else. */
    method RegisterOptionalComponent(t: ComponentType)
      modifies this
      ensures optionalComponents == old(optionalComponents) + [t]
      ensures requiredComponents == old(requiredComponents) && entities == old(entities)
    {
      optionalComponents := optionalComponents + [t];
    }

    /** `addEntity`: the entity is matched afterwards; adding a matched entity changes nothing. */
    method AddEntity(entity: nat)
      requires Valid()
      modifies this
      ensures Valid() && entity in entities
      ensures entities == AddUnique(old(entities), entity)
      ensures entity in old(entities) ==> entities == old(entities)
      ensures requiredComponents == old(requiredComponents) && optionalComponents == old(optionalComponents)
    {
      if entity !in entities {
        entities := entities + [entity];
      }
    }

    /** `removeEntity`: the entity is not matched afterwards, every other matched entity stays, in order. */
    method RemoveEntity(entity: nat)
      requires Valid()
      modifies this
      ensures Valid() && entity !in entities
      ensures entities == RemoveFirst(old(entities), entity)
      ensures entity !in old(entities) ==> entities == old(entities)
      ensures forall e :: e in old(entities) && e != entity ==> e in entities
      ensures requiredComponents == old(requiredComponents) && optionalComponents == old(optionalComponents)
    {
      RemoveFirstNoDups(entities, entity);
      RemoveFirstMembers(entities, entity);
      entities := RemoveFirst(entities, entity);
    }
  }
}
