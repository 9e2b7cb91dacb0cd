/**
 * Entities (src/game/ecs/Entity.ts): an id from a counter shared by all
 * entities, a name, an active flag and an optional graphics object.
 *
 * The source's counter is a static field; here it is an object every
 * constructor call is given. The graphics object is reduced to whether the
 * entity has one.
 */
module Entities {
  import Strings

  /** The shared id counter, `Entity.nextId`. */
  class IdSource {
    var nextId: nat

    /** The counter starts at 1. */
    constructor()
      ensures nextId == 1
    {
      nextId := 1;
    }
  }

  /** The name a new entity gets: the given one, or "Entity_" and the id when that is empty. */
  function DefaultName(name: string, id: nat): (r: string)
    ensures |r| > 0
    ensures name != "" ==> r == name
    ensures name == "" ==>
      |r| > 7 && r[..7] == "Entity_" && (forall i :: 7 <= i < |r| ==> Strings.IsDigit(r[i]))
      && Strings.ParseNat(r[7..]) == id
  {
    if name != "" then name
    else
      var r := "Entity_" + Strings.IntToString(id);
      assert r[7..] == Strings.NatToString(id);
      Strings.ParseNatToString(id);
      r
  }

  /** Unnamed entities with different ids get different names. */
  lemma DefaultNamesDiffer(id1: nat, id2: nat)
    requires id1 != id2
    ensures DefaultName("", id1) != DefaultName("", id2)
  {
  }

  class Entity {
    const id: nat
    var name: string
    var active: bool
    var hasGraphics: bool

    /**
     * A new entity takes the next id and moves the counter on, is active,
     * has no graphics, and is named `name` or, when that is empty, after its
     * id.
     */
    constructor(ids: IdSource, name: string := "")
      modifies ids
      ensures id == old(ids.nextId) && ids.nextId == old(ids.nextId) + 1
      ensures this.name == DefaultName(name, id) && active && !hasGraphics
    {
      id := ids.nextId;
      this.name := DefaultName(name, ids.nextId);
      active := true;
      hasGraphics := false;
      ids.nextId := ids.nextId + 1;
    }

    /** `setGraphics` */
    method SetGraphics()
      modifies this
      ensures hasGraphics && active == old(active) && name == old(name)
    {
      hasGraphics := true;
    }

    /** `destroy`: inactive and without graphics; a second call leaves the same state. */
    method Destroy()
      modifies this
      ensures !active && !hasGraphics && name == old(name)
      ensures !old(active) && !old(hasGraphics) ==> active == old(active) && hasGraphics == old(hasGraphics)
    {
      active := false;
      if hasGraphics {
        hasGraphics := false;
      }
    }
  }

  /** Entities made one after another from the same counter have different ids and names. */
  method TwoEntities(ids: IdSource) returns (a: Entity, b: Entity)
    modifies ids
    ensures fresh(a) && fresh(b) && a != b
    ensures a.id == old(ids.nextId) && b.id == a.id + 1
    ensures a.name != b.name
  {
    a := new Entity(ids);
    b := new Entity(ids);
    DefaultNamesDiffer(a.id, b.id);
  }
}
