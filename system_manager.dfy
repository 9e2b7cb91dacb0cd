/**
 * The scheduler (src/game/ecs/SystemManager.ts): the registered systems in
 * order, the per-frame update of each of them, and the notifications that
 * keep each system's matched set in step with the component store.
 *
 * A system's own `update` is dynamic dispatch in the source; here the
 * scheduler logs each call it makes (the concrete updates are modelled with
 * their systems). Whether a call throws and how long it takes are
 * parameters: a throwing update is caught and logged, and its time is still
 * recorded.
 */
module SystemScheduling {
  import opened Seqs
  import opened Components
  import opened ComponentStore
  import opened Wrappers
  import opened Metrics
  import opened Systems

  /** One call of a system's `update`. */
  datatype UpdateCall = UpdateCall(system: System, deltaTime: real, threw: bool)

  /** One call of a system's `onComponentAdded` or `onComponentRemoved` hook. */
  datatype HookCall =
    | ComponentAddedCall(system: System, entity: nat, component: Component)
    | ComponentRemovedCall(system: System, entity: nat, component: Component)

  /** The hook calls a notification makes: one per system, in order. */
  function AddedCalls(systems: seq<System>, entity: nat, component: Component): (r: seq<HookCall>)
    ensures |r| == |systems|
    ensures forall i :: 0 <= i < |systems| ==> r[i] == ComponentAddedCall(systems[i], entity, component)
  {
    if systems == [] then [] else AddedCalls(systems[..|systems| - 1], entity, component) + [ComponentAddedCall(systems[|systems| - 1], entity, component)]
  }

  function RemovedCalls(systems: seq<System>, entity: nat, component: Component): (r: seq<HookCall>)
    ensures |r| == |systems|
    ensures forall i :: 0 <= i < |systems| ==> r[i] == ComponentRemovedCall(systems[i], entity, component)
  {
    if systems == [] then [] else RemovedCalls(systems[..|systems| - 1], entity, component) + [ComponentRemovedCall(systems[|systems| - 1], entity, component)]
  }

  /** The update calls a frame makes: one per system, in order, each with the frame's delta. */
  function Scheduled(systems: seq<System>, deltaTime: real, faults: set<nat>): (r: seq<UpdateCall>)
    ensures |r| == |systems|
    ensures forall i :: 0 <= i < |systems| ==>
      r[i].system == systems[i] && r[i].deltaTime == deltaTime && (r[i].threw <==> i in faults)
  {
    if systems == [] then []
    else Scheduled(systems[..|systems| - 1], deltaTime, faults) + [UpdateCall(systems[|systems| - 1], deltaTime, |systems| - 1 in faults)]
  }

  /** The names the systems' timings are recorded under. */
  function Names(systems: seq<System>): (r: set<string>)
    ensures forall i :: 0 <= i < |systems| ==> systems[i].name in r
  {
    if systems == [] then {} else Names(systems[..|systems| - 1]) + {systems[|systems| - 1].name}
  }

  /**
   * The timings recorded under `name` in one frame: the `elapsed[i]` of the
   * systems named `name`, in list order.
   */
  function TimingsOf(systems: seq<System>, elapsed: seq<real>, name: string): (r: seq<real>)
    requires |elapsed| == |systems|
    ensures |r| <= |systems|
    ensures name !in Names(systems) ==> r == []
    ensures forall d :: d in r ==> d in elapsed
  {
    if systems == [] then []
    else
      var n := |systems| - 1;
      TimingsOf(systems[..n], elapsed[..n], name) + (if systems[n].name == name then [elapsed[n]] else [])
  }

  /** The entry a metrics map holds for a name, if any. */
  function EntryOf(m: map<string, SystemMetrics>, name: string): Option<SystemMetrics> {
    if name in m then Some(m[name]) else None
  }

  /** Every name among `Names` gets at least one timing in a frame. */
  lemma {:induction false} TimingsOfNames(systems: seq<System>, elapsed: seq<real>, name: string)
    requires |elapsed| == |systems| && name in Names(systems)
    ensures TimingsOf(systems, elapsed, name) != []
  {
    var n := |systems| - 1;
    if systems[n].name != name {
      TimingsOfNames(systems[..n], elapsed[..n], name);
    }
  }

  /** No two systems in the list share a name. */
  predicate DistinctNames(systems: seq<System>) {
    forall i, j :: 0 <= i < j < |systems| ==> systems[i].name != systems[j].name
  }

  /**
   * When the systems' names are distinct, each system's name gets exactly one
   * timing in a frame, the one its own update took.
   */
  lemma {:induction false} TimingsOfDistinct(systems: seq<System>, elapsed: seq<real>, i: nat)
    requires |elapsed| == |systems| && DistinctNames(systems) && i < |systems|
    ensures TimingsOf(systems, elapsed, systems[i].name) == [elapsed[i]]
  {
    var n := |systems| - 1;
    var name := systems[i].name;
    if i == n {
      NamesOnly(systems[..n], name);
    } else {
      TimingsOfDistinct(systems[..n], elapsed[..n], i);
    }
  }

  /**
   * So with distinct names a frame records into each system's entry exactly
   * once, the time its own update took.
   */
  lemma RecordedOnce(systems: seq<System>, elapsed: seq<real>, i: nat, entry: Option<SystemMetrics>)
    requires |elapsed| == |systems| && DistinctNames(systems) && i < |systems|
    ensures RecordAll(entry, TimingsOf(systems, elapsed, systems[i].name)) == Some(Recorded(entry, elapsed[i]))
  {
    TimingsOfDistinct(systems, elapsed, i);
    RecordAllSnoc(entry, [], elapsed[i]);
  }

  /** A name no system in the list carries is not among `Names`. */
  lemma {:induction false} NamesOnly(systems: seq<System>, name: string)
    requires forall i :: 0 <= i < |systems| ==> systems[i].name != name
    ensures name !in Names(systems)
  {
    if systems != [] {
      var n := |systems| - 1;
      NamesOnly(systems[..n], name);
    }
  }

  /** One more system adds its own timing to its name's series and nothing to any other. */
  lemma TimingsStep(systems: seq<System>, elapsed: seq<real>, i: nat, name: string)
    requires |elapsed| == |systems| && i < |systems|
    ensures TimingsOf(systems[..i + 1], elapsed[..i + 1], name)
      == TimingsOf(systems[..i], elapsed[..i], name) + (if systems[i].name == name then [elapsed[i]] else [])
  {
    assert systems[..i + 1][..i] == systems[..i];
    assert elapsed[..i + 1][..i] == elapsed[..i];
  }

  class SystemManager {
    var systems: seq<System>
    const componentManager: ComponentManager
    const performanceMetrics: PerformanceMetrics
    /** Every system `update` call made so far, oldest first. */
    var updates: seq<UpdateCall>
    /** Every hook call made by the notifications so far, oldest first. */
    var hookCalls: seq<HookCall>

    ghost predicate Valid()
      reads this, systems
    {
      forall s :: s in systems ==> s.Valid()
    }

    constructor(componentManager: ComponentManager, performanceMetrics: PerformanceMetrics)
      ensures Valid() && systems == [] && updates == [] && hookCalls == []
      ensures this.componentManager == componentManager && this.performanceMetrics == performanceMetrics
    {
      systems := [];
      this.componentManager := componentManager;
      this.performanceMetrics := performanceMetrics;
      updates := [];
      hookCalls := [];
    }

    /** `addSystem` appends, even a system already registered. */
    method AddSystem(system: System)
      requires Valid() && system.Valid()
      modifies this
      ensures Valid() && systems == old(systems) + [system]
      ensures updates == old(updates) && hookCalls == old(hookCalls)
    {
      systems := systems + [system];
    }

    /** `removeSystem` drops the first occurrence only, keeps the rest in order, and ignores an unknown system. */
    method RemoveSystem(system: System)
      requires Valid()
      modifies this
      ensures Valid() && systems == RemoveFirst(old(systems), system)
      ensures system !in old(systems) ==> systems == old(systems)
      ensures forall s :: s in systems ==> s in old(systems)
      ensures updates == old(updates) && hookCalls == old(hookCalls)
    {
      RemoveFirstMembers(systems, system);
      systems := RemoveFirst(systems, system);
    }

    /** `cleanup` forgets every system. */
    method Cleanup()
      modifies this
      ensures Valid() && systems == []
      ensures updates == old(updates) && hookCalls == old(hookCalls)
    {
      systems := [];
    }

    /**
     * `updateSystems`: each registered system is updated once, in order,
     * with the same `deltaTime`; the systems at positions in `faults` throw,
     * which stops none of the later ones. The time `elapsed[i]` the i-th
     * update took is recorded under that system's name: each entry records
     * the frame's `TimingsOf` its name, in list order.
     */
    method UpdateSystems(deltaTime: real, faults: set<nat>, elapsed: seq<real>)
      requires performanceMetrics.Valid() && |elapsed| == |systems|
      modifies this, performanceMetrics
      ensures systems == old(systems) && hookCalls == old(hookCalls)
      ensures updates == old(updates) + Scheduled(systems, deltaTime, faults)
      ensures performanceMetrics.Valid() && performanceMetrics.enabled == old(performanceMetrics.enabled)
      ensures !performanceMetrics.enabled ==> performanceMetrics.metrics == old(performanceMetrics.metrics)
      ensures performanceMetrics.enabled ==> Names(systems) <= performanceMetrics.metrics.Keys
      ensures forall n :: n !in Names(systems) ==> performanceMetrics.GetMetrics(n) == old(performanceMetrics.GetMetrics(n))
      ensures performanceMetrics.enabled ==>
        forall n :: performanceMetrics.GetMetrics(n) == RecordAll(old(performanceMetrics.GetMetrics(n)), TimingsOf(systems, elapsed, n))
    {
      var calls := RunUpdates(deltaTime, faults, elapsed);
      updates := updates + calls;
    }

    /** The loop of `updateSystems`: one update call and one timing per system, in order. */
    method RunUpdates(deltaTime: real, faults: set<nat>, elapsed: seq<real>) returns (calls: seq<UpdateCall>)
      requires performanceMetrics.Valid() && |elapsed| == |systems|
      modifies performanceMetrics
      ensures calls == Scheduled(systems, deltaTime, faults)
      ensures performanceMetrics.Valid() && performanceMetrics.enabled == old(performanceMetrics.enabled)
      ensures !performanceMetrics.enabled ==> performanceMetrics.metrics == old(performanceMetrics.metrics)
      ensures performanceMetrics.enabled ==> Names(systems) <= performanceMetrics.metrics.Keys
      ensures forall n :: n !in Names(systems) ==> performanceMetrics.GetMetrics(n) == old(performanceMetrics.GetMetrics(n))
      ensures performanceMetrics.enabled ==>
        forall n :: performanceMetrics.GetMetrics(n) == RecordAll(old(performanceMetrics.GetMetrics(n)), TimingsOf(systems, elapsed, n))
    {
      var ss := systems;
      calls := [];
      ghost var start := performanceMetrics.metrics;
      for i := 0 to |ss|
        invariant calls == Scheduled(ss[..i], deltaTime, faults)
        invariant performanceMetrics.Valid() && performanceMetrics.enabled == old(performanceMetrics.enabled)
        invariant !performanceMetrics.enabled ==> performanceMetrics.metrics == old(performanceMetrics.metrics)
        invariant performanceMetrics.enabled ==>
          forall n :: performanceMetrics.GetMetrics(n) == RecordAll(EntryOf(start, n), TimingsOf(ss[..i], elapsed[..i], n))
      {
        assert ss[..i + 1][..i] == ss[..i];
        calls := calls + [UpdateCall(ss[i], deltaTime, i in faults)];
        RecordNext(ss, elapsed, i, start);
      }
      assert ss[..|ss|] == ss && elapsed[..|ss|] == elapsed;
      if performanceMetrics.enabled {
        forall n | n in Names(ss)
          ensures n in performanceMetrics.metrics.Keys
        {
          TimingsOfNames(ss, elapsed, n);
        }
      }
    }

    /** One turn of the loop's timing: `recordTime` for the i-th system extends its name's series by its timing. */
    method RecordNext(ss: seq<System>, elapsed: seq<real>, i: nat, ghost start: map<string, SystemMetrics>)
      requires performanceMetrics.Valid() && |elapsed| == |ss| && i < |ss|
      requires performanceMetrics.enabled ==>
        forall n :: performanceMetrics.GetMetrics(n) == RecordAll(EntryOf(start, n), TimingsOf(ss[..i], elapsed[..i], n))
      modifies performanceMetrics
      ensures performanceMetrics.Valid() && performanceMetrics.enabled == old(performanceMetrics.enabled)
      ensures !performanceMetrics.enabled ==> performanceMetrics.metrics == old(performanceMetrics.metrics)
      ensures performanceMetrics.enabled ==>
        forall n :: performanceMetrics.GetMetrics(n) == RecordAll(EntryOf(start, n), TimingsOf(ss[..i + 1], elapsed[..i + 1], n))
    {
      performanceMetrics.RecordTime(ss[i].name, elapsed[i]);
      if performanceMetrics.enabled {
        forall n
          ensures performanceMetrics.GetMetrics(n) == RecordAll(EntryOf(start, n), TimingsOf(ss[..i + 1], elapsed[..i + 1], n))
        {
          assert old(performanceMetrics.GetMetrics(n)) == RecordAll(EntryOf(start, n), TimingsOf(ss[..i], elapsed[..i], n));
          TimingsStep(ss, elapsed, i, n);
          if ss[i].name == n {
            assert performanceMetrics.GetMetrics(n) == Some(Recorded(old(performanceMetrics.GetMetrics(n)), elapsed[i]));
            RecordAllSnoc(EntryOf(start, n), TimingsOf(ss[..i], elapsed[..i], n), elapsed[i]);
            assert TimingsOf(ss[..i + 1], elapsed[..i + 1], n) == TimingsOf(ss[..i], elapsed[..i], n) + [elapsed[i]];
          } else {
            assert performanceMetrics.GetMetrics(n) == old(performanceMetrics.GetMetrics(n));
            assert TimingsOf(ss[..i + 1], elapsed[..i + 1], n) == TimingsOf(ss[..i], elapsed[..i], n);
          }
        }
      }
    }

    /** `entityMatchesSystem`, the specification: the entity has every type the system requires. */
    ghost predicate Matches(entity: nat, required: seq<ComponentType>)
      reads componentManager
    {
      HasAll(componentManager.components, entity, required)
    }

    /**
     * `entityMatchesSystem`: a scan of the required types that stops at the
     * first one the entity lacks. A system that requires nothing matches
     * every entity.
     */
    method EntityMatchesSystem(entity: nat, system: System) returns (b: bool)
      ensures b <==> Matches(entity, system.requiredComponents)
      ensures system.requiredComponents == [] ==> b
    {
      var required := system.requiredComponents;
      for i := 0 to |required|
        invariant forall k :: 0 <= k < i ==> componentManager.HasComponent(entity, required[k])
      {
        if !componentManager.HasComponent(entity, required[i]) {
          assert required[i] in required;
          return false;
        }
      }
      return true;
    }

    /** What `notifyEntityAdded` and `notifyComponentAdded` make of a system's matched set. */
    ghost function AfterAdded(entity: nat, required: seq<ComponentType>, before: seq<nat>): seq<nat>
      reads componentManager
    {
      if Matches(entity, required) then AddUnique(before, entity) else before
    }

    /** What `notifyComponentRemoved` makes of a system's matched set. */
    ghost function AfterRemoved(entity: nat, required: seq<ComponentType>, before: seq<nat>): seq<nat>
      reads componentManager
    {
      if Matches(entity, required) then before else RemoveFirst(before, entity)
    }

    /** The matched set after an adding notification: the old members, and the entity when it matches. */
    lemma AfterAddedMembers(entity: nat, required: seq<ComponentType>, before: seq<nat>, e: nat)
      ensures e in AfterAdded(entity, required, before) <==> e in before || (e == entity && Matches(entity, required))
    {
    }

    /** The matched set after `notifyComponentRemoved`: the old members, less the entity when it no longer matches. */
    lemma AfterRemovedMembers(entity: nat, required: seq<ComponentType>, before: seq<nat>, e: nat)
      requires NoDups(before)
      ensures e in AfterRemoved(entity, required, before) <==> e in before && (e != entity || Matches(entity, required))
    {
      RemoveFirstMembers(before, entity);
      RemoveFirstNoDups(before, entity);
    }

    /** One step of the adding notifications: the system takes the entity when it matches. */
    method AddIfMatching(entity: nat, system: System)
      requires system.Valid()
      modifies system
      ensures system.Valid()
      ensures system.entities == AfterAdded(entity, system.requiredComponents, old(system.entities))
      ensures Matches(entity, system.requiredComponents) ==> entity in system.entities
      ensures system.requiredComponents == old(system.requiredComponents)
      ensures system.optionalComponents == old(system.optionalComponents)
    {
      var matches := EntityMatchesSystem(entity, system);
      if matches {
        system.AddEntity(entity);
      }
    }

    /** One step of `notifyComponentRemoved`: the system drops the entity unless it still matches. */
    method RemoveUnlessMatching(entity: nat, system: System)
      requires system.Valid()
      modifies system
      ensures system.Valid()
      ensures system.entities == AfterRemoved(entity, system.requiredComponents, old(system.entities))
      ensures !Matches(entity, system.requiredComponents) ==> entity !in system.entities
      ensures system.requiredComponents == old(system.requiredComponents)
      ensures system.optionalComponents == old(system.optionalComponents)
    {
      var matches := EntityMatchesSystem(entity, system);
      if !matches {
        system.RemoveEntity(entity);
      }
    }

    /** `notifyEntityAdded`: every system the entity matches now has it in its set; no other set changes. */
    method NotifyEntityAdded(entity: nat)
      requires Valid()
      modifies systems
      ensures Valid()
      ensures forall s :: s in systems ==> s.entities == AfterAdded(entity, s.requiredComponents, old(s.entities))
      ensures forall s :: s in systems ==>
        s.requiredComponents == old(s.requiredComponents) && s.optionalComponents == old(s.optionalComponents)
    {
      var ss := systems;
      ghost var done: set<System> := {};
      for i := 0 to |ss|
        invariant (forall k :: 0 <= k < i ==> ss[k] in done) && forall s :: s in done ==> s in ss
        invariant forall s :: s in ss ==>
          s.Valid() && s.requiredComponents == old(s.requiredComponents) && s.optionalComponents == old(s.optionalComponents)
          && (s in done ==> s.entities == AfterAdded(entity, s.requiredComponents, old(s.entities)) && (Matches(entity, s.requiredComponents) ==> entity in s.entities))
          && (s !in done ==> s.entities == old(s.entities))
      {
        AddIfMatching(entity, ss[i]);
        done := done + {ss[i]};
      }
    }

    /** `notifyEntityRemoved`: the entity leaves every system's set, whatever it still has. */
    method NotifyEntityRemoved(entity: nat)
      requires Valid()
      modifies systems
      ensures Valid()
      ensures forall s :: s in systems ==> s.entities == RemoveFirst(old(s.entities), entity) && entity !in s.entities
      ensures forall s :: s in systems ==>
        s.requiredComponents == old(s.requiredComponents) && s.optionalComponents == old(s.optionalComponents)
    {
      var ss := systems;
      ghost var done: set<System> := {};
      for i := 0 to |ss|
        invariant (forall k :: 0 <= k < i ==> ss[k] in done) && forall s :: s in done ==> s in ss
        invariant forall s :: s in ss ==>
          s.Valid() && s.requiredComponents == old(s.requiredComponents) && s.optionalComponents == old(s.optionalComponents)
          && (s in done ==> s.entities == RemoveFirst(old(s.entities), entity) && entity !in s.entities)
          && (s !in done ==> s.entities == old(s.entities))
      {
        ss[i].RemoveEntity(entity);
        done := done + {ss[i]};
      }
    }

    /**
     * `notifyComponentAdded`: every system the entity now matches has it in
     * its set (adding it again changes nothing), and every system's
     * `onComponentAdded` hook is called, in order. The set updates are those
     * of `notifyEntityAdded`; the hooks do nothing, so they are recorded
     * after the loop rather than inside it.
     */
    method NotifyComponentAdded(entity: nat, component: Component)
      requires Valid()
      modifies this, systems
      ensures Valid() && systems == old(systems) && updates == old(updates)
      ensures forall s :: s in systems ==> s.entities == AfterAdded(entity, s.requiredComponents, old(s.entities))
      ensures forall s :: s in systems ==>
        s.requiredComponents == old(s.requiredComponents) && s.optionalComponents == old(s.optionalComponents)
      ensures hookCalls == old(hookCalls) + AddedCalls(systems, entity, component)
    {
      NotifyEntityAdded(entity);
      hookCalls := hookCalls + AddedCalls(systems, entity, component);
    }

    /** The loop of `notifyComponentRemoved`: each system in turn drops the entity unless it still matches. */
    method DropUnmatched(entity: nat)
      requires Valid()
      modifies systems
      ensures Valid()
      ensures forall s :: s in systems ==> s.entities == AfterRemoved(entity, s.requiredComponents, old(s.entities))
      ensures forall s :: s in systems ==>
        s.requiredComponents == old(s.requiredComponents) && s.optionalComponents == old(s.optionalComponents)
    {
      var ss := systems;
      ghost var done: set<System> := {};
      for i := 0 to |ss|
        invariant (forall k :: 0 <= k < i ==> ss[k] in done) && forall s :: s in done ==> s in ss
        invariant forall s :: s in ss ==>
          s.Valid() && s.requiredComponents == old(s.requiredComponents) && s.optionalComponents == old(s.optionalComponents)
          && (s in done ==> s.entities == AfterRemoved(entity, s.requiredComponents, old(s.entities)) && (!Matches(entity, s.requiredComponents) ==> entity !in s.entities))
          && (s !in done ==> s.entities == old(s.entities))
      {
        RemoveUnlessMatching(entity, ss[i]);
        done := done + {ss[i]};
      }
    }

    /**
     * `notifyComponentRemoved`: every system the entity no longer matches
     * drops it from its set, and every system's `onComponentRemoved` hook
     * is called, in order (recorded after the loop, as the hooks do nothing).
     */
    method NotifyComponentRemoved(entity: nat, component: Component)
      requires Valid()
      modifies this, systems
      ensures Valid() && systems == old(systems) && updates == old(updates)
      ensures forall s :: s in systems ==> s.entities == AfterRemoved(entity, s.requiredComponents, old(s.entities))
      ensures forall s :: s in systems ==>
        s.requiredComponents == old(s.requiredComponents) && s.optionalComponents == old(s.optionalComponents)
      ensures hookCalls == old(hookCalls) + RemovedCalls(systems, entity, component)
    {
      DropUnmatched(entity);
      hookCalls := hookCalls + RemovedCalls(systems, entity, component);
    }
  }
}
