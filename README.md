# rhythm-game engine, modelled in Dafny

This project models the core of a small browser game engine written in TypeScript. The engine is an entity-component-system (ECS):

- An **entity registry** hands out entities with increasing ids and indexes them by id and by name.
- A **component store** holds, for each entity, at most one component per component type.
- **Systems** each keep a *matched set*: the entities that hold every component type the system requires.
- A **scheduler** runs the systems once per frame, in registration order, and isolates a system that throws. It keeps the matched sets up to date when it is notified of changes.
- Around the ECS sit a **frame clock** (a ten-slot circular buffer of frame times), a **publish/subscribe event queue** with keyboard events, and **per-system timing metrics**.

Two game modes run on the engine:

- A **platformer**: matter-js bodies, grounding of a player that lands on top of another body, a jump gate with a cooldown, sideways movement within the field, collectible boxes that are refilled five at a time, and squash-and-stretch animations.
- A **rhythm game**: notes fall in five lanes, keys 1 to 5 strike the nearest note in the hit zone, and a timer spawns a note in a random lane.

How the model is built:

- Code that updates objects in place is modelled as Dafny classes with `modifies` clauses. Loops are `while` loops with invariants. Every method that computes a new state from a sequence of steps (a loop, a frame of a system, a chain of notifications) is proved against a specification function over values, and the properties of that function are proved as lemmas. Simple setters and accessors state their new fields directly.
- Immutable things are datatypes and functions: colours, vectors, keyboard events, lanes, hit lines and note motion.
- Numbers are exact: integers are `int`/`nat` and the source's floating-point numbers are `real`. Entity ids are `nat`.
- Component types form a closed datatype keyed the way the store keys them, by class name.
- JavaScript `Set`s are duplicate-free sequences kept in insertion order.
- Anything the environment supplies is a parameter: the current time, `Date.now()`, `Math.random()`, `Math.sin`, whether a listener or a system update throws, and how long an update takes.
- The store never calls the scheduler, and the registry notifies no system. Module `EcsProtocol` proves the central invariant under the calling protocol that follows every change with its notification: a system's matched set is exactly the live entities that hold every type it requires.

The rhythm systems import `RhythmNote`, `RhythmGameState` and `HitLine` from files that are not part of this model. They are given the fields and behaviour of the `RhythmNoteComponent`, `RhythmGameStateComponent` and `HitLineComponent`. In the store they are separate keys backed by those same classes.

## Model

| member | source | states |
|---|---|---|
| Entities.IdSource.constructor | src/game/ecs/Entity.ts:4 | the id counter starts at 1 |
| Entities.DefaultName | src/game/ecs/Entity.ts:13 | a given non-empty name is kept; an empty one becomes "Entity_" followed by the id in decimal; either way the name is non-empty |
| Entities.DefaultNamesDiffer | src/game/ecs/Entity.ts:12-13 | unnamed entities with different ids get different default names |
| Entities.Entity.constructor | src/game/ecs/Entity.ts:11-15 | a new entity takes the counter's id, moves the counter on by one, is active, has no graphics, and is named by DefaultName |
| Entities.Entity.SetGraphics | src/game/ecs/Entity.ts:17-19 | attaches graphics and changes neither the name nor the active flag |
| Entities.Entity.Destroy | src/game/ecs/Entity.ts:21-27 | the entity ends inactive and without graphics, keeps its name, and a second destroy changes nothing |
| Entities.TwoEntities | src/game/ecs/Entity.ts:11-13 | two entities made in turn from one counter are distinct, have consecutive ids and different names: ids are never reused |
| EntityManagement.EntityManager.constructor | src/game/ecs/EntityManager.ts:6-12 | both indexes start empty and the store is the shared component manager |
| EntityManagement.EntityManager.CreateEntity | src/game/ecs/EntityManager.ts:21-30 | the new entity is active, has an id no registered entity had, is found by id and by name afterwards; a name already in use now leads to the new entity while the old one keeps its id entry |
| EntityManagement.EntityManager.GetEntity | src/game/ecs/EntityManager.ts:32-34 | defined exactly for registered ids, and then the registered entity |
| EntityManagement.EntityManager.GetEntityByName | src/game/ecs/EntityManager.ts:36-38 | defined exactly for names in the name index, and then the entity last registered under it |
| EntityManagement.EntityManager.GetActiveEntities | src/game/ecs/EntityManager.ts:44-46 | exactly the registered entities whose active flag is set |
| EntityManagement.EntityManager.DestroyEntity | src/game/ecs/EntityManager.ts:48-57 | the entity's store entry, id entry and name key go (the name key even when it now leads to another entity), the entity ends inactive without graphics, and the hook log gains exactly one `onRemove` for each component it held; nothing else changes |
| EntityManagement.EntityManager.DestroyRegistered | src/game/ecs/EntityManager.ts:60-62 | one pass of `clear`'s loop: the registered entity leaves the id index and the store and ends inactive without graphics keeping its name, and the registry stays well-formed |
| EntityManagement.EntityManager.Clear | src/game/ecs/EntityManager.ts:59-65 | both indexes end empty, every formerly registered entity is inactive without graphics, and their store entries are gone |
| EntityManagement.EntityManager.Cleanup | src/game/ecs/EntityManager.ts:67-69 | the same effect as Clear |
| EntityManagement.DestroyShadowedName | src/game/ecs/EntityManager.ts:48-57 | destroying an entity whose name a later entity took over leaves that later entity registered and active but unreachable by name |
| ComponentStore.HasAllSameTypes | src/game/ecs/SystemManager.ts:91-101 | whether an entity holds every required type depends only on the set of types it holds |
| ComponentStore.HasAllMoreTypes | src/game/ecs/SystemManager.ts:91-101 | an entity that gains types keeps every match it had |
| ComponentStore.Without | src/game/ecs/ComponentManager.ts:45-54 | the store after a removal: only type t of the given entity goes, and every other entity's map is unchanged |
| ComponentStore.ComponentManager.constructor | src/game/ecs/ComponentManager.ts:6-8 | the store starts empty with no hook calls |
| ComponentStore.ComponentManager.GetComponent | src/game/ecs/ComponentManager.ts:31-43 | defined exactly when hasComponent holds, never for an entity the store has not seen, and then a component of the asked type created for that entity |
| ComponentStore.ComponentManager.AddComponent | src/game/ecs/ComponentManager.ts:17-29 | the component replaces any of its type the entity held (at most one per type), gets exactly one onAdd call, is returned, and is what getComponent yields afterwards; no other type and no other entity changes |
| ComponentStore.ComponentManager.RemoveComponent | src/game/ecs/ComponentManager.ts:45-54 | when present, the component gets one onRemove call and only that type of that entity goes; when absent nothing happens; afterwards hasComponent is false |
| ComponentStore.ComponentManager.RemoveAllComponents | src/game/ecs/ComponentManager.ts:56-65 | every component the entity held gets exactly one onRemove call and no other call is made; the entity's entry goes, hasComponent is false for every type and getEntityComponents is empty; other entities keep theirs |
| ComponentStore.ComponentManager.CallOnRemove | src/game/ecs/ComponentManager.ts:60-62 | one onRemove call per held component, each on a held component, and the store unchanged |
| ComponentStore.ComponentManager.TransformOf | src/game/ecs/ComponentManager.ts:31-36 | the stored Transform of the entity, present exactly when hasComponent holds and then owned by that entity |
| ComponentStore.ComponentManager.PhysicsBodyOf | src/game/ecs/ComponentManager.ts:31-36 | the same for PhysicsBodyComponent |
| ComponentStore.ComponentManager.PlayerOf | src/game/ecs/ComponentManager.ts:31-36 | the same for PlayerComponent |
| ComponentStore.ComponentManager.PhysicsGameStateOf | src/game/ecs/ComponentManager.ts:31-36 | the same for PhysicsGameStateComponent |
| ComponentStore.ComponentManager.AnimationOf | src/game/ecs/ComponentManager.ts:31-36 | the same for AnimationComponent |
| ComponentStore.ComponentManager.RhythmGameStateComponentOf | src/game/ecs/ComponentManager.ts:31-36 | the same for RhythmGameStateComponent |
| ComponentStore.ComponentManager.RhythmGameStateOf | src/game/ecs/ComponentManager.ts:31-36 | the same for the RhythmGameState class the rhythm input system asks for |
| ComponentStore.ComponentManager.HitLineOf | src/game/ecs/ComponentManager.ts:31-36 | the same for the HitLine class |
| ComponentStore.ComponentManager.RhythmNoteComponentOf | src/game/ecs/ComponentManager.ts:31-36 | the same for RhythmNoteComponent |
| ComponentStore.ComponentManager.RhythmNoteOf | src/game/ecs/ComponentManager.ts:31-36 | the same for the RhythmNote class |
| ComponentStore.ComponentManager.GetEntityComponents | src/game/ecs/ComponentManager.ts:67-70 | exactly the components the entity holds, one per held type, and none for an entity never seen |
| Systems.System.constructor | src/game/ecs/System.ts:6-13 | a new system has empty required, optional and matched collections |
| Systems.System.RegisterRequiredComponent | src/game/ecs/System.ts:15-17 | appends to the required list; the optional list and the matched set are untouched |
| Systems.System.RegisterOptionalComponent | src/game/ecs/System.ts:19-21 | appends to the optional list; the required list and the matched set are untouched |
| Systems.System.AddEntity | src/game/ecs/System.ts:23-25 | the entity is matched afterwards, the set keeps no duplicates, and adding a present entity changes nothing |
| Systems.System.RemoveEntity | src/game/ecs/System.ts:27-29 | the entity is not matched afterwards, every other entity stays in order, and removing an absent entity changes nothing |
| SystemScheduling.AddedCalls | src/game/ecs/SystemManager.ts:73-80 | one onComponentAdded call per registered system, in list order |
| SystemScheduling.RemovedCalls | src/game/ecs/SystemManager.ts:82-89 | one onComponentRemoved call per registered system, in list order |
| SystemScheduling.Scheduled | src/game/ecs/SystemManager.ts:44-57 | one update call per system, in list order, each with the frame's deltaTime, and the faulting ones marked as caught |
| SystemScheduling.Names | src/game/ecs/SystemManager.ts:46-47 | every registered system's name is among the names timings are recorded under |
| SystemScheduling.SystemManager.constructor | src/game/ecs/SystemManager.ts:9-16 | no systems, no calls made, and the shared store and metrics |
| SystemScheduling.SystemManager.AddSystem | src/game/ecs/SystemManager.ts:25-27 | appends at the end, even a system already registered |
| SystemScheduling.SystemManager.RemoveSystem | src/game/ecs/SystemManager.ts:29-34 | drops only the first occurrence, keeps the rest in order, and ignores an unknown system |
| SystemScheduling.SystemManager.Cleanup | src/game/ecs/SystemManager.ts:36-38 | the system list ends empty |
| SystemScheduling.SystemManager.UpdateSystems | src/game/ecs/SystemManager.ts:44-57 | each system is updated exactly once, in list order, with the same deltaTime; a throwing system stops none of the later ones; with metrics enabled, each name's entry records, in list order, exactly the timings of the systems carrying that name (`TimingsOf`), and other metrics are unchanged; disabled, no metric changes |
| SystemScheduling.SystemManager.RunUpdates | src/game/ecs/SystemManager.ts:45-56 | the loop makes exactly the Scheduled calls and, with metrics enabled, records into each name's entry exactly the `TimingsOf` that name, in list order |
| SystemScheduling.SystemManager.RecordNext | src/game/ecs/SystemManager.ts:47-54 | one turn's `recordTime`: the i-th system's timing extends its own name's series, and no other name's |
| SystemScheduling.TimingsOf | src/game/ecs/SystemManager.ts:45-56 | the timings recorded under a name in one frame: none for a name no system carries, and only timings some update took |
| SystemScheduling.TimingsOfDistinct | src/game/ecs/SystemManager.ts:45-56 | when names are distinct, each system's name gets exactly one timing, its own update's |
| SystemScheduling.TimingsOfNames | src/game/ecs/SystemManager.ts:45-56 | every registered system's name gets at least one timing, so has an entry afterwards |
| SystemScheduling.RecordedOnce | src/game/ecs/SystemManager.ts:47-54 | with distinct names, a frame records each system's entry exactly once, with its own update's time |
| Metrics.RecordAllSnoc | src/game/utils/PerformanceMetrics.ts:49-69 | recording a series and then one more duration is recording the longer series |
| SystemScheduling.SystemManager.EntityMatchesSystem | src/game/ecs/SystemManager.ts:91-101 | true exactly when the entity holds every required type; a system requiring nothing matches every entity |
| SystemScheduling.SystemManager.AfterAddedMembers | src/game/ecs/SystemManager.ts:59-65 | after an adding notification the matched set is the old set plus the entity exactly when it matches |
| SystemScheduling.SystemManager.AfterRemovedMembers | src/game/ecs/SystemManager.ts:82-89 | after notifyComponentRemoved the matched set is the old set less the entity exactly when it no longer matches |
| SystemScheduling.SystemManager.AddIfMatching | src/game/ecs/SystemManager.ts:61-63 | a matching entity is in the system's set afterwards; the set changes as AfterAdded says and the type lists not at all |
| SystemScheduling.SystemManager.RemoveUnlessMatching | src/game/ecs/SystemManager.ts:84-86 | an entity that no longer matches is out of the set afterwards; the set changes as AfterRemoved says and the type lists not at all |
| SystemScheduling.SystemManager.NotifyEntityAdded | src/game/ecs/SystemManager.ts:59-65 | every system the entity matches has it afterwards (idempotently); no other set changes |
| SystemScheduling.SystemManager.NotifyEntityRemoved | src/game/ecs/SystemManager.ts:67-71 | the entity leaves every system's set whatever it still holds; other members stay in order |
| SystemScheduling.SystemManager.NotifyComponentAdded | src/game/ecs/SystemManager.ts:73-80 | every system the entity now matches has it (idempotently), and every system's onComponentAdded hook is called once, in order |
| SystemScheduling.SystemManager.DropUnmatched | src/game/ecs/SystemManager.ts:83-88 | each system drops the entity unless it still matches |
| SystemScheduling.SystemManager.NotifyComponentRemoved | src/game/ecs/SystemManager.ts:82-89 | every system the entity no longer matches drops it, and every system's onComponentRemoved hook is called once, in order |
| EcsProtocol.AddSystemAndKeep | src/game/ecs/SystemManager.ts:25-27 | registering a system with an empty set keeps "matched exactly when holding every required type" while no entity is live |
| EcsProtocol.AddComponentAndNotify | src/game/ecs/SystemManager.ts:73-80 | addComponent followed by notifyComponentAdded keeps the invariant and leaves the component stored |
| EcsProtocol.RemoveComponentAndNotify | src/game/ecs/SystemManager.ts:82-89 | removeComponent followed by notifyComponentRemoved keeps the invariant and leaves the type absent |
| EcsProtocol.CreateAndNotify | src/game/ecs/SystemManager.ts:59-65 | createEntity followed by notifyEntityAdded keeps the invariant over the registered ids |
| EcsProtocol.DestroyAndNotify | src/game/ecs/SystemManager.ts:67-71 | notifyEntityRemoved followed by destroyEntity keeps the invariant over the registered ids |
| EcsProtocol.DestroyWithoutNotify | src/game/ecs/EntityManager.ts:48-57 | destroyEntity alone notifies no system: an entity a system requiring nothing took in stays matched though no longer registered, which breaks the invariant |
| FrameClock.Constant | src/game/Timer.ts:22 | ten slots, each holding the given value |
| FrameClock.SumConstant | src/game/Timer.ts:37 | a buffer of n equal values v sums to n × v |
| FrameClock.MeanConstant | src/game/Timer.ts:37-38 | the mean of a buffer holding one value everywhere is that value |
| FrameClock.Writes | src/game/Timer.ts:33-34 | the buffer after n frames that each took d, written from a given slot on, still has ten slots |
| FrameClock.WritesCover | src/game/Timer.ts:33-34 | after n ≤ 10 writes, exactly the n slots from the start index onwards (circularly) hold d, and every other slot keeps its old value |
| FrameClock.SlotOffset | src/game/Timer.ts:34 | slot k is m writes after slot idx exactly when idx + m wraps round to k |
| FrameClock.NextSlot | src/game/Timer.ts:34 | advancing the wrapped index by one agrees with wrapping the advanced count |
| FrameClock.TenWritesFill | src/game/Timer.ts:33-38 | ten frames that all took d leave d in every slot whatever the buffer held, so the mean is d |
| FrameClock.Timer.constructor | src/game/Timer.ts:12-24 | targetFPS defaults to 60; targetFrameTime is 1000/targetFPS, every slot holds it, index and frame count are 0, both deltas are 0 and the last frame time is the given clock reading |
| FrameClock.Timer.Update | src/game/Timer.ts:26-39 | the delta is now − lastFrameTime, the frame count rises by 1, the delta goes into the current slot and no other, the index moves on modulo 10 (so stays in [0,10)), and the smoothed delta is the mean of the ten slots |
| FrameClock.Timer.GetDeltaTime | src/game/Timer.ts:41-43 | the millisecond delta in seconds |
| FrameClock.Timer.GetSmoothedDeltaTime | src/game/Timer.ts:45-47 | the smoothed millisecond delta in seconds |
| FrameClock.Timer.GetFPS | src/game/Timer.ts:49-51 | for a positive delta, the positive rate whose product with the delta is 1000; 0 otherwise |
| FrameClock.Timer.GetSmoothedFPS | src/game/Timer.ts:53-55 | the same for the smoothed delta |
| FrameClock.Timer.GetPerformanceRatio | src/game/Timer.ts:78-80 | target frame time over the smoothed delta, present exactly when the smoothed delta is non-zero |
| FrameClock.Timer.SetTargetFPS | src/game/Timer.ts:65-68 | sets the target rate and a frame time whose product with it is 1000; nothing else changes |
| FrameClock.Timer.Reset | src/game/Timer.ts:82-88 | every slot holds the target frame time again, frame count, delta and index are 0, but the smoothed delta keeps its value |
| FrameClock.Timer.SteadyFrames | src/game/Timer.ts:26-39 | ten updates with the same raw delta d make the smoothed delta exactly d, and isRunningSlowly then holds exactly when d > 1.2 × targetFrameTime |
| Events.Subscribed | src/game/events/EventManager.ts:18-23 | the listener is registered for the type afterwards, other types keep theirs, and subscribing a present listener changes nothing |
| Events.Unsubscribed | src/game/events/EventManager.ts:25-33 | the listener is gone from the type, every other listener of it stays, other types keep theirs, and no empty entry is left |
| Events.HasListenersIffRegistered | src/game/events/EventManager.ts:68-75 | hasListeners holds exactly when the type has an entry |
| Events.SubscribeCount | src/game/events/EventManager.ts:18-23 | subscribing is idempotent; a new listener raises the count by one and a present one leaves it |
| Events.UnsubscribeLast | src/game/events/EventManager.ts:29-31 | unsubscribing the only listener drops the type's entry, so its count is 0 |
| Events.Dispatch | src/game/events/EventManager.ts:50-61 | every listener of the event's type gets one call, in subscription order, whether or not an earlier one threw |
| Events.Drain | src/game/events/EventManager.ts:43-48 | an empty queue (or no fuel) delivers nothing and leaves the queue as it is |
| Events.DispatchQuiet | src/game/events/EventManager.ts:50-61 | listeners that emit nothing leave nothing on the queue |
| Events.DrainQuietIsFifo | src/game/events/EventManager.ts:43-48 | with enough fuel and listeners that emit nothing, draining delivers the queued events in FIFO order, each to all its listeners, and ends with an empty queue |
| Events.EventManager.constructor | src/game/events/EventManager.ts:6-9 | no listeners and an empty queue |
| Events.EventManager.Subscribe | src/game/events/EventManager.ts:18-23 | the registry becomes Subscribed of the old one and the queue is unchanged |
| Events.EventManager.Unsubscribe | src/game/events/EventManager.ts:25-33 | the registry becomes Unsubscribed of the old one and the queue is unchanged |
| Events.EventManager.Emit | src/game/events/EventManager.ts:35-37 | the event joins the tail of the queue and no listener runs |
| Events.EventManager.ProcessEvent | src/game/events/EventManager.ts:50-61 | the calls made are Dispatch's, the events listeners emit join the queue, and the registry is unchanged |
| Events.EventManager.EmitImmediate | src/game/events/EventManager.ts:39-41 | dispatches at once; the queue only gains what the listeners emit |
| Events.EventManager.ProcessEvents | src/game/events/EventManager.ts:43-48 | the deliveries and the remaining queue are those of Drain on the old queue, including events emitted during the drain |
| Events.EventManager.Clear | src/game/events/EventManager.ts:63-66 | registry and queue both end empty |
| Events.EventManager.GetListenerCount | src/game/events/EventManager.ts:68-71 | the number of distinct listeners of the type, 0 without an entry |
| Events.EventManager.HasListeners | src/game/events/EventManager.ts:73-75 | true exactly when the type has an entry |
| KeyboardEvents.NormalizeKey | src/game/events/KeyboardEvent.ts:27-40 | a key in the seven-entry table gets its name; any other key is lower-cased and has no ASCII upper-case letter |
| KeyboardEvents.KeyMapNamesCapitalised | src/game/events/KeyboardEvent.ts:29-37 | every name in the table starts with an upper-case letter |
| KeyboardEvents.Create | src/game/events/KeyboardEvent.ts:19-25 | the event keeps type, code and state and stores the normalised key |
| KeyboardEvents.CreatePressed | src/game/events/KeyboardEvent.ts:42-44 | type KeyPressed with the pressed state |
| KeyboardEvents.CreateReleased | src/game/events/KeyboardEvent.ts:46-48 | type KeyReleased with the released state |
| KeyboardEvents.CreateHeld | src/game/events/KeyboardEvent.ts:50-52 | type KeyHeld with the held state |
| KeyboardEvents.ExactlyOneState | src/game/events/KeyboardEvent.ts:54-64 | exactly one of isPressed, isReleased and isHeld holds, and on a factory-made event the type says which |
| KeyboardEvents.IsKey | src/game/events/KeyboardEvent.ts:66-68 | true exactly when the normalised key equals the lower-cased argument or the raw code equals the argument |
| KeyboardEvents.IsKeyOfOrdinaryKey | src/game/events/KeyboardEvent.ts:39 | a key outside the table is recognised by its own name in any letter case |
| KeyboardEvents.IsKeyOfSpecialKey | src/game/events/KeyboardEvent.ts:66-68 | a key in the table is recognised only through its raw code, never through its normalised name |
| KeyboardEvents.GetNumber | src/game/events/KeyboardEvent.ts:70-76 | a value exactly when the key is one decimal digit, and then that digit's value; null otherwise |
| KeyboardEvents.GetNumberOfDigitKey | src/game/events/KeyboardEvent.ts:74-76 | pressing digit key d gives back d |
| Metrics.Recorded | src/game/utils/PerformanceMetrics.ts:49-69 | one recording adds the duration to the total and one to the count, makes it the last time, can only lower the minimum and raise the maximum; a fresh entry's minimum is the duration and its maximum at least 0 |
| Metrics.TimesIsProduct | src/game/utils/PerformanceMetrics.ts:64-65 | repeated addition of x, c times, is c × x |
| Metrics.TimesMono | src/game/utils/PerformanceMetrics.ts:64-67 | repeated addition is monotone in the summand |
| Metrics.RecordedValid | src/game/utils/PerformanceMetrics.ts:49-69 | recording keeps an entry's count positive and its total between count × minimum and count × maximum |
| Metrics.RecordAllAggregates | src/game/utils/PerformanceMetrics.ts:49-69 | from no entry, recording a series gives its count, its sum, its minimum, the larger of 0 and its maximum, and its last element |
| Metrics.AverageBetween | src/game/utils/PerformanceMetrics.ts:79-82 | the average of a valid entry lies between its minimum and maximum and times the count gives the total |
| Metrics.PerformanceMetrics.constructor | src/game/utils/PerformanceMetrics.ts:29-32 | disabled, with no entries |
| Metrics.PerformanceMetrics.SetEnabled | src/game/utils/PerformanceMetrics.ts:41-43 | sets the flag and keeps every entry |
| Metrics.PerformanceMetrics.GetMetrics | src/game/utils/PerformanceMetrics.ts:71-73 | the entry for the name, absent for an unknown name |
| Metrics.PerformanceMetrics.RecordTime | src/game/utils/PerformanceMetrics.ts:49-69 | nothing while disabled; otherwise only the named entry changes, by Recorded, created on first use |
| Metrics.PerformanceMetrics.GetAllMetrics | src/game/utils/PerformanceMetrics.ts:75-77 | a new map with the same names and entries; the registry is unchanged |
| Metrics.PerformanceMetrics.GetAverageTime | src/game/utils/PerformanceMetrics.ts:79-82 | total over count for a known name, lying between its minimum and maximum; 0 for an unknown name |
| Metrics.PerformanceMetrics.Reset | src/game/utils/PerformanceMetrics.ts:84-86 | no entries afterwards, enabled flag kept |
| Vector2.MagnitudeSquared | src/game/ecs/components/Vector2.ts:58-60 | never negative, and 0 for the zero vector |
| Vector2.SquareNonNegative | src/game/ecs/components/Vector2.ts:59 | a square is never negative |
| Vector2.DistanceSquared | src/game/ecs/components/Vector2.ts:72-74 | never negative, and 0 from a vector to itself |
| Vector2.Normalize | src/game/ecs/components/Vector2.ts:62-66 | a zero magnitude gives the zero vector; any other gives the vector that, scaled back by the magnitude, is the original |
| Vector2.Clamp01 | src/game/ecs/components/Vector2.ts:77 | the result lies in [0,1] and a parameter already in [0,1] is kept |
| Vector2.Lerp | src/game/ecs/components/Vector2.ts:76-82 | the first vector plus the difference scaled by the clamped parameter; so at or below 0 the first vector, at or above 1 the second, and each coordinate between the two vectors' |
| Vector2.Copy | src/game/ecs/components/Vector2.ts:84-86 | the copy equals the original |
| Vector2.Equals | src/game/ecs/components/Vector2.ts:93-95 | true exactly when both components agree |
| Vector2.AddSubtractInverse | src/game/ecs/components/Vector2.ts:34-40 | subtracting undoes adding and adding undoes subtracting; addition is commutative with zero as unit |
| Vector2.MultiplyDivideInverse | src/game/ecs/components/Vector2.ts:42-48 | dividing by a non-zero scalar undoes multiplying by it; 1 is a unit and 0 gives the zero vector |
| Vector2.MagnitudeSquaredIsSelfDot | src/game/ecs/components/Vector2.ts:50-60 | the squared magnitude is the self dot product; dot product and squared distance are symmetric |
| Vector2.UnitDirections | src/game/ecs/components/Vector2.ts:18-32 | up, down, left and right all have squared magnitude 1 |
| Vector2.OppositeDirections | src/game/ecs/components/Vector2.ts:10-32 | up and down, and left and right, add to zero; right reversed is left and down reversed is up; right plus down is `one` |
| Vector2.Vector.constructor | src/game/ecs/components/Vector2.ts:5-8 | the object holds the given components |
| Vector2.Vector.Value | src/game/ecs/components/Vector2.ts:2-3 | the object's value is its two fields |
| Vector2.Vector.Copy | src/game/ecs/components/Vector2.ts:84-86 | a new object equal to this one |
| Vector2.Vector.Set | src/game/ecs/components/Vector2.ts:88-91 | overwrites both components of this object only |
| Vector2.CopyIsIndependent | src/game/ecs/components/Vector2.ts:84-91 | setting the original after copying it leaves the copy as it was |
| Transforms.Transform.constructor | src/game/ecs/components/Transform.ts:10-15 | missing position and scale default to (0,0) and (1,1); given ones are copied; rotation defaults to 0 and is kept when given |
| Transforms.Transform.Translate | src/game/ecs/components/Transform.ts:17-19 | the offset is added to the position, subtracting it gives the old position back, and rotation and scale are kept |
| Transforms.Transform.Rotate | src/game/ecs/components/Transform.ts:21-23 | the angle is added to the rotation only |
| Transforms.Transform.SetPosition | src/game/ecs/components/Transform.ts:25-27 | the position becomes a copy of the given vector; nothing else changes |
| Transforms.Transform.SetRotation | src/game/ecs/components/Transform.ts:29-31 | the rotation becomes the given value; nothing else changes |
| Transforms.Transform.SetScale | src/game/ecs/components/Transform.ts:33-35 | the scale becomes a copy of the given vector; nothing else changes |
| Transforms.Transform.GetWorldPosition | src/game/ecs/components/Transform.ts:37-40 | a new vector equal to the position |
| Transforms.Transform.GetWorldRotation | src/game/ecs/components/Transform.ts:42-45 | the rotation itself, there being no parent hierarchy |
| Transforms.Transform.GetWorldScale | src/game/ecs/components/Transform.ts:47-50 | a new vector equal to the scale |
| Transforms.StoresCopies | src/game/ecs/components/Transform.ts:10-12 | a transform does not follow later changes to the vector it was built from |
| Transforms.CloneTransform | src/game/ecs/components/Transform.ts:10-15 | a transform built from another's fields equals it field by field but is a distinct object |
| Colors.ClampChannel | src/game/ecs/components/Color.ts:8-11 | negative input gives 0, input of 255 or more gives 255, and otherwise the floor; never above the input unless the input is negative |
| Colors.MakeColor | src/game/ecs/components/Color.ts:7-12 | each channel is its argument floored and clamped into 0..255 |
| Colors.DefaultColor | src/game/ecs/components/Color.ts:7 | the defaults make opaque white |
| Colors.ClampChannelOfChannel | src/game/ecs/components/Color.ts:8-11 | a channel value passes through the constructor unchanged |
| Colors.HexDigit | src/game/ecs/components/Color.ts:64 | one digit of toString(16) is a lower-case hex digit |
| Colors.HexValue | src/game/ecs/components/Color.ts:52-55 | parseInt of one hex digit, in either case, is below 16 |
| Colors.HexValueOfDigit | src/game/ecs/components/Color.ts:52-64 | parsing a printed digit gives it back |
| Colors.ChannelToHex | src/game/ecs/components/Color.ts:64 | a channel prints as exactly two lower-case hex digits |
| Colors.ParseChannelToHex | src/game/ecs/components/Color.ts:52-64 | parsing a printed channel gives it back |
| Colors.ToHex | src/game/ecs/components/Color.ts:63-66 | '#' followed by two lower-case hex digits each for r, g, b and a, in that order |
| Colors.FromHex | src/game/ecs/components/Color.ts:50-57 | after dropping the first '#', a colour exactly when `parseInt(_, 16)` finds a number in each of the substrings [0,2), [2,4), [4,6) (and [6,8) when exactly eight characters remain); each channel is that number clamped to [0,255]; alpha 255 unless exactly eight characters remain, and otherwise the number read from [6,8), clamped |
| Colors.LeadingHexDigits | src/game/ecs/components/Color.ts:52-55 | the length of the longest prefix made of hex digits: every character before it is one and the one at it is not |
| Colors.HexNumber | src/game/ecs/components/Color.ts:52-55 | the value of a run of hex digits is below 16 for one digit and below 256 for two |
| Colors.ParseUnsignedHex | src/game/ecs/components/Color.ts:52-55 | `parseInt` past the sign: an optional `0x`, then the leading hex digits, nothing when there are none; a number below 256 from at most two characters |
| Colors.ParseIntHex | src/game/ecs/components/Color.ts:52-55 | `parseInt(_, 16)`: leading white space skipped, an optional sign, then `ParseUnsignedHex`; from at most two characters a number in [-15, 255] |
| Colors.ParseIntHexNoDigit | src/game/ecs/components/Color.ts:52-55 | a string without any hex digit parses to nothing (`NaN`) |
| Colors.ParseIntHexByte | src/game/ecs/components/Color.ts:52-55 | two hex digits parse to the byte they spell |
| Colors.ParseIntHexNegative | src/game/ecs/components/Color.ts:52-55 | after a '-' sign, `parseInt` gives the negated magnitude |
| Colors.ParseIntHexDigitPrefix | src/game/ecs/components/Color.ts:52-55 | a non-zero hex digit followed by a non-digit parses to that digit's value, the rest ignored |
| Colors.Substring | src/game/ecs/components/Color.ts:52-55 | `substring(i, j)` with both ends clamped: the characters from min(i, n) to min(j, n) |
| Colors.FromHexWellFormed | src/game/ecs/components/Color.ts:50-57 | a well-formed hex string gives the colour its digit pairs spell, alpha included when there are eight digits |
| Colors.FromHexOfGroups | src/game/ecs/components/Color.ts:50-57 | without an eight-character alpha group, the colour is the constructor applied to the three parsed groups and alpha 255 |
| Colors.FromHexDigitPrefix | src/game/ecs/components/Color.ts:52 | "#1g0000" reads red as 1: `parseInt` stops at the first non-digit |
| Colors.FromHexFiveDigits | src/game/ecs/components/Color.ts:52-54 | "#12345" reads blue from the single digit left, giving (18, 52, 5, 255) |
| Colors.FromHexOfFourGroups | src/game/ecs/components/Color.ts:50-57 | with eight characters after the '#', the colour is the constructor applied to the four parsed groups, the last one as alpha |
| Colors.FromHexAlphaDigitPrefix | src/game/ecs/components/Color.ts:55-57 | "#1234567g" reads alpha from the leading digit of "7g", giving (18, 52, 86, 7) |
| Colors.FromHexNegativeGroup | src/game/ecs/components/Color.ts:52-54 | "#-10000" reads red as -1, clamped to 0 |
| Colors.FromHexNoDigitGroup | src/game/ecs/components/Color.ts:52-57 | "#zz0000" gives no colour, since its red group has no digit |
| Colors.NamedColours | src/game/ecs/components/Color.ts:14-48 | each named factory gives the colour of its constructor arguments: white, black, red, green, blue, yellow, cyan, magenta and transparent |
| Colors.FromHexToHex | src/game/ecs/components/Color.ts:50-66 | reading back the hex rendering of a colour gives the colour |
| Colors.FromHexSixDigits | src/game/ecs/components/Color.ts:50-57 | a '#' and six hex digits give the opaque colour whose channels are the bytes the three digit pairs spell |
| Colors.RemoveLeadingHash | src/game/ecs/components/Color.ts:51 | replace('#', '') on a string starting with '#' drops exactly that character |
| Colors.ToPixiColor | src/game/ecs/components/Color.ts:77-79 | a 24-bit value from which r, g and b are read back by division and remainder by 256; alpha is dropped |
| Colors.DivMod256 | src/game/ecs/components/Color.ts:78 | quotient and remainder by 256 are unique |
| Colors.PackedOrIsSum | src/game/ecs/components/Color.ts:78 | on 32-bit words the bitwise or of the shifted channels equals their weighted sum |
| Colors.ToPixiColorInjectiveOnRgb | src/game/ecs/components/Color.ts:77-79 | equal packed values mean equal r, g and b; colours differing only in alpha pack alike |
| Colors.Copy | src/game/ecs/components/Color.ts:90-92 | the copy equals the original |
| Colors.Equals | src/game/ecs/components/Color.ts:94-96 | true exactly when all four channels agree |
| Colors.Clamp01 | src/game/ecs/components/Color.ts:99 | the result lies in [0,1], is 0 below, 1 above and the parameter itself inside |
| Colors.LerpChannel | src/game/ecs/components/Color.ts:100-105 | a channel of the interpolation is the first end at t = 0, the second at t = 1, and always between the two ends |
| Colors.BetweenChannels | src/game/ecs/components/Color.ts:101 | the unrounded interpolation point lies between the two channel values |
| Colors.LerpBetween | src/game/ecs/components/Color.ts:101 | an interpolation point with a fraction in [0,1] lies between the ends |
| Colors.LerpUp | src/game/ecs/components/Color.ts:101 | the same for an increasing pair |
| Colors.ScaleBetween | src/game/ecs/components/Color.ts:101 | a fraction of a non-negative amount lies between 0 and the amount |
| Colors.Lerp | src/game/ecs/components/Color.ts:98-106 | t at or below 0 gives the first colour, at or above 1 the second, and every channel lies between the two colours' channels |
| Strings.NatToString | src/game/ecs/Entity.ts:13 | the decimal rendering used in template strings: at least one digit, a single digit exactly below 10, no leading zero |
| Strings.ParseNatToString | src/game/events/KeyboardEvent.ts:75 | parsing the decimal rendering gives the number back |
| Strings.NatToStringInjective | src/game/ecs/Entity.ts:13 | distinct numbers render differently |
| Strings.IntToString | src/game/rhythm/RhythmLane.ts:22 | a decimal rendering with a leading '-' for negatives |
| Strings.IntToStringInjective | src/game/rhythm/RhythmLane.ts:22 | distinct integers render differently |
| Strings.ToLower | src/game/events/KeyboardEvent.ts:39 | toLowerCase on ASCII letters: same length, each character lowered |
| Strings.ToLowerIdempotent | src/game/events/KeyboardEvent.ts:39 | a lowered string has no upper-case letter and lowering again changes nothing |
| Seqs.IndexOf | src/game/ecs/SystemManager.ts:30 | indexOf: the first position of the element, or -1 exactly when it is absent |
| Seqs.RemoveFirst | src/game/ecs/SystemManager.ts:29-34 | splice at indexOf: unchanged when absent; otherwise one shorter, with the first occurrence cut out |
| Seqs.AddUnique | src/game/ecs/System.ts:23-25 | Set.add on an insertion-ordered set: the element is present, nothing else is added, nothing is lost, a present element changes nothing, no duplicates appear |
| Seqs.RemoveFirstNoDups | src/game/ecs/System.ts:27-29 | Set.delete on a duplicate-free sequence removes the element entirely and keeps it duplicate-free |
| Seqs.RemoveFirstMembers | src/game/ecs/System.ts:27-29 | removing keeps every other element and adds none |
| PhysicsBodies.PhysicsBodyComponent.constructor | src/game/physicsGame/components/PhysicsBodyComponent.ts:5-12 | holds the given body and is not grounded |
| PhysicsBodies.PhysicsBodyComponent.SetGrounded | src/game/physicsGame/components/PhysicsBodyComponent.ts:14-20 | isOnGround afterwards returns the value given; setting the current value changes nothing, and the body never changes |
| Players.PlayerComponent.constructor | src/game/physicsGame/components/PlayerComponent.ts:5-15 | jump force -15 and move speed 5 by default, jump flag set, cooldown 0 and maximum cooldown 200, so a new player can jump |
| Players.PlayerComponent.PerformJump | src/game/physicsGame/components/PlayerComponent.ts:21-26 | when allowed, the cooldown becomes its maximum and the flag is cleared, so no second jump is allowed; otherwise nothing changes |
| Players.PlayerComponent.UpdateCooldown | src/game/physicsGame/components/PlayerComponent.ts:28-32 | the cooldown drops by deltaTime only while positive; nothing else changes |
| Players.PlayerComponent.ResetJump | src/game/physicsGame/components/PlayerComponent.ts:34-37 | flag set and cooldown 0, so canPerformJump holds |
| Players.CooledDown | src/game/physicsGame/components/PlayerComponent.ts:28-32 | a cooldown that has run out stays put; a positive one falls by exactly the tick |
| Players.CooldownRunsOut | src/game/physicsGame/components/PlayerComponent.ts:28-32 | with positive ticks, enough of them bring the cooldown to 0 or below, and it never grows |
| Players.CooldownFalls | src/game/physicsGame/components/PlayerComponent.ts:28-32 | while still positive after n ticks, the cooldown has fallen by exactly n ticks |
| PhysicsGameState.PhysicsGameStateComponent.constructor | src/game/physicsGame/components/PhysicsGameStateComponent.ts:4-19 | the given field size, a 100-pixel ground, running, and jumps, score and boxes at 0 |
| PhysicsGameState.PhysicsGameStateComponent.IncrementJumps | src/game/physicsGame/components/PhysicsGameStateComponent.ts:21-23 | the jump count rises by exactly one and nothing else changes |
| PhysicsGameState.PhysicsGameStateComponent.Reset | src/game/physicsGame/components/PhysicsGameStateComponent.ts:25-28 | jumps back to 0 and the game running; score, boxes and field kept |
| PhysicsGameState.PhysicsGameStateComponent.GetGroundY | src/game/physicsGame/components/PhysicsGameStateComponent.ts:30-32 | the centre line of the ground band: half the ground height above the bottom, so within the band |
| Matter.Body.Rectangle | src/game/physicsGame/systems/BoxSpawnSystem.ts:41-48 | Bodies.rectangle: a body at rest centred on the given point, with bounds half the width and height either side |
| Matter.Body.ApplyForce | src/game/physicsGame/systems/PlayerInputSystem.ts:128-136 | Body.applyForce adds the force to the accumulated one and moves nothing |
| Matter.AreCollidingMeaning | src/game/physicsGame/systems/PhysicsSystem.ts:151-157 | the inclusive bounds-overlap test is symmetric and, for well-formed bounds, holds exactly when the boxes share a point on both axes |
| Matter.Engine.constructor | src/game/physicsGame/systems/PhysicsSystem.ts:20-23 | an empty world with default gravity, no step taken |
| Matter.Engine.Add | src/game/physicsGame/systems/PhysicsSystem.ts:173-178 | World.add appends the body |
| Matter.Engine.Remove | src/game/physicsGame/systems/PhysicsSystem.ts:180-182 | World.remove drops the first occurrence of the body, if any |
| Matter.Engine.Step | src/game/physicsGame/systems/PhysicsSystem.ts:186-187 | Engine.update records one step of the given length and changes no body list |
| Animations.Started | src/game/physicsGame/components/AnimationComponent.ts:29-77 | every start installs an active state of its type and duration with nothing elapsed and neutral scale, alpha and rotation |
| Animations.LandingScales | src/game/physicsGame/components/AnimationComponent.ts:113-134 | the squash phase before 0.3 widens by the progress and flattens by as much; the bounce phase scales both axes alike; the settle phase eases from 1.1 back to 1 |
| Animations.LandingPhases | src/game/physicsGame/components/AnimationComponent.ts:117-133 | the squash keeps width plus height at 2; the settle runs from 1.1 at progress 0.7 down to 1 at progress 1 |
| Animations.Shaped | src/game/physicsGame/components/AnimationComponent.ts:99-153 | the type's effect at the given progress: landing scales, jump scale 1 + 0.1·sin(πp) on both axes, bounce the same on both axes (its value and rotation in `BounceShape`); type, duration, elapsed, activity and alpha kept |
| Animations.BounceShape | src/game/physicsGame/components/AnimationComponent.ts:145-153 | a bounce scales both axes by 1 + sin(3πp)(1 − p)·0.3 and sets the rotation to sin(2πp)(1 − p)·0.1 |
| Animations.BounceBounded | src/game/physicsGame/components/AnimationComponent.ts:145-153 | for progress in [0,1] and a sine within [−1,1], the bounce scale stays within [0.7,1.3] and the rotation within [−0.1,0.1], and both are neutral (1 and 0) at progress 1 |
| Animations.Advanced | src/game/physicsGame/components/AnimationComponent.ts:79-111 | elapsed grows by deltaTime × 250; the animation stays active exactly when the progress is below 1, then with the type's effects applied, and otherwise ends with its effects untouched |
| Animations.AnimationEnds | src/game/physicsGame/components/AnimationComponent.ts:86-97 | with positive duration and step, enough updates end the animation |
| Animations.DivAtLeastOne | src/game/physicsGame/components/AnimationComponent.ts:89-91 | elapsed at least the duration means progress at least 1 |
| Animations.Run | src/game/physicsGame/components/AnimationComponent.ts:79-97 | repeated updates keep the duration |
| Animations.RunElapsed | src/game/physicsGame/components/AnimationComponent.ts:86-88 | while still active after n updates, exactly n × deltaTime × 250 has elapsed |
| Animations.OneMoreStep | src/game/physicsGame/components/AnimationComponent.ts:86-88 | one more update adds one more step of elapsed time |
| Animations.AnimationComponent.constructor | src/game/physicsGame/components/AnimationComponent.ts:21-27 | no stored animations and no current one |
| Animations.AnimationComponent.Start | src/game/physicsGame/components/AnimationComponent.ts:29-77 | a fresh Started state replaces the stored one of its type and becomes current |
| Animations.AnimationComponent.StartLandingAnimation | src/game/physicsGame/components/AnimationComponent.ts:29-45 | a fresh landing state, 300 ms by default, stored and current |
| Animations.AnimationComponent.StartJumpAnimation | src/game/physicsGame/components/AnimationComponent.ts:47-61 | a fresh jump state, 200 ms by default, stored and current |
| Animations.AnimationComponent.StartBounceAnimation | src/game/physicsGame/components/AnimationComponent.ts:63-77 | a fresh bounce state, 400 ms by default, stored and current |
| Animations.AnimationComponent.UpdateAnimation | src/game/physicsGame/components/AnimationComponent.ts:79-111 | nothing without a current animation; otherwise the current state advances as Advanced says, and once it ends there is no current animation |
| Animations.AnimationComponent.GetCurrentScaleX | src/game/physicsGame/components/AnimationComponent.ts:155-157 | the current scale, or 1 when there is no animation or the scale is 0; never 0 |
| Animations.AnimationComponent.GetCurrentScaleY | src/game/physicsGame/components/AnimationComponent.ts:159-161 | the same for the vertical scale |
| Animations.AnimationComponent.GetCurrentAlpha | src/game/physicsGame/components/AnimationComponent.ts:163-165 | the same for alpha |
| Animations.AnimationComponent.GetCurrentRotation | src/game/physicsGame/components/AnimationComponent.ts:167-169 | the current rotation, 0 without an animation |
| Animations.AnimationComponent.IsAnimating | src/game/physicsGame/components/AnimationComponent.ts:171-173 | true exactly when a current animation exists (it is then active) |
| AnimationSystems.AnimationSystem.constructor | src/game/physicsGame/systems/AnimationSystem.ts:8-14 | requires exactly the animation component and has matched nothing |
| AnimationSystems.AnimationSystem.Update | src/game/physicsGame/systems/AnimationSystem.ts:16-26 | every matched entity with an animation component gets exactly one updateAnimation with the frame's delta; the matched set is left alone |
| PhysicsSystems.OnTopBand | src/game/physicsGame/systems/PhysicsSystem.ts:103-118 | the on-top test holds exactly when the player's centre lies 10 to 30 above the other body's top and the x-ranges overlap strictly |
| PhysicsSystems.OnTopContact | src/game/physicsGame/systems/PhysicsSystem.ts:132-137 | for a 50-high player box that passes the on-top test, the boxes overlap exactly when the player's bottom has reached the other body's top |
| PhysicsSystems.HoveringIsOnTop | src/game/physicsGame/systems/PhysicsSystem.ts:112 | a player hovering 3 above a platform passes the on-top test without touching it |
| PhysicsSystems.Dispatch | src/game/physicsGame/systems/PhysicsSystem.ts:41-54 | a pair is handled with bodyA as the player when it is a player body, else with bodyB when that is one, and ignored exactly when neither is |
| PhysicsSystems.Landed | src/game/physicsGame/systems/PhysicsSystem.ts:86-94 | after a landing the player is grounded; the landing animation starts only on the way from airborne and only with an animation component; without a landing nothing changes |
| PhysicsSystems.LandedTwice | src/game/physicsGame/systems/PhysicsSystem.ts:86-94 | two collisions in a row act as one that lands when either does, so repeated contact starts no second landing animation |
| PhysicsSystems.PhysicsSystem.constructor | src/game/physicsGame/systems/PhysicsSystem.ts:15-31 | requires transform and physics body, an empty world with gravity (0, 1), and no player bodies |
| PhysicsSystems.PhysicsSystem.AddBody | src/game/physicsGame/systems/PhysicsSystem.ts:173-178 | the body joins the world always, and the player bodies exactly when isPlayer |
| PhysicsSystems.PhysicsSystem.RemoveBody | src/game/physicsGame/systems/PhysicsSystem.ts:180-182 | the body leaves the world; the player set is unchanged |
| PhysicsSystems.PhysicsSystem.FirstHolder | src/game/physicsGame/systems/PhysicsSystem.ts:159-167 | an answer is a matched entity whose physics component holds the body |
| PhysicsSystems.PhysicsSystem.FirstHolderIsFirst | src/game/physicsGame/systems/PhysicsSystem.ts:159-167 | no answer exactly when no matched entity holds the body; otherwise no earlier entity holds it |
| PhysicsSystems.PhysicsSystem.FindEntityByBody | src/game/physicsGame/systems/PhysicsSystem.ts:159-167 | the loop returns the first matched entity holding the body, or none |
| PhysicsSystems.PhysicsSystem.HandlePlayerCollision | src/game/physicsGame/systems/PhysicsSystem.ts:72-101 | grounding happens only when the on-top test passes, the player's entity and physics component are found and velocity.y ≥ -5; then that entity evolves by Landed and every other entity is left as it was |
| PhysicsSystems.PhysicsSystem.Land | src/game/physicsGame/systems/PhysicsSystem.ts:87-94 | grounded afterwards, with a 300 ms landing animation started only when it was airborne |
| PhysicsSystems.PhysicsSystem.HandleStartPair | src/game/physicsGame/systems/PhysicsSystem.ts:41-54 | one pair is dispatched and each matched entity evolves by whether that pair lands it |
| PhysicsSystems.PhysicsSystem.CollisionStart | src/game/physicsGame/systems/PhysicsSystem.ts:39-55 | a matched player ends grounded exactly when it was or some pair landed it, and its landing animation starts once, only if it was airborne and some pair landed it |
| PhysicsSystems.PhysicsSystem.StartStep | src/game/physicsGame/systems/PhysicsSystem.ts:41-54 | after pair i, the landed entities are exactly those some pair up to i lands, and each entity's stance is Landed of its start stance |
| PhysicsSystems.PhysicsSystem.LandedBy | src/game/physicsGame/systems/PhysicsSystem.ts:72-101 | exactly the matched entities a pair lands |
| PhysicsSystems.PhysicsSystem.LandedGrows | src/game/physicsGame/systems/PhysicsSystem.ts:41-54 | the entities landed by pairs up to i are those landed before it plus those pair i lands |
| PhysicsSystems.PhysicsSystem.RechecksFor | src/game/physicsGame/systems/PhysicsSystem.ts:58-69 | at most one re-check per pair, each for a player body and the physics component holding it |
| PhysicsSystems.PhysicsSystem.HandlePlayerCollisionEnd | src/game/physicsGame/systems/PhysicsSystem.ts:120-127 | a re-check is scheduled exactly when the player's entity is found, for its physics component |
| PhysicsSystems.PhysicsSystem.CollisionEnd | src/game/physicsGame/systems/PhysicsSystem.ts:58-69 | one re-check per pair with a found player, in pair order; nothing changes yet |
| PhysicsSystems.PhysicsSystem.StillGrounded | src/game/physicsGame/systems/PhysicsSystem.ts:129-140 | true exactly when some other world body both overlaps the player and passes the on-top test |
| PhysicsSystems.PhysicsSystem.RunRecheck | src/game/physicsGame/systems/PhysicsSystem.ts:127-146 | the player stays grounded exactly when it was and is still supported; the re-check never grounds a player |
| PhysicsSystems.PhysicsSystem.Update | src/game/physicsGame/systems/PhysicsSystem.ts:184-205 | the engine steps by a fixed 16.67 whatever the delta; each matched transform with a physics body takes the body's position and angle, and scale is never touched |
| PlayerInputSystems.HorizontalForce | src/game/physicsGame/systems/PlayerInputSystem.ts:110-116 | a held right key (`d` or `right`) asks for plus the move speed, winning over a held left key; otherwise a held left key (`a` or `left`) asks for minus it; no direction key asks for nothing |
| PlayerInputSystems.KeysAfter | src/game/physicsGame/systems/PlayerInputSystem.ts:38-48 | after a keyboard event its lower-cased key is held exactly when the event is a press; every other key is held exactly as before |
| PlayerInputSystems.PressThenRelease | src/game/physicsGame/systems/PlayerInputSystem.ts:38-48 | pressing and releasing a key in either letter case leaves it not held and every other key as it was; a second press of the same key changes nothing |
| PlayerInputSystems.Push | src/game/physicsGame/systems/PlayerInputSystem.ts:118-137 | the applied sideways force is a hundredth of the asked-for force or nothing; a push left happens only right of the left wall, a push right only left of the right wall, and every push away from a reached wall happens |
| PlayerInputSystems.JumpedView | src/game/physicsGame/systems/PlayerInputSystem.ts:74-82 | after a jump the player is not ready to jump again, and it is still where it was and as grounded as it was |
| PlayerInputSystems.PlayerStep | src/game/physicsGame/systems/PlayerInputSystem.ts:100-157 | one frame of one player: grounded afterwards exactly when it was or it is within 100 of the ground line; grounded implies may jump; a jump gate never closes; the body's force changes only by the sideways push; speeds and forces of the player are unchanged; an unchanged gate means the cooldown counted down |
| PlayerInputSystems.GroundedFrameReopensGate | src/game/physicsGame/systems/PlayerInputSystem.ts:153-156 | a player grounded after a frame may jump, and one whose gate was closed is ready for the next press |
| PlayerInputSystems.RightWinsAndWallHolds | src/game/physicsGame/systems/PlayerInputSystem.ts:111-132 | holding `a` and `d` together never pushes left, and at the right wall holding only right-hand keys pushes nowhere |
| PlayerInputSystems.FirstInIsFirst | src/game/physicsGame/systems/PlayerInputSystem.ts:65-92 | the search for a jumper finds none exactly when no matched entity is ready, and otherwise no entity before the one found is ready |
| PlayerInputSystems.ReadySet | src/game/physicsGame/systems/PlayerInputSystem.ts:74 | an entity is ready to jump exactly when it has a player view that is grounded with its cooldown run out and its jump gate open |
| PlayerInputSystems.JumpedAnim | src/game/physicsGame/components/AnimationComponent.ts:136-143 | a jump animation makes a fresh 200 ms jump the current animation and leaves every other stored animation as it was |
| PlayerInputSystems.SecondPressSkipsJumper | src/game/physicsGame/systems/PlayerInputSystem.ts:91 | after the first ready player jumps, a second press finds a different player, the next ready one, or none |
| PlayerInputSystems.PlayerInputSystem.constructor | src/game/physicsGame/systems/PlayerInputSystem.ts:20-32 | the system requires a player and a physics body, holds no key and no game state entity, and is subscribed to key presses and key releases, in that order |
| PlayerInputSystems.PlayerInputSystem.SetGameStateEntity | src/game/physicsGame/systems/PlayerInputSystem.ts:34-36 | the game state entity is set and the held keys are kept |
| PlayerInputSystems.PlayerInputSystem.HandleJumpInput | src/game/physicsGame/systems/PlayerInputSystem.ts:64-94 | the jumper is the first matched entity ready to jump, the search stopping there; exactly that player jumps and every other player and animation is unchanged; only the players and matter bodies of matched entities holding both a player and a physics body may change, so an entity with only one of them keeps it unchanged |
| PlayerInputSystems.PlayerInputSystem.PerformJumpOf | src/game/physicsGame/systems/PlayerInputSystem.ts:76-88 | a jump applies the jump force, closes the gate, starts the 200 ms jump animation when there is an animation component, and adds one to the game's jump count without touching score, boxes or field |
| PlayerInputSystems.PlayerInputSystem.HandleKeyPress | src/game/physicsGame/systems/PlayerInputSystem.ts:50-62 | without a game state entity, a game state component or a running game, or for a key other than `space`, `up` and `w`, no one jumps; otherwise the first ready player jumps; only the players and matter bodies of matched entities holding both a player and a physics body may change, so an entity with only one of them keeps it unchanged |
| PlayerInputSystems.PlayerInputSystem.HandleEvent | src/game/physicsGame/systems/PlayerInputSystem.ts:38-48 | the held keys follow `KeysAfter` for a keyboard event and stay as they were otherwise; only a key press can make a player jump, as `handleKeyPress` decides for its lower-cased key; only the players and matter bodies of matched entities holding both a player and a physics body may change, so an entity with only one of them keeps it unchanged |
| PlayerInputSystems.PlayerInputSystem.Update | src/game/physicsGame/systems/PlayerInputSystem.ts:96-158 | with a game state entity every player takes exactly one `PlayerStep` with the held keys; without one and with a player the frame throws exactly then, after the first player's cooldown has counted down and before anything else changes; only the players and matter bodies of matched entities holding both a player and a physics body may change, so an entity with only one of them keeps it unchanged |
| PlayerInputSystems.PlayerInputSystem.AllStepped | src/game/physicsGame/systems/PlayerInputSystem.ts:100-157 | once the loop has visited every matched entity, each player has had exactly one step |
| PlayerInputSystems.PlayerInputSystem.UpdatePlayer | src/game/physicsGame/systems/PlayerInputSystem.ts:106-156 | the loop body on one player and its body performs exactly `PlayerStep` of its view |
| PlayerInputSystems.PlayerInputSystem.Move | src/game/physicsGame/systems/PlayerInputSystem.ts:109-138 | the body's force grows by exactly the sideways `Push` and its position is unchanged |
| PlayerInputSystems.PlayerInputSystem.FallbackGrounding | src/game/physicsGame/systems/PlayerInputSystem.ts:140-151 | the player is grounded afterwards exactly when it was, or a game state exists and it is within 100 of the ground line |
| PlayerInputSystems.FirstIn | src/game/physicsGame/systems/PlayerInputSystem.ts:65-92 | the jumper the search finds is a matched entity that is ready to jump |
| PlayerInputSystems.PlayerInputSystem.Press | src/game/physicsGame/systems/PlayerInputSystem.ts:40-43 | a press holds its key from then on and makes jump whoever `handleKeyPress` picks for it; only the players and matter bodies of matched entities holding both a player and a physics body may change, so an entity with only one of them keeps it unchanged |
| PlayerInputSystems.PlayerInputSystem.ComponentsKept | src/game/physicsGame/systems/PlayerInputSystem.ts:40-43 | adding a held key leaves every player view, animation, frame set and the jump target of a key as they were, so the press that follows sees the state before it |
| PlayerInputSystems.PlayerInputSystem.CooldownThenThrow | src/game/physicsGame/systems/PlayerInputSystem.ts:107-120 | without a game state entity, the first player's cooldown has counted down when the frame fails, and every other player is as it was; only the players and matter bodies of matched entities holding both a player and a physics body may change, so an entity with only one of them keeps it unchanged |
| CollectibleSystems.QueuedOnce | src/game/physicsGame/systems/CollectibleSystem.ts:43-56 | the removal list holds exactly the matched entities whose body overlaps a player, each paired with its own body, and each once: its length is the number of such entities |
| CollectibleSystems.QueueOfEntries | src/game/physicsGame/systems/CollectibleSystem.ts:43-56 | every listed entry is a matched entity that overlaps a player, with its own body, and every such entity is listed |
| CollectibleSystems.QueueOfLength | src/game/physicsGame/systems/CollectibleSystem.ts:43-56 | when the matched entities have no repeats, the list has exactly one entry per overlapping entity |
| CollectibleSystems.RemoveAllMembers | src/game/physicsGame/systems/CollectibleSystem.ts:59-62 | removing the listed bodies from the world adds no body and keeps every unlisted one; from a world without repeats every listed body is gone and no repeat appears |
| CollectibleSystems.StripOneAt | src/game/physicsGame/systems/CollectibleSystem.ts:64-65 | one collection takes exactly the physics body and the collectible tag from the collected entity; every other component of every entity stays |
| CollectibleSystems.StripAllAt | src/game/physicsGame/systems/CollectibleSystem.ts:59-75 | after the whole removal list, an entity keeps a component precisely when it had it and it is not the physics body or collectible tag of a listed entity |
| CollectibleSystems.StripAllStoreParts | src/game/physicsGame/systems/CollectibleSystem.ts:59-75 | stripping a list entry by entry, with the hook log carried along, gives `StripAll` of the store and appends `StripAllLog` to the log |
| CollectibleSystems.StripAllLogRemovals | src/game/physicsGame/systems/CollectibleSystem.ts:64-65 | the removal pass logs only `onRemove` calls, at most two per list entry |
| CollectibleSystems.CollectibleSystem.constructor | src/game/physicsGame/systems/CollectibleSystem.ts:10-23 | the system requires a transform, a physics body and the collectible tag, and starts with no player body, no world and no game state entity |
| CollectibleSystems.CollectibleSystem.SetPhysicsWorld | src/game/physicsGame/systems/CollectibleSystem.ts:26-28 | the world is set; players and game state entity are kept |
| CollectibleSystems.CollectibleSystem.SetGameStateEntity | src/game/physicsGame/systems/CollectibleSystem.ts:30-32 | the game state entity is set; players and world are kept |
| CollectibleSystems.CollectibleSystem.RegisterPlayerBody | src/game/physicsGame/systems/CollectibleSystem.ts:34-36 | the body joins the set of player bodies, so registering it twice changes nothing |
| CollectibleSystems.CollectibleSystem.Update | src/game/physicsGame/systems/CollectibleSystem.ts:39-84 | without a world, a player body or a game state entity nothing changes; otherwise each matched entity overlapping a player is collected once: its body becomes a sensor and leaves the world, it loses its physics body and collectible tag, the score rises by the number collected and the boxes remaining equal the matched entities left; the hook log gains the `onRemove` calls of the strips, in order |
| CollectibleSystems.CollectibleSystem.Run | src/game/physicsGame/systems/CollectibleSystem.ts:43-83 | past the guards: the removal list is the detection result, the world and the store lose exactly its bodies and tags, the hook log gains the strips' `onRemove` calls, and the score and box count follow |
| CollectibleSystems.CollectibleSystem.Sweep | src/game/physicsGame/systems/CollectibleSystem.ts:43-75 | detection then removal: the removal list is the detection result, the world, store and hook log follow it, exactly the listed bodies become sensors and the score rises by the list's length |
| CollectibleSystems.CollectibleSystem.NotHitAgain | src/game/physicsGame/systems/CollectibleSystem.ts:47-48 | an entity without a physics body is never detected, so a collected entity is not collected again |
| CollectibleSystems.CollectibleSystem.Detect | src/game/physicsGame/systems/CollectibleSystem.ts:43-56 | the detection pass returns the removal list of the store as it was, and changes nothing |
| CollectibleSystems.CollectibleSystem.OverlapsPlayer | src/game/physicsGame/systems/CollectibleSystem.ts:50-55 | the inner loop answers yes exactly when the body's bounds overlap those of some player body |
| CollectibleSystems.CollectibleSystem.Collect | src/game/physicsGame/systems/CollectibleSystem.ts:59-75 | the removal pass removes the listed bodies from the world, strips the listed entities, makes exactly the listed bodies sensors, logs the strips' `onRemove` calls in order and adds one to the score per entry |
| CollectibleSystems.CollectibleSystem.Strip | src/game/physicsGame/systems/CollectibleSystem.ts:64-65 | the two `removeComponent` calls leave the store as `StripOne` of it and log the body's and then the tag's `onRemove`, each only when the entity held it |
| CollectibleSystems.CollectibleSystem.CollectOne | src/game/physicsGame/systems/CollectibleSystem.ts:60-74 | one entry: its body becomes a sensor and its first occurrence leaves the world, its entity is stripped with its `onRemove` calls logged, and the score rises by one when there is a game state |
| BoxSpawnSystems.DropXInside | src/game/physicsGame/systems/BoxSpawnSystem.ts:41 | a random draw in [0, 1) drops the box inside the game's width, a draw of 0 at its left edge |
| BoxSpawnSystems.WaveStep | src/game/physicsGame/systems/BoxSpawnSystem.ts:39-55 | the scene after a wave is the scene after each box in turn, one loop iteration at a time |
| BoxSpawnSystems.InstalledMeaning | src/game/physicsGame/systems/BoxSpawnSystem.ts:48-53 | after a wave every box entity holds its own transform, physics body and collectible tag on top of what it held, and every other entity holds exactly what it held |
| BoxSpawnSystems.RegisteredMeaning | src/game/physicsGame/systems/BoxSpawnSystem.ts:40 | the entity registry gains exactly the boxes' entities, each under its own id, and keeps every other entry |
| BoxSpawnSystems.WithBodiesMeaning | src/game/physicsGame/systems/BoxSpawnSystem.ts:54 | the world gains the boxes' bodies at its end in spawn order and keeps everything in front |
| BoxSpawnSystems.InstalledKeeps | src/game/physicsGame/systems/BoxSpawnSystem.ts:51-53 | a wave touches no component type other than transform, physics body and collectible tag |
| BoxSpawnSystems.BoxesMatched | src/game/physicsGame/systems/BoxSpawnSystem.ts:48-53 | every box of a wave holds the component types the physics system and the collectible system require |
| BoxSpawnSystems.MakeBox | src/game/physicsGame/systems/BoxSpawnSystem.ts:41-49 | a box is new objects placed at the drawn x and 50 above the top edge: body at rest, not a sensor and with no force, transform with no rotation and unit scale, not grounded |
| BoxSpawnSystems.BoxSpawnSystem.constructor | src/game/physicsGame/systems/BoxSpawnSystem.ts:19-24 | the spawner requires no component, shares the registry's store and has no game state entity yet |
| BoxSpawnSystems.BoxSpawnSystem.SetGameStateEntity | src/game/physicsGame/systems/BoxSpawnSystem.ts:26-28 | the game state entity is set |
| BoxSpawnSystems.BoxSpawnSystem.Update | src/game/physicsGame/systems/BoxSpawnSystem.ts:31-58 | without a game state, or with boxes remaining, nothing changes; otherwise five boxes with consecutive new ids, each at its draw's share of the game width, are installed in registry, store and world, and the count is five with every other game field kept |
| BoxSpawnSystems.BoxSpawnSystem.Wave | src/game/physicsGame/systems/BoxSpawnSystem.ts:36-57 | a due wave spawns five distinct boxes and sets the remaining count back to five, so the next frame spawns none |
| BoxSpawnSystems.BoxSpawnSystem.Spawn | src/game/physicsGame/systems/BoxSpawnSystem.ts:39-55 | the loop makes five distinct boxes with consecutive ids and the scene becomes `AfterWave` of them |
| BoxSpawnSystems.BoxSpawnSystem.SpawnBox | src/game/physicsGame/systems/BoxSpawnSystem.ts:40-54 | one iteration takes the next id, and the scene becomes `AfterBox` of the new box while the boxes made before stay as they were |
| BoxSpawnSystems.BoxSpawnSystem.Attach | src/game/physicsGame/systems/BoxSpawnSystem.ts:51-53 | the three `addComponent` calls add transform, physics body and collectible tag to the box entity and fire their three add notifications in that order |
| RhythmLanes.LaneShadeIsHex | src/game/rhythm/RhythmLane.ts:25-28 | a lane's shade is the colour `fromHex` gives for `#2a2a2a` on an even lane and for `#1a1a1a` on an odd one |
| RhythmLanes.LaneShade | src/game/rhythm/RhythmLane.ts:25-28 | a lane's colour is an opaque grey, and it is grey 42 exactly when the lane index is even |
| RhythmLanes.MakeLane | src/game/rhythm/RhythmLane.ts:14-28 | a lane keeps its index and geometry as given, takes the even or odd shade by the parity of its index, and is bound to the decimal rendering of its index plus one |
| RhythmLanes.LaneKeyIsDigit | src/game/rhythm/RhythmLane.ts:12-22 | lanes 0 to 4 are bound to the single digit keys "1" to "5", and their own digit matches them |
| RhythmLanes.LaneKeysDistinct | src/game/rhythm/RhythmLane.ts:22-32 | no key matches two lanes with different indices |
| RhythmLanes.NeighbourShadesDiffer | src/game/rhythm/RhythmLane.ts:25-28 | neighbouring lanes never share a shade |
| RhythmNotes.DefaultColorForLane | src/game/rhythmGame/components/RhythmNoteComponent.ts:23-32 | lanes 0 to 4 are red, blue, green, yellow and magenta; any lane outside the list falls back to white |
| RhythmNotes.LaneColorsDistinct | src/game/rhythmGame/components/RhythmNoteComponent.ts:23-32 | the five lanes have five different colours, none of them the fallback white |
| RhythmNotes.RhythmNoteComponent.constructor | src/game/rhythmGame/components/RhythmNoteComponent.ts:13-21 | a new note is active and not hit, speed and size default to 50, and a given colour overrides the lane's default |
| RhythmNotes.RhythmNoteComponent.MarkAsHit | src/game/rhythmGame/components/RhythmNoteComponent.ts:34-37 | a hit note is hit and out of play; lane, colour, speed and size stay |
| RhythmNotes.RhythmNoteComponent.MarkAsInactive | src/game/rhythmGame/components/RhythmNoteComponent.ts:39-41 | the note leaves play and whether it was hit stays as it was |
| RhythmGameState.LaneGeometry | src/game/rhythm/components/RhythmGameStateComponent.ts:21-36 | with lanes a fifth of the field wide, lane 0 starts at the left edge, adjacent lanes start one lane width apart, the fifth lane ends exactly at the right edge, and on a field of positive width each centre lies strictly inside its lane |
| RhythmGameState.RhythmGameStateComponent.constructor | src/game/rhythm/components/RhythmGameStateComponent.ts:14-24 | a new game runs with no score, the spawn timer at 0 and a 6000 ms interval; the five lanes fill the field's width and the hit line is 100 above its bottom |
| RhythmGameState.RhythmGameStateComponent.AddScore | src/game/rhythm/components/RhythmGameStateComponent.ts:26-28 | the score grows by the points given, one by default, and nothing else changes |
| RhythmGameState.RhythmGameStateComponent.GetLaneX | src/game/rhythm/components/RhythmGameStateComponent.ts:30-32 | the left edge of a lane under the state's lane width, whose layout `LaneGeometry` states |
| RhythmGameState.RhythmGameStateComponent.GetLaneCenter | src/game/rhythm/components/RhythmGameStateComponent.ts:34-36 | the centre of a lane under the state's lane width, inside the lane as `LaneGeometry` states |
| RhythmGameState.RhythmGameStateComponent.Reset | src/game/rhythm/components/RhythmGameStateComponent.ts:38-42 | the score and spawn timer return to 0 and the game runs; field, lanes, hit line and interval stay |
| HitLines.MakeHitLine | src/game/rhythm/components/HitLineComponent.ts:12-19 | a hit line keeps its position and width, defaults to height 5 and tolerance 25, and is always white |
| HitLines.IsNoteInHitZone | src/game/rhythm/components/HitLineComponent.ts:21-25 | a note is in the hit zone exactly when its centre lies in the closed band of the tolerance around the line, both edges included |
| HitLines.HitZoneSymmetric | src/game/rhythm/components/HitLineComponent.ts:21-25 | note centres equally far above and below the line get the same answer |
| HitLines.CentredNoteHits | src/game/rhythm/components/HitLineComponent.ts:21-25 | a note centred on the line is in the zone whenever the tolerance is not negative |
| RhythmInputSystems.LaneOfEvent | src/game/rhythm/systems/RhythmInputSystem.ts:40-47 | an event strikes a lane exactly when it is a key press of a single digit 1 to 5, and then it strikes the lane one below that digit |
| RhythmInputSystems.DigitKeyStrikesLane | src/game/rhythm/systems/RhythmInputSystem.ts:42-45 | pressing digit d from 1 to 5 strikes lane d - 1, whatever the key's code |
| RhythmInputSystems.Closest | src/game/rhythm/systems/RhythmInputSystem.ts:58-75 | the note the search settles on is a matched entity with a note view that is active, in the lane and in the hit zone |
| RhythmInputSystems.ClosestIsFirstNearest | src/game/rhythm/systems/RhythmInputSystem.ts:58-75 | the search finds a note exactly when some note is eligible; the one found is at least as near the line as every eligible note and strictly nearer than every eligible note before it, so ties go to the first |
| RhythmInputSystems.Struck | src/game/rhythm/systems/RhythmInputSystem.ts:80 | a struck note is hit and out of play |
| RhythmInputSystems.StruckOnce | src/game/rhythm/systems/RhythmInputSystem.ts:65 | a struck note is never eligible again in any lane, and later frames do not move it |
| RhythmInputSystems.Kept | src/game/rhythm/systems/RhythmInputSystem.ts:89-97 | what the clean-up keeps is exactly the entities not removed, never more than there were |
| RhythmInputSystems.KeptNoDups | src/game/rhythm/systems/RhythmInputSystem.ts:89-97 | the clean-up keeps the matched set free of repeats |
| RhythmInputSystems.RhythmInputSystem.constructor | src/game/rhythm/systems/RhythmInputSystem.ts:19-30 | the system requires a transform and a note, has no game state and no hit line entity, and is subscribed to key presses only |
| RhythmInputSystems.RhythmInputSystem.SetGameStateEntity | src/game/rhythm/systems/RhythmInputSystem.ts:32-34 | the game state entity is set and the hit line entity kept |
| RhythmInputSystems.RhythmInputSystem.SetHitLineEntity | src/game/rhythm/systems/RhythmInputSystem.ts:36-38 | the hit line entity is set and the game state entity kept |
| RhythmInputSystems.RhythmInputSystem.FindClosest | src/game/rhythm/systems/RhythmInputSystem.ts:58-75 | the search loop returns exactly `Closest`, with no distance held standing for `Infinity` |
| RhythmInputSystems.RhythmInputSystem.HandleLaneInput | src/game/rhythm/systems/RhythmInputSystem.ts:49-87 | without both entities or both components nothing changes; otherwise the nearest eligible note in the lane is struck and the score rises by one, while every other note, and the score on a miss, stay; no other game state field changes; only the notes of matched entities holding a transform and a note may change, so a note without a transform stays as it was |
| RhythmInputSystems.RhythmInputSystem.StrikeLane | src/game/rhythm/systems/RhythmInputSystem.ts:57-86 | past the guards: exactly the note `Closest` finds is struck (the second lookup of it always succeeds), and the score rises by one exactly when there is one; no other game state field changes; only the notes of matched entities holding a transform and a note may change, so a note without a transform stays as it was |
| RhythmInputSystems.RhythmInputSystem.StrikeFound | src/game/rhythm/systems/RhythmInputSystem.ts:77-83 | once a note was found, looking it up again succeeds; that note is struck, no other note changes, the score rises by exactly one and no other game state field changes |
| RhythmInputSystems.RhythmInputSystem.Strike | src/game/rhythm/systems/RhythmInputSystem.ts:77-83 | the found note is struck, no other note changes, the score rises by exactly one and no other game state field changes |
| RhythmInputSystems.RhythmInputSystem.HandleEvent | src/game/rhythm/systems/RhythmInputSystem.ts:40-47 | a press of a digit 1 to 5 is handled as input on its lane; every other event changes no note and no score; no game state field but the score ever changes; only the notes of matched entities holding a transform and a note may change, so a note without a transform stays as it was |
| RhythmInputSystems.RhythmInputSystem.Update | src/game/rhythm/systems/RhythmInputSystem.ts:89-97 | the entities whose note is out of play leave the matched set, the others stay in their order, and the required types are kept |
| RhythmInputSystems.RhythmInputSystem.SweepOne | src/game/rhythm/systems/RhythmInputSystem.ts:91-95 | one turn of the clean-up loop removes its entity exactly when its note is out of play, keeping the order of the others and the required types |
| RhythmInputSystems.KeptKeep | src/game/rhythm/systems/RhythmInputSystem.ts:91-95 | walking past an entity that stays keeps the loop's picture of the matched set |
| RhythmInputSystems.KeptDrop | src/game/rhythm/systems/RhythmInputSystem.ts:93-94 | removing, at its turn, an entity that goes removes its only occurrence and keeps the loop's picture of the matched set |
| RhythmSpawnSystems.RandomLane | src/game/rhythm/systems/RhythmSpawnSystem.ts:44 | a draw in [0, 1) picks a lane from 0 to 4, the whole part of five times the draw |
| RhythmSpawnSystems.EveryLaneDrawn | src/game/rhythm/systems/RhythmSpawnSystem.ts:44 | each lane is picked by exactly its fifth of the range of draws, so every lane can be drawn |
| RhythmSpawnSystems.NoteNameShowsLane | src/game/rhythm/systems/RhythmSpawnSystem.ts:47 | a note's name is `Note_Lane`, its lane digit, `_` and the clock reading, so notes of different lanes never share a name |
| RhythmSpawnSystems.NoteFitsLane | src/game/rhythm/systems/RhythmSpawnSystem.ts:50 | a new note is centred in its lane and, when lanes are at least a note wide, lies inside it |
| RhythmSpawnSystems.TimerStaysBelowInterval | src/game/rhythm/systems/RhythmSpawnSystem.ts:33-39 | after every frame the timer is below a positive interval, and it never goes negative while frames do not |
| RhythmSpawnSystems.FramesKeepTime | src/game/rhythm/systems/RhythmSpawnSystem.ts:33-39 | over any number of frames the timer plus what the spawns cleared equals the starting timer plus the frames' time in milliseconds |
| RhythmSpawnSystems.FramesClearIntervals | src/game/rhythm/systems/RhythmSpawnSystem.ts:36-38 | each spawn clears at least one whole interval |
| RhythmSpawnSystems.AtMostOneNotePerInterval | src/game/rhythm/systems/RhythmSpawnSystem.ts:26-40 | from a timer at 0 or more and frames of non-negative length, at most one note is spawned per interval of elapsed time |
| RhythmSpawnSystems.FramesTimerNonNegative | src/game/rhythm/systems/RhythmSpawnSystem.ts:33-38 | the timer never goes negative from a start at 0 or more |
| RhythmSpawnSystems.MakeNote | src/game/rhythm/systems/RhythmSpawnSystem.ts:50-56 | a new note is placed centred in its lane 50 above the top edge, with no rotation and unit scale, and is an active, unhit note of that lane in the lane's colour, speed and size 50 |
| RhythmSpawnSystems.RhythmSpawnSystem.constructor | src/game/rhythm/systems/RhythmSpawnSystem.ts:16-20 | the spawner requires nothing, shares the registry's store and has no game state entity yet |
| RhythmSpawnSystems.RhythmSpawnSystem.SetGameStateEntity | src/game/rhythm/systems/RhythmSpawnSystem.ts:22-24 | the game state entity is set |
| RhythmSpawnSystems.RhythmSpawnSystem.Update | src/game/rhythm/systems/RhythmSpawnSystem.ts:26-40 | without a running game nothing changes; otherwise the timer advances by the frame in milliseconds, and exactly when it reaches the interval one note is spawned in the drawn lane and the timer returns to 0; nothing else in the state changes |
| RhythmSpawnSystems.RhythmSpawnSystem.Tick | src/game/rhythm/systems/RhythmSpawnSystem.ts:32-39 | past the guards: the timer follows `NextTimer`, and a note is spawned exactly when it is due |
| RhythmSpawnSystems.RhythmSpawnSystem.SpawnRandomNote | src/game/rhythm/systems/RhythmSpawnSystem.ts:42-64 | a new entity with the next id and the note's name, indexed under that name, gets a transform and a note of the drawn lane, and every system has been told of it and matches it by its required types |
| RhythmSpawnSystems.RhythmSpawnSystem.Register | src/game/rhythm/systems/RhythmSpawnSystem.ts:44-57 | the new entity takes the next id, the name index maps the note's name to it, and registry and store gain exactly it and its two components |
| RhythmSpawnSystems.RhythmSpawnSystem.Attach | src/game/rhythm/systems/RhythmSpawnSystem.ts:53-57 | the two `addComponent` calls add the transform and then the note to the entity and fire their two add notifications in that order |
| NoteMotion.FallMovesDown | src/game/rhythm/systems/RhythmNoteSystem.ts:22-26 | a frame moves a note in play straight down by speed times the frame time and changes nothing else but whether it is in play; a note out of play is left exactly as it is |
| NoteMotion.LeavesPlayBelowLine | src/game/rhythm/systems/RhythmNoteSystem.ts:28-32 | a note leaves play in a frame exactly when it was in play and ends the frame below the miss line at 600; a note still in play is never below it, and no frame revives one |
| NoteMotion.RunKeepsIdentity | src/game/rhythm/systems/RhythmNoteSystem.ts:17-34 | over any number of frames a note keeps its column, lane, colour, speed, size, rotation, scale and hit flag |
| NoteMotion.RunStaysOut | src/game/rhythm/systems/RhythmNoteSystem.ts:22 | once a note is out of play later frames leave it as it is: a missed note is never moved or revived |
| NoteMotion.RunFallsSteadily | src/game/rhythm/systems/RhythmNoteSystem.ts:25-26 | a note still in play after k frames has fallen exactly k times its per-frame distance |
| NoteMotion.FallOne | src/game/rhythm/systems/RhythmNoteSystem.ts:24-32 | the loop body on one note in play moves its transform and marks it out of play exactly as `Fall` says |
| RhythmNoteSystems.RhythmNoteSystem.constructor | src/game/rhythm/systems/RhythmNoteSystem.ts:10-15 | the system requires a transform and a note and matches no entity yet |
| RhythmNoteSystems.RhythmNoteSystem.Update | src/game/rhythm/systems/RhythmNoteSystem.ts:17-34 | every matched note with both components has exactly one frame of `Fall`, whatever the order of the matched set; it may change only the transforms and notes of matched entities holding both, so a matched entity with only one of the two keeps it unchanged |
| RhythmNoteSystems.RhythmNoteSystem.FrameStep | src/game/rhythm/systems/RhythmNoteSystem.ts:19-32 | the loop body for one matched entity moves the loop's progress on by one entity, touching no other note; it may change only the transforms and notes of matched entities holding both, so a matched entity with only one of the two keeps it unchanged |
| RhythmGameNoteSystems.RhythmNoteSystem.constructor | src/game/rhythmGame/systems/RhythmNoteSystem.ts:10-15 | this copy of the system requires a transform and a `RhythmNoteComponent` and matches no entity yet |
| RhythmGameNoteSystems.RhythmNoteSystem.Update | src/game/rhythmGame/systems/RhythmNoteSystem.ts:17-34 | every matched note with both components has exactly one frame of `Fall`; it may change only the transforms and notes of matched entities holding both, so a matched entity with only one of the two keeps it unchanged |
| RhythmGameNoteSystems.RhythmNoteSystem.FrameStep | src/game/rhythmGame/systems/RhythmNoteSystem.ts:19-32 | the loop body for one matched entity moves the loop's progress on by one entity, touching no other note; it may change only the transforms and notes of matched entities holding both, so a matched entity with only one of the two keeps it unchanged |

## Left out

- Rendering and UI are not part of this model: the React shells, the PIXI drawing systems (`RhythmRenderSystem`, `PhysicsRenderSystem`), entity graphics (reduced to whether an entity has one) and the `Logger` output.
- The game-mode assembler `src/game/physicsGame/PhysicsGame.ts` is not part of this model. It calls a `setSystemNotifier` that `ComponentManager.ts` does not define, so the store here notifies no one, and the protocol in `EcsProtocol` is stated instead.
- The matter-js simulation is not modelled. An engine step is only recorded; an applied force is added to the body's accumulated force; positions, velocities and bounds are whatever the environment sets. Body options (density, friction, restitution) and the engine's own collision detection are left out. The engine's collision events are calls with the event's pairs. `World` and `Engine` are one object.
- The 100 ms `setTimeout` before the ground re-check is not modelled: `CollisionEnd` returns the re-checks it schedules, and the environment runs each one later with `RunRecheck`.
- IEEE floating point is not modelled: numbers are exact reals. `Infinity` (the starting distance of the note search, a rate at a zero frame time) is `None`, and `NaN`, which `parseInt` gives for a hex group in which it finds no digit, makes `fromHex` return `None`.
- `Math.sqrt` is not modelled: `magnitude` and `distance` are left out, and `Normalize` is given the magnitude. `Math.sin` is the parameter `sinPi`.
- The colour conversions `toRgb`, `toRgba`, `getNormalized` and `fromRgbNormalized` and the debugging `toString` methods are left out: they are formatting or floating-point scaling.
- `PerformanceGuard` and `getReport` are left out: the first reads `performance.now()`, the second formats text with `toFixed`.
- Singletons (`getInstance`) are passed in as constructor parameters. A listener's identity is a number, and what it does on an event is a `Reaction` parameter.
- `EventManager.processEvents` runs with a `fuel` bound on the number of events it handles. A listener that emits an event for every event it handles never lets the source's loop stop; the model stops after `fuel` events.
- `Update` of the platformer input system returns `threw` for the `TypeError` that `getComponent(null!, …)` raises when no game state entity is set. The frame stops there, as in the source.
- The debug logging inside `handleJumpInput`, `handleLaneInput`, the collision handlers and the note systems is left out.
- The trivial getters `getFrameCount`, `getTargetFPS`, `getTargetFrameTime`, `getEngine`, `getWorld`, `getEntities` and `getAllEntities` are left out; the fields they return are public in the model. `SystemManager.update` only calls `updateSystems` and is modelled as that.
- `onComponentAdded` and `onComponentRemoved` do nothing in every system of the source. The scheduler records that it called them rather than calling anything.
- The component `onRemove` hooks of one entity run in the store's insertion order in the source. The model states which components were removed, as a set, not their order.
- `PhysicsBodyComponent.body` is never reassigned in the source and is a constant field here.
- Frame clock constructor and `SetTargetFPS`: both require a non-zero frame rate. A zero rate gives the source an infinite target frame time, which exact reals cannot represent.
- `Vector2.Divide` requires a non-zero scalar, because division by zero gives a floating-point infinity.
- `PlayerInputSystems.PlayerInputSystem.HandleJumpInput`, `HandleKeyPress`, `HandleEvent` and `Update` require that no two matched players share one matter body. The game makes one body per entity; without that premise, a jump by one player would also move another.
- `PhysicsSystems.PhysicsSystem.HandleStartPair` takes a ghost parameter `others`: the pairs whose on-top test it must leave unchanged. This is a proof device, not a source value.
- `BoxSpawnSystems.BoxSpawnSystem.Update` does not restate the registry's name index for the new boxes. Their names are the default `Entity_<id>` names, which `EntityManager.CreateEntity` states.
- `RhythmSpawnSystem.ts` imports `RhythmNoteComponent` from `src/game/rhythm/components/RhythmNoteComponent.ts`, which is not part of this model. It is taken to be the `src/game/rhythmGame/components/RhythmNoteComponent.ts`.
- The debug message `handleLaneInput` would log when the second lookup of the found note fails is left out; the model repeats the lookup and marks the note only when it succeeds, as the source does, and proves that it always succeeds.
- `if (!this.gameStateEntity)` on an entity object is modelled as an `Option` of an entity id.
- Strings.ToLower: lowers ASCII letters only. JavaScript's `toLowerCase` also lowers non-ASCII letters, which the model leaves unchanged.
- KeyboardEvents.NormalizeKey: inherits the ASCII-only lowering of `Strings.ToLower`; a non-ASCII key is kept as it is.
- KeyboardEvents.IsKey: compares keys after the ASCII-only lowering, so two keys that differ only in the case of a non-ASCII letter do not match here.
- PlayerInputSystems.KeysAfter: records the key after the ASCII-only lowering, so a non-ASCII upper-case key is held under its own spelling.
- EntityManagement.EntityManager.Clear: does not state the hook log or the destroyed entities' names. The `onRemove` calls follow the order in which the id map is walked, which the model leaves unfixed. `DestroyEntity` states both for a single destruction, and no source component's `onRemove` does anything.
- EntityManagement.EntityManager.DestroyRegistered: does not restate the `onRemove` calls. They are those of `DestroyEntity`, which it calls.
- EntityManagement.EntityManager.GetActiveEntities: returns a set. The source returns an array in insertion order; the model keeps which entities are returned but not their order.
- ComponentStore.ComponentManager.GetEntityComponents: returns a set. The source returns an array in insertion order; the model keeps which components are returned but not their order.
- Metrics.PerformanceMetrics.GetAllMetrics: entries are values, so the model does not capture that the source's copy is shallow and shares its entry records with the registry, whose later `recordTime` calls change them.
- Metrics.PerformanceMetrics.GetMetrics: returns the entry as a value; the source hands out the live record, which later `recordTime` calls change.
