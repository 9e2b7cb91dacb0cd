/**
 * The closed set of component types (src/game/ecs/Component.ts and the
 * component classes of both game modes).
 *
 * The store keys a component by its class name; `ComponentType` is that
 * key. Three of the keys ("RhythmNote", "RhythmGameState", "HitLine") name
 * classes the rhythm systems import from files that are not part of this
 * model; they are given the fields and behaviour of the shown
 * `RhythmNoteComponent`, `RhythmGameStateComponent` and `HitLineComponent`,
 * and are backed here by those same classes under separate keys.
 */
module Components {
  import Transforms
  import PhysicsBodies
  import Players
  import PhysicsGameState
  import Animations
  import RhythmGameState
  import HitLines
  import RhythmNotes

  datatype ComponentType =
    | TransformKey
    | PhysicsBodyKey
    | CollectibleKey
    | PlayerKey
    | PhysicsGameStateKey
    | AnimationKey
    | RhythmGameStateComponentKey
    | HitLineComponentKey
    | RhythmNoteComponentKey
    | RhythmNoteKey
    | RhythmGameStateKey
    | HitLineKey

  /** A component of one of the known classes. `Collectible` is a tag holding only its owner. */
  datatype Component =
    | TransformC(transform: Transforms.Transform)
    | PhysicsBodyC(physicsBody: PhysicsBodies.PhysicsBodyComponent)
    | CollectibleC(owner: nat)
    | PlayerC(player: Players.PlayerComponent)
    | PhysicsGameStateC(physicsState: PhysicsGameState.PhysicsGameStateComponent)
    | AnimationC(animation: Animations.AnimationComponent)
    | RhythmGameStateComponentC(rhythmState: RhythmGameState.RhythmGameStateComponent)
    | HitLineComponentC(hitLine: HitLines.HitLineComponent)
    | RhythmNoteComponentC(note: RhythmNotes.RhythmNoteComponent)
    | RhythmNoteC(note: RhythmNotes.RhythmNoteComponent)
    | RhythmGameStateC(rhythmState: RhythmGameState.RhythmGameStateComponent)
    | HitLineC(hitLine: HitLines.HitLineComponent)

  /** `component.constructor.name`: the key a component is stored under. */
  function TypeOf(c: Component): ComponentType {
    match c
    case TransformC(_) => TransformKey
    case PhysicsBodyC(_) => PhysicsBodyKey
    case CollectibleC(_) => CollectibleKey
    case PlayerC(_) => PlayerKey
    case PhysicsGameStateC(_) => PhysicsGameStateKey
    case AnimationC(_) => AnimationKey
    case RhythmGameStateComponentC(_) => RhythmGameStateComponentKey
    case HitLineComponentC(_) => HitLineComponentKey
    case RhythmNoteComponentC(_) => RhythmNoteComponentKey
    case RhythmNoteC(_) => RhythmNoteKey
    case RhythmGameStateC(_) => RhythmGameStateKey
    case HitLineC(_) => HitLineKey
  }

  /** `component.entity.id`: the entity a component was created for. */
  function Owner(c: Component): nat {
    match c
    case TransformC(t) => t.entity
    case PhysicsBodyC(p) => p.entity
    case CollectibleC(e) => e
    case PlayerC(p) => p.entity
    case PhysicsGameStateC(s) => s.entity
    case AnimationC(a) => a.entity
    case RhythmGameStateComponentC(s) => s.entity
    case HitLineComponentC(h) => h.entity
    case RhythmNoteComponentC(n) => n.entity
    case RhythmNoteC(n) => n.entity
    case RhythmGameStateC(s) => s.entity
    case HitLineC(h) => h.entity
  }

  /**
   * The calls the store makes on components. No component class overrides
   * `onAdd` or `onRemove`, so a call has no effect beyond being made; the
   * store keeps a log of them.
   */
  datatype Hook = OnAdd(added: Component) | OnRemove(removed: Component)
}
