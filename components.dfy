/** The entity store's data: the components a system can query, the
    entities that own them, the inputs systems read and the deferred
    spawn/despawn requests they emit. */
module Components {
  import opened Geometry

  datatype Option<T> = None | Some(value: T)

  /** Position and the angle of `Quat::from_rotation_z` giving the rotation.
      Scale is never touched by the simulation and is not modelled. */
  datatype Transform = Transform(translation: Vec3, rotation: real)

  datatype Velocity = Velocity(magnitude: Vec3, lastChange: real, noFriction: bool)

  /** The material handle the source keeps here is rendering data and is
      not modelled. */
  datatype Shooter = Shooter(shootDirection: Vec2, shootAngle: real, lastShotAt: real)

  datatype Lifespan = Lifespan(killAt: real)

  /** The components one entity owns; a missing component is `None`. */
  datatype Bundle = Bundle(
    transform: Option<Transform>,
    velocity: Option<Velocity>,
    shooter: Option<Shooter>,
    lifespan: Option<Lifespan>)

  type EntityId = nat

  datatype Entity = Entity(id: EntityId, parts: Bundle)

  /** A request queued on `Commands`, applied after the system has run. */
  datatype Command = Spawn(bundle: Bundle) | Despawn(entity: EntityId)

  datatype MouseButton = Left | Right | Middle | OtherButton(code: nat)

  datatype ButtonState = Pressed | Released

  datatype MouseButtonInput = MouseButtonInput(button: MouseButton, state: ButtonState)

  /** A pointer event; only its screen position is read. */
  datatype CursorMoved = CursorMoved(position: Vec2)

  datatype KeyCode = A | D | W | S | OtherKey(code: nat)

  /** Entity identifiers are pairwise distinct and all below the next one
      to be handed out. */
  predicate WellFormed(es: seq<Entity>, nextId: nat) {
    && (forall k :: 0 <= k < |es| ==> es[k].id < nextId)
    && (forall j, k :: 0 <= j < k < |es| ==> es[j].id != es[k].id)
  }

  /** The player created at startup: at the origin with the identity
      rotation, at rest, aiming nowhere, and last shot at time zero. */
  function PlayerBundle(): Bundle {
    Bundle(
      Some(Transform(Vec3(0.0, 0.0, 0.0), 0.0)),
      Some(Velocity(Vec3(0.0, 0.0, 0.0), 0.0, false)),
      Some(Shooter(Vec2(0.0, 0.0), 0.0, 0.0)),
      None)
  }

  /** A system that rewrites components in place keeps every identifier, so
      the store stays well formed. */
  lemma SameIdsWellFormed(es: seq<Entity>, es': seq<Entity>, nextId: nat)
    requires WellFormed(es, nextId)
    requires |es'| == |es|
    requires forall k :: 0 <= k < |es| ==> es'[k].id == es[k].id
    ensures WellFormed(es', nextId)
  {
  }
}
