/** The aim tracker (`mouse_system`): every pointer event points each entity
    holding a Transform, a Velocity and a Shooter at the pointer, measured
    from a fixed screen reference point and the entity's own position. */
module Aim {
  import opened Geometry
  import opened Components

  /** The reference point subtracted from the pointer position. */
  const ScreenCenter: Vec2 := Vec2(1280.0 / 2.0, 400.0)

  /** `(pointer - (640, 400)) - (x, y)` of the entity's translation. */
  function ViewDir(pointer: Vec2, t: Transform): Vec2 {
    Sub2(Sub2(pointer, ScreenCenter), Vec2(t.translation.x, t.translation.y))
  }

  predicate Aims(e: Entity) {
    e.parts.transform.Some? && e.parts.velocity.Some? && e.parts.shooter.Some?
  }

  /** One entity after one pointer event: the rotation becomes
      `-angle - PI / 2`, the shoot direction the view vector and the shoot
      angle `-angle`, where `angle` is the angle between the view vector and
      the x axis. */
  function Aimed(e: Entity, ev: CursorMoved, g: Glam): Entity {
    if Aims(e) then
      var t, s := e.parts.transform.value, e.parts.shooter.value;
      var view := ViewDir(ev.position, t);
      var angle := g.angleBetween(view, Vec2(1.0, 0.0));
      e.(parts := e.parts.(
        transform := Some(t.(rotation := -angle - Pi / 2.0)),
        shooter := Some(s.(shootDirection := view, shootAngle := -angle))))
    else
      e
  }

  /** One entity after a whole frame's pointer events, in arrival order. */
  function AimAll(e: Entity, evs: seq<CursorMoved>, g: Glam): Entity
    decreases |evs|
  {
    if evs == [] then e else Aimed(AimAll(e, evs[..|evs| - 1], g), evs[|evs| - 1], g)
  }

  /** What one event does: the shoot direction is the pointer offset, the
      rotation stays a quarter turn behind the shoot angle, and the position,
      the velocity, the last shot time and the lifespan are untouched. */
  lemma AimedEffect(e: Entity, ev: CursorMoved, g: Glam)
    ensures Aimed(e, ev, g).id == e.id
    ensures Aims(Aimed(e, ev, g)) == Aims(e)
    ensures Aimed(e, ev, g).parts.velocity == e.parts.velocity
    ensures Aimed(e, ev, g).parts.lifespan == e.parts.lifespan
    ensures Aims(e) ==>
      var t, t' := e.parts.transform.value, Aimed(e, ev, g).parts.transform.value;
      var s, s' := e.parts.shooter.value, Aimed(e, ev, g).parts.shooter.value;
      && s'.shootDirection == Vec2(ev.position.x - 640.0 - t.translation.x, ev.position.y - 400.0 - t.translation.y)
      && s'.shootAngle == -g.angleBetween(s'.shootDirection, Vec2(1.0, 0.0))
      && t'.rotation == s'.shootAngle - Pi / 2.0
      && s'.lastShotAt == s.lastShotAt
      && t'.translation == t.translation
    ensures !Aims(e) ==> Aimed(e, ev, g) == e
  {
  }

  /** A later event overwrites everything an earlier one wrote, because the
      tracker never moves the entity it aims from. */
  lemma AimedOverwrites(e: Entity, a: CursorMoved, b: CursorMoved, g: Glam)
    ensures Aimed(Aimed(e, a, g), b, g) == Aimed(e, b, g)
  {
  }

  /** The last event wins: after a nonempty sequence of events the entity is
      as if only the last one had arrived, and with no events it is
      unchanged. */
  lemma {:induction false} AimLastWins(e: Entity, evs: seq<CursorMoved>, g: Glam)
    ensures evs == [] ==> AimAll(e, evs, g) == e
    ensures evs != [] ==> AimAll(e, evs, g) == Aimed(e, evs[|evs| - 1], g)
    decreases |evs|
  {
    if |evs| > 1 {
      var prefix := evs[..|evs| - 1];
      AimLastWins(e, prefix, g);
      AimedOverwrites(e, prefix[|prefix| - 1], evs[|evs| - 1], g);
    }
  }
}
