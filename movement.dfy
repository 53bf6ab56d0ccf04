/** The movement integrator (`velocity_system`): every entity holding both a
    Velocity and a Transform advances its x and y by velocity times the
    frame's elapsed time. */
module Movement {
  import opened Geometry
  import opened Components

  function Integrate(t: Transform, v: Velocity, dt: real): Transform {
    var p := t.translation;
    t.(translation := Vec3(p.x + v.magnitude.x * dt, p.y + v.magnitude.y * dt, p.z))
  }

  /** One entity after the integrator has visited it. */
  function Moved(e: Entity, dt: real): Entity {
    if e.parts.velocity.Some? && e.parts.transform.Some? then
      e.(parts := e.parts.(transform := Some(Integrate(e.parts.transform.value, e.parts.velocity.value, dt))))
    else
      e
  }

  /** The displacement is exactly velocity times `dt` on x and y; z, the
      rotation, the velocity and every other component are untouched, and an
      entity lacking either component is left alone. */
  lemma MovedEffect(e: Entity, dt: real)
    ensures Moved(e, dt).id == e.id
    ensures Moved(e, dt).parts.velocity == e.parts.velocity
    ensures Moved(e, dt).parts.shooter == e.parts.shooter
    ensures Moved(e, dt).parts.lifespan == e.parts.lifespan
    ensures e.parts.velocity.Some? && e.parts.transform.Some? ==>
      var t, t', m := e.parts.transform.value, Moved(e, dt).parts.transform.value, e.parts.velocity.value.magnitude;
      && Moved(e, dt).parts.transform.Some?
      && t'.translation.x - t.translation.x == m.x * dt
      && t'.translation.y - t.translation.y == m.y * dt
      && t'.translation.z == t.translation.z
      && t'.rotation == t.rotation
    ensures e.parts.velocity.None? || e.parts.transform.None? ==> Moved(e, dt) == e
  {
  }

  /** A frame of zero length moves nothing. */
  lemma MovedZeroDt(e: Entity)
    ensures Moved(e, 0.0) == e
  {
    if e.parts.velocity.Some? && e.parts.transform.Some? {
      var t := e.parts.transform.value;
      assert Integrate(t, e.parts.velocity.value, 0.0).translation == t.translation;
    }
  }

  /** Since the integrator never changes a velocity, two frames of `dt1` and
      `dt2` move an entity exactly as far as one frame of `dt1 + dt2`. */
  lemma MovedAdditive(e: Entity, dt1: real, dt2: real)
    ensures Moved(Moved(e, dt1), dt2) == Moved(e, dt1 + dt2)
  {
    if e.parts.velocity.Some? && e.parts.transform.Some? {
      var m := e.parts.velocity.value.magnitude;
      assert m.x * dt1 + m.x * dt2 == m.x * (dt1 + dt2);
      assert m.y * dt1 + m.y * dt2 == m.y * (dt1 + dt2);
    }
  }
}
