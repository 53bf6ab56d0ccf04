/** The input controller (`input_system`): for every entity holding a
    Velocity and a Shooter, the WASD keys give a direction; a nonzero
    direction accelerates the entity, its speed is capped at 500 and its
    friction timer is restarted. */
module Input {
  import opened Geometry
  import opened Components

  const Accel: real := 5000.0
  const MaxSpeed: real := 500.0

  /** The direction accumulated from the pressed keys in the order A, D,
      W, S: A subtracts `1 * dt` from x, D adds it, W adds it to y and S
      subtracts it. */
  function KeyDirection(keys: set<KeyCode>, dt: real): Vec3 {
    var x0 := if A in keys then 0.0 - 1.0 * dt else 0.0;
    var x := if D in keys then x0 + 1.0 * dt else x0;
    var y0 := if W in keys then 0.0 + 1.0 * dt else 0.0;
    var y := if S in keys then y0 - 1.0 * dt else y0;
    Vec3(x, y, 0.0)
  }

  /** Each axis is `-dt`, `0` or `dt`: opposing keys cancel. */
  lemma KeyDirectionAxes(keys: set<KeyCode>, dt: real)
    ensures KeyDirection(keys, dt).x == if (A in keys) == (D in keys) then 0.0 else if A in keys then -dt else dt
    ensures KeyDirection(keys, dt).y == if (W in keys) == (S in keys) then 0.0 else if W in keys then dt else -dt
    ensures KeyDirection(keys, dt).z == 0.0
  {
  }

  /** The velocity after the acceleration `normalize(dir) * 5000 * dt` is
      added on x and y, before the cap. */
  function Accelerated(v: Velocity, keys: set<KeyCode>, dt: real, g: Glam): Vec3 {
    var acc := Scale(dt, Scale(Accel, g.normalize(KeyDirection(keys, dt))));
    Vec3(v.magnitude.x + acc.x, v.magnitude.y + acc.y, v.magnitude.z)
  }

  /** The velocity after one visit: for a nonzero direction, the accelerated
      velocity, rescaled to length 500 when faster than that, with the
      timestamp set to `now`; nothing happens for a zero direction. */
  function Steer(v: Velocity, keys: set<KeyCode>, now: real, dt: real, g: Glam): Velocity {
    if LenSq(KeyDirection(keys, dt)) > 0.0 then
      var m := Accelerated(v, keys, dt, g);
      var m' := if LenSq(m) > MaxSpeed * MaxSpeed then Scale(MaxSpeed, g.normalize(m)) else m;
      v.(magnitude := m', lastChange := now)
    else
      v
  }

  /** One entity after the input controller has visited it. */
  function Steered(e: Entity, keys: set<KeyCode>, now: real, dt: real, g: Glam): Entity {
    if e.parts.velocity.Some? && e.parts.shooter.Some? then
      e.(parts := e.parts.(velocity := Some(Steer(e.parts.velocity.value, keys, now, dt, g))))
    else
      e
  }

  /** An entity holding a Shooter moves no faster than the cap. */
  predicate Capped(e: Entity) {
    e.parts.velocity.Some? && e.parts.shooter.Some? ==>
      LenSq(e.parts.velocity.value.magnitude) <= MaxSpeed * MaxSpeed
  }

  /** The accumulated direction is zero exactly when no time elapsed or the
      keys on each axis cancel (neither or both of A and D, and neither or
      both of W and S). */
  lemma KeyDirectionZeroIff(keys: set<KeyCode>, dt: real)
    ensures LenSq(KeyDirection(keys, dt)) > 0.0 <==>
      dt != 0.0 && ((A in keys) != (D in keys) || (W in keys) != (S in keys))
  {
    LenSqPositive(KeyDirection(keys, dt));
    KeyDirectionNonzeroIff(keys, dt);
  }

  lemma KeyDirectionNonzeroIff(keys: set<KeyCode>, dt: real)
    ensures KeyDirection(keys, dt) != Zero3 <==>
      dt != 0.0 && ((A in keys) != (D in keys) || (W in keys) != (S in keys))
  {
    KeyDirectionAxes(keys, dt);
  }

  /** With a zero direction the velocity, including its timestamp, is left
      exactly as it was. */
  lemma SteerIdle(v: Velocity, keys: set<KeyCode>, now: real, dt: real, g: Glam)
    requires dt == 0.0 || ((A in keys) == (D in keys) && (W in keys) == (S in keys))
    ensures Steer(v, keys, now, dt, g) == v
  {
    KeyDirectionZeroIff(keys, dt);
  }

  /** With a nonzero direction the timestamp becomes `now` and the speed is
      at most 500, whatever the speed before: a velocity within the cap after
      acceleration is kept as it is, and a faster one is rescaled to exactly
      500 along its own direction. */
  lemma SteerCapsSpeed(v: Velocity, keys: set<KeyCode>, now: real, dt: real, g: Glam)
    requires Lawful(g)
    requires LenSq(KeyDirection(keys, dt)) > 0.0
    ensures Steer(v, keys, now, dt, g).lastChange == now
    ensures LenSq(Steer(v, keys, now, dt, g).magnitude) <= MaxSpeed * MaxSpeed
    ensures Steer(v, keys, now, dt, g).noFriction == v.noFriction
    ensures var m := Accelerated(v, keys, dt, g);
      LenSq(m) <= MaxSpeed * MaxSpeed ==> Steer(v, keys, now, dt, g).magnitude == m
    ensures var m := Accelerated(v, keys, dt, g);
      LenSq(m) > MaxSpeed * MaxSpeed ==>
        && LenSq(Steer(v, keys, now, dt, g).magnitude) == MaxSpeed * MaxSpeed
        && g.normalize(Steer(v, keys, now, dt, g).magnitude) == g.normalize(m)
  {
    var m := Accelerated(v, keys, dt, g);
    if LenSq(m) > MaxSpeed * MaxSpeed {
      RescaledToCap(g, m);
    }
  }

  /** A vector rescaled to the cap has exactly the cap's length and keeps its
      direction. */
  lemma RescaledToCap(g: Glam, m: Vec3)
    requires Lawful(g)
    requires LenSq(m) > MaxSpeed * MaxSpeed
    ensures LenSq(Scale(MaxSpeed, g.normalize(m))) == MaxSpeed * MaxSpeed
    ensures g.normalize(Scale(MaxSpeed, g.normalize(m))) == g.normalize(m)
  {
    var n := g.normalize(m);
    assert LenSq(n) == 1.0;
    ScaledUnitLenSq(g, MaxSpeed, m);
    assert g.normalize(Scale(MaxSpeed, n)) == g.normalize(n);
    assert g.normalize(n) == n;
  }

  /** The input controller keeps a capped entity capped, and touches only
      entities that hold a Shooter. */
  lemma SteeredKeepsCap(e: Entity, keys: set<KeyCode>, now: real, dt: real, g: Glam)
    requires Lawful(g)
    requires Capped(e)
    ensures Capped(Steered(e, keys, now, dt, g))
    ensures Steered(e, keys, now, dt, g).id == e.id
    ensures e.parts.shooter.None? ==> Steered(e, keys, now, dt, g) == e
  {
    if e.parts.velocity.Some? && e.parts.shooter.Some? && LenSq(KeyDirection(keys, dt)) > 0.0 {
      SteerCapsSpeed(e.parts.velocity.value, keys, now, dt, g);
    }
  }

  /** For a positive `dt` the direction of the acceleration depends only on
      the keys: the first factor of `dt` is absorbed by the normalization. */
  lemma AccelDirectionIgnoresDt(keys: set<KeyCode>, dt: real, g: Glam)
    requires Lawful(g)
    requires dt > 0.0
    ensures g.normalize(KeyDirection(keys, dt)) == g.normalize(KeyDirection(keys, 1.0))
  {
    KeyDirectionScale(keys, dt);
  }

  /** The accumulated direction is `dt` times the direction of a unit frame. */
  lemma KeyDirectionScale(keys: set<KeyCode>, dt: real)
    ensures KeyDirection(keys, dt) == Scale(dt, KeyDirection(keys, 1.0))
  {
    KeyDirectionAxes(keys, dt);
    KeyDirectionAxes(keys, 1.0);
  }

  /** From rest, holding W for one frame of 0.016 s gives the velocity
      (0, 80, 0): upward, below the cap, with the timestamp restarted. */
  lemma HoldUpFromRest(g: Glam, now: real)
    requires Lawful(g)
    ensures Steer(Velocity(Zero3, 0.0, false), {W}, now, 0.016, g) == Velocity(Vec3(0.0, 80.0, 0.0), now, false)
  {
    NormalizeHeldUp(g);
    HoldUpGivenDirection(g, now);
  }

  lemma NormalizeHeldUp(g: Glam)
    requires Lawful(g)
    ensures g.normalize(KeyDirection({W}, 0.016)) == Vec3(0.0, 1.0, 0.0)
  {
    var up := Vec3(0.0, 1.0, 0.0);
    assert g.normalize(KeyDirection({W}, 0.016)) == g.normalize(up) by {
      HoldUpDirection();
      assert g.normalize(Scale(0.016, up)) == g.normalize(up);
    }
    assert g.normalize(up) == up by {
      UnitUp();
    }
  }

  /** The same frame, for any `normalize` that maps the held direction to the
      unit vector (0, 1, 0). */
  lemma HoldUpGivenDirection(g: Glam, now: real)
    requires g.normalize(KeyDirection({W}, 0.016)) == Vec3(0.0, 1.0, 0.0)
    ensures Steer(Velocity(Zero3, 0.0, false), {W}, now, 0.016, g) == Velocity(Vec3(0.0, 80.0, 0.0), now, false)
  {
    HoldUpDirection();
    HoldUpAccel();
    BelowCap();
  }

  lemma HoldUpDirection()
    ensures KeyDirection({W}, 0.016) == Scale(0.016, Vec3(0.0, 1.0, 0.0))
    ensures LenSq(KeyDirection({W}, 0.016)) > 0.0
  {
    assert KeyDirection({W}, 0.016) == Vec3(0.0, 0.016, 0.0);
    LenSqPositive(Vec3(0.0, 0.016, 0.0));
  }

  lemma UnitUp()
    ensures LenSq(Vec3(0.0, 1.0, 0.0)) == 1.0
  {
  }

  lemma HoldUpAccel()
    ensures Scale(0.016, Scale(Accel, Vec3(0.0, 1.0, 0.0))) == Vec3(0.0, 80.0, 0.0)
  {
    assert Scale(Accel, Vec3(0.0, 1.0, 0.0)) == Vec3(0.0, 5000.0, 0.0);
  }

  lemma BelowCap()
    ensures !(LenSq(Vec3(0.0, 80.0, 0.0)) > MaxSpeed * MaxSpeed)
  {
    assert Sq(80.0) == 6400.0;
  }
}
