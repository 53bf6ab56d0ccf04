/** The fire controller (`fire_system`): every left-button event visits each
    entity holding a Transform and a Shooter; an entity whose last shot is
    more than 0.1 s old records the current time and queues one projectile. */
module Fire {
  import opened Geometry
  import opened Components

  const Cooldown: real := 0.1
  const SpawnOffset: real := 50.0
  const ProjectileSpeed: real := 2000.0
  const ProjectileLife: real := 0.5

  /** Any event for the left button counts, whether pressed or released. */
  predicate Triggers(ev: MouseButtonInput) {
    ev.button == Left
  }

  predicate AnyTrigger(evs: seq<MouseButtonInput>) {
    exists i :: 0 <= i < |evs| && Triggers(evs[i])
  }

  predicate Armed(e: Entity) {
    e.parts.transform.Some? && e.parts.shooter.Some?
  }

  /** The cooldown gate. */
  predicate CanFire(e: Entity, now: real) {
    Armed(e) && now - e.parts.shooter.value.lastShotAt > Cooldown
  }

  /** The shoot direction lifted to three dimensions with z = 0. */
  function AimVector(s: Shooter): Vec3 {
    Vec3(s.shootDirection.x, s.shootDirection.y, 0.0)
  }

  /** The components of a projectile fired at `now` by a shooter standing at
      `t`: rotated by the shoot angle, placed 50 units along the normalized
      aim, moving at 2000 along it, free of friction, and due to expire half
      a second later. */
  function Projectile(t: Transform, s: Shooter, now: real, g: Glam): Bundle {
    var dir := AimVector(s);
    Bundle(
      Some(Transform(Add3(t.translation, Scale(SpawnOffset, g.normalize(dir))), s.shootAngle)),
      Some(Velocity(Scale(ProjectileSpeed, g.normalize(dir)), 0.0, true)),
      None,
      Some(Lifespan(now + ProjectileLife)))
  }

  /** One entity after one visit of the fire loop. */
  function Fired(e: Entity, now: real): Entity {
    if CanFire(e, now) then
      e.(parts := e.parts.(shooter := Some(e.parts.shooter.value.(lastShotAt := now))))
    else
      e
  }

  /** The spawn requests one visit of the fire loop queues, in store order. */
  function Volley(es: seq<Entity>, now: real, g: Glam): seq<Command>
    decreases |es|
  {
    if es == [] then []
    else
      var e := es[|es| - 1];
      Volley(es[..|es| - 1], now, g)
        + if CanFire(e, now) then [Spawn(Projectile(e.parts.transform.value, e.parts.shooter.value, now, g))] else []
  }

  /** The number of entities the fire loop visits. */
  function ArmedCount(es: seq<Entity>): nat
    decreases |es|
  {
    if es == [] then 0 else ArmedCount(es[..|es| - 1]) + if Armed(es[|es| - 1]) then 1 else 0
  }

  /** A shot records `now` as the last shot time and changes nothing else;
      without a shot the entity is unchanged. Straight after a shot the gate
      is closed again, so a second visit in the same frame is a no-op. */
  lemma FiredEffect(e: Entity, now: real)
    ensures Fired(e, now).id == e.id
    ensures Fired(e, now).parts.transform == e.parts.transform
    ensures Fired(e, now).parts.velocity == e.parts.velocity
    ensures Fired(e, now).parts.lifespan == e.parts.lifespan
    ensures Armed(Fired(e, now)) == Armed(e)
    ensures CanFire(e, now) ==> Fired(e, now).parts.shooter.value.lastShotAt == now
    ensures CanFire(e, now) ==> Fired(e, now).parts.shooter == Some(e.parts.shooter.value.(lastShotAt := now))
    ensures !CanFire(e, now) ==> Fired(e, now) == e
    ensures !CanFire(Fired(e, now), now)
    ensures Fired(Fired(e, now), now) == Fired(e, now)
  {
  }

  /** Across frames: after a shot at `t1`, a trigger at `t2` fires again
      exactly when more than 0.1 s has passed. */
  lemma CooldownBetweenFrames(e: Entity, t1: real, t2: real)
    requires CanFire(e, t1)
    ensures CanFire(Fired(e, t1), t2) <==> t2 - t1 > Cooldown
  {
  }

  /** A pass over entities none of which may fire queues nothing. */
  lemma {:induction false} VolleyOfDisarmed(es: seq<Entity>, now: real, g: Glam)
    requires forall k :: 0 <= k < |es| ==> !CanFire(es[k], now)
    ensures Volley(es, now, g) == []
    decreases |es|
  {
    if es != [] {
      VolleyOfDisarmed(es[..|es| - 1], now, g);
    }
  }

  /** The number of entities whose gate is open. */
  function FireableCount(es: seq<Entity>, now: real): nat
    decreases |es|
  {
    if es == [] then 0 else FireableCount(es[..|es| - 1], now) + if CanFire(es[|es| - 1], now) then 1 else 0
  }

  /** Exactly one projectile per entity whose gate is open, and so no more
      than the number of entities visited. */
  lemma {:induction false} VolleySize(es: seq<Entity>, now: real, g: Glam)
    ensures |Volley(es, now, g)| == FireableCount(es, now) <= ArmedCount(es)
    decreases |es|
  {
    if es != [] {
      VolleySize(es[..|es| - 1], now, g);
    }
  }

  /** A request is queued by the fire loop exactly when it spawns the
      projectile of some entity whose gate was open (`VolleySize` counts
      them: one per such entity). */
  lemma {:induction false} VolleyMembers(es: seq<Entity>, now: real, g: Glam, c: Command)
    ensures c in Volley(es, now, g) <==>
      exists k :: 0 <= k < |es| && CanFire(es[k], now) &&
        c == Spawn(Projectile(es[k].parts.transform.value, es[k].parts.shooter.value, now, g))
    decreases |es|
  {
    if es != [] {
      var prefix := es[..|es| - 1];
      VolleyMembers(prefix, now, g, c);
      if c in Volley(prefix, now, g) {
        var k :| 0 <= k < |prefix| && CanFire(prefix[k], now) &&
          c == Spawn(Projectile(prefix[k].parts.transform.value, prefix[k].parts.shooter.value, now, g));
        assert es[k] == prefix[k];
      }
      if exists k :: 0 <= k < |es| && CanFire(es[k], now) &&
          c == Spawn(Projectile(es[k].parts.transform.value, es[k].parts.shooter.value, now, g)) {
        var k :| 0 <= k < |es| && CanFire(es[k], now) &&
          c == Spawn(Projectile(es[k].parts.transform.value, es[k].parts.shooter.value, now, g));
        if k < |prefix| {
          assert prefix[k] == es[k];
        }
      }
    }
  }

  /** Every projectile is free of friction, starts with a zero timestamp,
      carries no Shooter, points along the shoot angle and expires at
      `now + 0.5`. */
  lemma ProjectileShape(t: Transform, s: Shooter, now: real, g: Glam)
    ensures var p := Projectile(t, s, now, g);
      && p.transform.Some? && p.velocity.Some? && p.lifespan.Some? && p.shooter.None?
      && p.transform.value.rotation == s.shootAngle
      && p.velocity.value.noFriction
      && p.velocity.value.lastChange == 0.0
      && p.lifespan.value.killAt == now + 0.5
      && p.velocity.value.magnitude == Scale(2000.0, g.normalize(AimVector(s)))
      && Sub3(p.transform.value.translation, t.translation) == Scale(50.0, g.normalize(AimVector(s)))
  {
    var n := g.normalize(AimVector(s));
    var q := Add3(t.translation, Scale(SpawnOffset, n));
    assert Sub3(q, t.translation) == Scale(50.0, n);
  }

  /** For a nonzero aim the projectile starts 50 units from the shooter and
      moves at speed 2000. */
  lemma ProjectileDistances(t: Transform, s: Shooter, now: real, g: Glam)
    requires Lawful(g)
    requires LenSq(AimVector(s)) > 0.0
    ensures LenSq(Projectile(t, s, now, g).velocity.value.magnitude) == 2000.0 * 2000.0
    ensures LenSq(Sub3(Projectile(t, s, now, g).transform.value.translation, t.translation)) == 50.0 * 50.0
  {
    ProjectileShape(t, s, now, g);
    ScaledUnitLenSq(g, ProjectileSpeed, AimVector(s));
    ScaledUnitLenSq(g, SpawnOffset, AimVector(s));
  }

  /** The player as created at startup cannot fire until more than 0.1 s
      after startup, because its last shot time starts at zero. */
  lemma FirstShotDelayed(id: EntityId, now: real)
    ensures CanFire(Entity(id, PlayerBundle()), now) <==> now > 0.1
  {
  }
}
