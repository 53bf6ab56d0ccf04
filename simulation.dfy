/** The entity store and the per-frame systems of the simulation. Each system
    is one method that walks the store in order and rewrites the
    components of the entities it matches in place; the two systems that
    create or destroy entities return their requests instead, and `Apply`
    carries them out afterwards. */
module Simulation {
  import opened Geometry
  import opened Components
  import Movement
  import Friction
  import Input
  import Aim
  import Fire
  import Reaper
  import Commands

  /** Every Shooter moves no faster than the input controller's cap. */
  predicate SpeedCapped(es: seq<Entity>) {
    forall k :: 0 <= k < |es| ==> Input.Capped(es[k])
  }

  /** No requested spawn carries a Shooter, so no spawn can break the cap. */
  predicate ShooterlessSpawns(cmds: seq<Command>) {
    forall i :: 0 <= i < |cmds| && cmds[i].Spawn? ==> cmds[i].bundle.shooter.None?
  }

  class World {
    var entities: seq<Entity>
    var nextId: nat

    predicate Valid()
      reads this
    {
      WellFormed(entities, nextId)
    }

    /** `setup`: the player alone, at the origin and at rest, aiming nowhere
        and last shot at time zero. */
    constructor Setup()
      ensures Valid()
      ensures nextId == 1 && |entities| == 1 && entities[0].id == 0
      ensures entities[0].parts.transform == Some(Transform(Zero3, 0.0))
      ensures entities[0].parts.velocity == Some(Velocity(Zero3, 0.0, false))
      ensures entities[0].parts.shooter == Some(Shooter(Vec2(0.0, 0.0), 0.0, 0.0))
      ensures entities[0].parts.lifespan.None?
      ensures SpeedCapped(entities)
    {
      entities := [Entity(0, PlayerBundle())];
      nextId := 1;
      assert Sq(0.0) == 0.0;
    }

    /** `input_system`. */
    method InputSystem(now: real, dt: real, keys: set<KeyCode>, g: Glam)
      requires Valid()
      modifies this
      ensures Valid() && nextId == old(nextId)
      ensures |entities| == |old(entities)|
      ensures forall k :: 0 <= k < |entities| ==> entities[k] == Input.Steered(old(entities)[k], keys, now, dt, g)
      ensures forall k :: 0 <= k < |entities| && old(entities)[k].parts.shooter.None? ==> entities[k] == old(entities)[k]
      ensures Lawful(g) && SpeedCapped(old(entities)) ==> SpeedCapped(entities)
    {
      var es := entities;
      var i := 0;
      while i < |es|
        invariant 0 <= i <= |es| == |old(entities)|
        invariant entities == old(entities) && nextId == old(nextId)
        invariant forall k :: 0 <= k < i ==> es[k] == Input.Steered(old(entities)[k], keys, now, dt, g)
        invariant forall k :: i <= k < |es| ==> es[k] == old(entities)[k]
      {
        var e := es[i];
        if e.parts.velocity.Some? && e.parts.shooter.Some? {
          var velocity := SteerVelocity(e.parts.velocity.value, keys, now, dt, g);
          es := es[i := e.(parts := e.parts.(velocity := Some(velocity)))];
        }
        i := i + 1;
      }
      SteeredAll(old(entities), es, nextId, keys, now, dt, g);
      entities := es;
    }

    /** `velocity_system`. */
    method VelocitySystem(now: real, dt: real)
      requires Valid()
      modifies this
      ensures Valid() && nextId == old(nextId)
      ensures |entities| == |old(entities)|
      ensures forall k :: 0 <= k < |entities| ==> entities[k] == Movement.Moved(old(entities)[k], dt)
      ensures SpeedCapped(old(entities)) ==> SpeedCapped(entities)
    {
      var es := entities;
      var i := 0;
      while i < |es|
        invariant 0 <= i <= |es| == |old(entities)|
        invariant entities == old(entities) && nextId == old(nextId)
        invariant forall k :: 0 <= k < i ==> es[k] == Movement.Moved(old(entities)[k], dt)
        invariant forall k :: i <= k < |es| ==> es[k] == old(entities)[k]
      {
        var e := es[i];
        if e.parts.velocity.Some? && e.parts.transform.Some? {
          var t := Movement.Integrate(e.parts.transform.value, e.parts.velocity.value, dt);
          es := es[i := e.(parts := e.parts.(transform := Some(t)))];
        }
        i := i + 1;
      }
      MovedAll(old(entities), es, nextId, dt);
      entities := es;
    }

    /** `friction_system`. */
    method FrictionSystem(now: real, dt: real)
      requires Valid()
      modifies this
      ensures Valid() && nextId == old(nextId)
      ensures |entities| == |old(entities)|
      ensures forall k :: 0 <= k < |entities| ==> entities[k] == Friction.Decayed(old(entities)[k], now)
      ensures SpeedCapped(old(entities)) ==> SpeedCapped(entities)
    {
      var es := entities;
      var i := 0;
      while i < |es|
        invariant 0 <= i <= |es| == |old(entities)|
        invariant entities == old(entities) && nextId == old(nextId)
        invariant forall k :: 0 <= k < i ==> es[k] == Friction.Decayed(old(entities)[k], now)
        invariant forall k :: i <= k < |es| ==> es[k] == old(entities)[k]
      {
        var e := es[i];
        if e.parts.velocity.Some? {
          var velocity := e.parts.velocity.value;
          if now - velocity.lastChange > Friction.Quiescence && !velocity.noFriction {
            if LenSq(velocity.magnitude) > 0.0 {
              velocity := velocity.(magnitude := Scale(Friction.DecayFactor, velocity.magnitude));
            }
          }
          es := es[i := e.(parts := e.parts.(velocity := Some(velocity)))];
        }
        i := i + 1;
      }
      DecayedAll(old(entities), es, nextId, now);
      entities := es;
    }

    /** `mouse_system`: pointer events in arrival order, each visiting every
        aiming entity; the last event decides the final aim. */
    method MouseSystem(now: real, dt: real, events: seq<CursorMoved>, g: Glam)
      requires Valid()
      modifies this
      ensures Valid() && nextId == old(nextId)
      ensures |entities| == |old(entities)|
      ensures forall k :: 0 <= k < |entities| ==> entities[k] == Aim.AimAll(old(entities)[k], events, g)
      ensures events == [] ==> entities == old(entities)
      ensures events != [] ==>
        forall k :: 0 <= k < |entities| ==> entities[k] == Aim.Aimed(old(entities)[k], events[|events| - 1], g)
      ensures SpeedCapped(old(entities)) ==> SpeedCapped(entities)
    {
      var es := entities;
      var j := 0;
      while j < |events|
        invariant 0 <= j <= |events|
        invariant |es| == |old(entities)|
        invariant forall k :: 0 <= k < |es| ==> es[k] == Aim.AimAll(old(entities)[k], events[..j], g)
      {
        var event := events[j];
        ghost var start := es;
        var i := 0;
        while i < |es|
          invariant 0 <= i <= |es| == |start|
          invariant forall k :: 0 <= k < i ==> es[k] == Aim.Aimed(start[k], event, g)
          invariant forall k :: i <= k < |es| ==> es[k] == start[k]
        {
          var e := es[i];
          if e.parts.transform.Some? && e.parts.velocity.Some? && e.parts.shooter.Some? {
            var t, shooter := e.parts.transform.value, e.parts.shooter.value;
            var viewDir := Sub2(Sub2(event.position, Aim.ScreenCenter), Vec2(t.translation.x, t.translation.y));
            var angle := g.angleBetween(viewDir, Vec2(1.0, 0.0));
            t := t.(rotation := -angle - Pi / 2.0);
            shooter := shooter.(shootDirection := viewDir, shootAngle := -angle);
            es := es[i := e.(parts := e.parts.(transform := Some(t), shooter := Some(shooter)))];
          }
          i := i + 1;
        }
        assert events[..j + 1][..j] == events[..j];
        j := j + 1;
      }
      assert events[..|events|] == events;
      AimedAll(old(entities), es, nextId, events, g);
      entities := es;
    }

    /** `fire_system`: every left-button event visits every armed entity;
        only the first visit after the cooldown fires, so a frame queues at
        most one projectile per shooter however many events it carries. */
    method FireSystem(now: real, dt: real, events: seq<MouseButtonInput>, g: Glam) returns (cmds: seq<Command>)
      requires Valid()
      modifies this
      ensures Valid() && nextId == old(nextId)
      ensures |entities| == |old(entities)|
      ensures forall k :: 0 <= k < |entities| ==>
        entities[k] == if Fire.AnyTrigger(events) then Fire.Fired(old(entities)[k], now) else old(entities)[k]
      ensures cmds == if Fire.AnyTrigger(events) then Fire.Volley(old(entities), now, g) else []
      ensures SpeedCapped(old(entities)) ==> SpeedCapped(entities)
    {
      var es := entities;
      cmds := [];
      ghost var fired := false;
      var j := 0;
      while j < |events|
        invariant 0 <= j <= |events|
        invariant entities == old(entities) && nextId == old(nextId)
        invariant fired == Fire.AnyTrigger(events[..j])
        invariant |es| == |old(entities)|
        invariant forall k :: 0 <= k < |es| ==> es[k] == if fired then Fire.Fired(old(entities)[k], now) else old(entities)[k]
        invariant cmds == if fired then Fire.Volley(old(entities), now, g) else []
      {
        var event := events[j];
        if event.button == Left {
          var start := es;
          var spawned;
          es, spawned := FirePass(es, now, g);
          FireOnce(old(entities), start, es, now, g, fired);
          cmds := cmds + spawned;
        }
        AnyTriggerStep(events, j);
        fired := fired || Fire.Triggers(event);
        j := j + 1;
      }
      assert events[..|events|] == events;
      FiredAll(old(entities), es, nextId, now, fired);
      entities := es;
    }

    /** `kill_system`: a despawn request for every entity whose lifespan has
        run out, and for no other. */
    method KillSystem(now: real, dt: real) returns (cmds: seq<Command>)
      requires Valid()
      ensures cmds == Reaper.ReapRequests(entities, now)
      ensures forall c :: c in cmds ==> c.Despawn?
      ensures forall k :: 0 <= k < |entities| ==>
        (Despawn(entities[k].id) in cmds <==>
          entities[k].parts.lifespan.Some? && now >= entities[k].parts.lifespan.value.killAt)
    {
      cmds := [];
      var i := 0;
      while i < |entities|
        invariant 0 <= i <= |entities|
        invariant cmds == Reaper.ReapRequests(entities[..i], now)
      {
        var e := entities[i];
        if e.parts.lifespan.Some? && now >= e.parts.lifespan.value.killAt {
          cmds := cmds + [Despawn(e.id)];
        }
        assert entities[..i + 1][..i] == entities[..i];
        i := i + 1;
      }
      assert entities[..|entities|] == entities;
      Reaper.ReapRequestsIff(entities, now);
      Reaper.ReapExactlyExpired(entities, nextId, now);
    }

    /** Carries out queued requests in order: a spawn adds an entity under
        the next free identifier, a despawn removes the named entity. */
    method Apply(cmds: seq<Command>)
      requires Valid()
      modifies this
      ensures Valid()
      ensures (entities, nextId) == Commands.Execute(old(entities), old(nextId), cmds)
      ensures SpeedCapped(old(entities)) && ShooterlessSpawns(cmds) ==> SpeedCapped(entities)
    {
      var es, next := entities, nextId;
      var j := 0;
      while j < |cmds|
        invariant 0 <= j <= |cmds|
        invariant Commands.Execute(es, next, cmds[j..]) == Commands.Execute(old(entities), old(nextId), cmds)
      {
        assert cmds[j..][0] == cmds[j] && cmds[j..][1..] == cmds[j + 1..];
        match cmds[j] {
          case Spawn(b) =>
            es := es + [Entity(next, b)];
            next := next + 1;
          case Despawn(id) =>
            es := Commands.Without(es, id);
        }
        j := j + 1;
      }
      Commands.ExecuteWellFormed(old(entities), old(nextId), cmds);
      if SpeedCapped(old(entities)) && ShooterlessSpawns(cmds) {
        ExecuteKeepsCap(old(entities), old(nextId), cmds);
      }
      entities, nextId := es, next;
    }
  }

  /** The input controller's work on one velocity: the held keys give a
      direction scaled by `dt`; a nonzero one accelerates at 5000 along its
      normalization, the result is capped at speed 500, and the change is
      stamped with `now`. */
  method SteerVelocity(v: Velocity, keys: set<KeyCode>, now: real, dt: real, g: Glam) returns (velocity: Velocity)
    ensures velocity == Input.Steer(v, keys, now, dt, g)
  {
    velocity := v;
    var dir := Zero3;
    var accel := Input.Accel;
    var maxSpeed := Input.MaxSpeed;
    if A in keys {
      dir := dir.(x := dir.x - 1.0 * dt);
    }
    if D in keys {
      dir := dir.(x := dir.x + 1.0 * dt);
    }
    if W in keys {
      dir := dir.(y := dir.y + 1.0 * dt);
    }
    if S in keys {
      dir := dir.(y := dir.y - 1.0 * dt);
    }
    assert dir == Input.KeyDirection(keys, dt);
    if LenSq(dir) > 0.0 {
      dir := Scale(dt, Scale(accel, g.normalize(dir)));
      var m := velocity.magnitude;
      m := m.(x := m.x + dir.x);
      m := m.(y := m.y + dir.y);
      if LenSq(m) > maxSpeed * maxSpeed {
        m := Scale(maxSpeed, g.normalize(m));
      }
      velocity := velocity.(magnitude := m, lastChange := now);
    }
  }

  /** One visit of the fire loop, for one left-button event: each armed
      entity whose cooldown has run out records `now` as its last shot and
      queues its projectile, in store order. */
  method FirePass(es: seq<Entity>, now: real, g: Glam) returns (es': seq<Entity>, spawned: seq<Command>)
    ensures |es'| == |es|
    ensures forall k :: 0 <= k < |es| ==> es'[k] == Fire.Fired(es[k], now)
    ensures spawned == Fire.Volley(es, now, g)
  {
    es' := es;
    spawned := [];
    var i := 0;
    while i < |es'|
      invariant 0 <= i <= |es'| == |es|
      invariant forall k :: 0 <= k < i ==> es'[k] == Fire.Fired(es[k], now)
      invariant forall k :: i <= k < |es'| ==> es'[k] == es[k]
      invariant spawned == Fire.Volley(es[..i], now, g)
    {
      var e := es'[i];
      if e.parts.transform.Some? && e.parts.shooter.Some? {
        var player, shooter := e.parts.transform.value, e.parts.shooter.value;
        if now - shooter.lastShotAt > Fire.Cooldown {
          shooter := shooter.(lastShotAt := now);
          var transform := Transform(Zero3, shooter.shootAngle);
          var dir := Vec3(shooter.shootDirection.x, shooter.shootDirection.y, 0.0);
          transform := transform.(translation := Add3(player.translation, Scale(Fire.SpawnOffset, g.normalize(dir))));
          spawned := spawned + [Spawn(Bundle(
            Some(transform),
            Some(Velocity(Scale(Fire.ProjectileSpeed, g.normalize(dir)), 0.0, true)),
            None,
            Some(Lifespan(now + Fire.ProjectileLife))))];
          es' := es'[i := e.(parts := e.parts.(shooter := Some(shooter)))];
        }
      }
      assert es[..i + 1][..i] == es[..i];
      i := i + 1;
    }
    assert es[..|es|] == es;
  }

  lemma SteeredAll(es: seq<Entity>, es': seq<Entity>, nextId: nat, keys: set<KeyCode>, now: real, dt: real, g: Glam)
    requires WellFormed(es, nextId) && |es'| == |es|
    requires forall k :: 0 <= k < |es| ==> es'[k] == Input.Steered(es[k], keys, now, dt, g)
    ensures WellFormed(es', nextId)
    ensures forall k :: 0 <= k < |es| && es[k].parts.shooter.None? ==> es'[k] == es[k]
    ensures Lawful(g) && SpeedCapped(es) ==> SpeedCapped(es')
  {
    SameIdsWellFormed(es, es', nextId);
    if Lawful(g) && SpeedCapped(es) {
      forall k | 0 <= k < |es| ensures Input.Capped(es'[k]) {
        Input.SteeredKeepsCap(es[k], keys, now, dt, g);
      }
    }
  }

  lemma MovedAll(es: seq<Entity>, es': seq<Entity>, nextId: nat, dt: real)
    requires WellFormed(es, nextId) && |es'| == |es|
    requires forall k :: 0 <= k < |es| ==> es'[k] == Movement.Moved(es[k], dt)
    ensures WellFormed(es', nextId)
    ensures SpeedCapped(es) ==> SpeedCapped(es')
  {
    SameIdsWellFormed(es, es', nextId);
  }

  lemma DecayedAll(es: seq<Entity>, es': seq<Entity>, nextId: nat, now: real)
    requires WellFormed(es, nextId) && |es'| == |es|
    requires forall k :: 0 <= k < |es| ==> es'[k] == Friction.Decayed(es[k], now)
    ensures WellFormed(es', nextId)
    ensures SpeedCapped(es) ==> SpeedCapped(es')
  {
    SameIdsWellFormed(es, es', nextId);
    forall k | 0 <= k < |es| && es[k].parts.velocity.Some?
      ensures LenSq(es'[k].parts.velocity.value.magnitude) <= LenSq(es[k].parts.velocity.value.magnitude)
    {
      Friction.DecayEffect(es[k].parts.velocity.value, now);
    }
  }

  lemma AimedAll(es: seq<Entity>, es': seq<Entity>, nextId: nat, events: seq<CursorMoved>, g: Glam)
    requires WellFormed(es, nextId) && |es'| == |es|
    requires forall k :: 0 <= k < |es| ==> es'[k] == Aim.AimAll(es[k], events, g)
    ensures WellFormed(es', nextId)
    ensures events == [] ==> es' == es
    ensures events != [] ==> forall k :: 0 <= k < |es| ==> es'[k] == Aim.Aimed(es[k], events[|events| - 1], g)
    ensures SpeedCapped(es) ==> SpeedCapped(es')
  {
    forall k | 0 <= k < |es|
      ensures es'[k].id == es[k].id && es'[k].parts.velocity == es[k].parts.velocity
      ensures es'[k].parts.shooter.Some? == es[k].parts.shooter.Some?
      ensures events == [] ==> es'[k] == es[k]
      ensures events != [] ==> es'[k] == Aim.Aimed(es[k], events[|events| - 1], g)
    {
      Aim.AimLastWins(es[k], events, g);
      if events != [] {
        Aim.AimedEffect(es[k], events[|events| - 1], g);
      }
    }
    SameIdsWellFormed(es, es', nextId);
  }

  /** The inner fire loop for one left-button event, started from the store
      `start`: the first such event fires from the pristine store, and any
      later one finds every gate closed and changes nothing. */
  lemma FireOnce(es: seq<Entity>, start: seq<Entity>, es': seq<Entity>, now: real, g: Glam, firedBefore: bool)
    requires |start| == |es| == |es'|
    requires forall k :: 0 <= k < |es| ==> start[k] == if firedBefore then Fire.Fired(es[k], now) else es[k]
    requires forall k :: 0 <= k < |es| ==> es'[k] == Fire.Fired(start[k], now)
    ensures forall k :: 0 <= k < |es| ==> es'[k] == Fire.Fired(es[k], now)
    ensures (if firedBefore then Fire.Volley(es, now, g) else []) + Fire.Volley(start, now, g) == Fire.Volley(es, now, g)
  {
    forall k | 0 <= k < |es| ensures es'[k] == Fire.Fired(es[k], now) {
      Fire.FiredEffect(es[k], now);
    }
    if firedBefore {
      forall k | 0 <= k < |start| ensures !Fire.CanFire(start[k], now) {
        Fire.FiredEffect(es[k], now);
      }
      Fire.VolleyOfDisarmed(start, now, g);
    } else {
      assert start == es;
    }
  }

  lemma AnyTriggerStep(events: seq<MouseButtonInput>, j: nat)
    requires j < |events|
    ensures Fire.AnyTrigger(events[..j + 1]) == (Fire.AnyTrigger(events[..j]) || Fire.Triggers(events[j]))
  {
    assert events[..j + 1] == events[..j] + [events[j]];
  }

  lemma FiredAll(es: seq<Entity>, es': seq<Entity>, nextId: nat, now: real, fired: bool)
    requires WellFormed(es, nextId) && |es'| == |es|
    requires forall k :: 0 <= k < |es| ==> es'[k] == if fired then Fire.Fired(es[k], now) else es[k]
    ensures WellFormed(es', nextId)
    ensures SpeedCapped(es) ==> SpeedCapped(es')
  {
    forall k | 0 <= k < |es|
      ensures es'[k].id == es[k].id && es'[k].parts.velocity == es[k].parts.velocity
      ensures es'[k].parts.shooter.Some? == es[k].parts.shooter.Some?
    {
      Fire.FiredEffect(es[k], now);
    }
    SameIdsWellFormed(es, es', nextId);
  }

  /** Applying requests whose spawns carry no Shooter keeps the speed cap:
      despawns only remove entities and the spawned ones are not capped. */
  lemma {:induction false} ExecuteKeepsCap(es: seq<Entity>, nextId: nat, cmds: seq<Command>)
    requires SpeedCapped(es) && ShooterlessSpawns(cmds)
    ensures SpeedCapped(Commands.Execute(es, nextId, cmds).0)
    decreases |cmds|
  {
    if cmds != [] {
      var tail := cmds[1..];
      assert ShooterlessSpawns(tail) by {
        forall i | 0 <= i < |tail| && tail[i].Spawn? ensures tail[i].bundle.shooter.None? {
          assert tail[i] == cmds[i + 1];
        }
      }
      match cmds[0]
      case Spawn(b) =>
        var es' := es + [Entity(nextId, b)];
        assert SpeedCapped(es') by {
          assert forall k :: 0 <= k < |es| ==> es'[k] == es[k];
        }
        ExecuteKeepsCap(es', nextId + 1, tail);
      case Despawn(id) =>
        var es' := Commands.Without(es, id);
        Commands.WithoutMembers(es, id);
        assert SpeedCapped(es') by {
          forall k | 0 <= k < |es'| ensures Input.Capped(es'[k]) {
            assert es'[k] in es;
            var j :| 0 <= j < |es| && es[j] == es'[k];
          }
        }
        ExecuteKeepsCap(es', nextId, tail);
    }
  }

  /** The fire loop's requests spawn only projectiles, which carry no
      Shooter, and the reaper asks only for despawns. */
  lemma GameRequestsShooterless(es: seq<Entity>, now: real, g: Glam)
    ensures ShooterlessSpawns(Fire.Volley(es, now, g))
    ensures ShooterlessSpawns(Reaper.ReapRequests(es, now))
  {
    var v := Fire.Volley(es, now, g);
    forall i | 0 <= i < |v| && v[i].Spawn? ensures v[i].bundle.shooter.None? {
      Fire.VolleyMembers(es, now, g, v[i]);
    }
    Reaper.ReapRequestsIff(es, now);
    var r := Reaper.ReapRequests(es, now);
    forall i | 0 <= i < |r| ensures r[i].Despawn? {
      assert r[i] in r;
    }
  }
}
