# A verified model of the test1 shooter game

`crates/test1/src/main.rs` is a small Bevy game: one player sprite moves with
the WASD keys, slows down under friction, turns to face the mouse pointer
and fires short-lived projectiles with the left mouse button. All the game
logic sits in six per-frame systems over the ECS components `Velocity`,
`Shooter`, `Lifespan` and `Transform`, plus a startup system that spawns the
player.

This project models that logic in Dafny and proves what it guarantees.

- The entity store is the class `Simulation.World`. It holds a sequence of
  entities, each with an identifier and optional components, and the next
  free identifier.
- Each system is a method of `World` that walks the store in order and
  updates the matching entities in place:
  - `InputSystem` is `input_system`.
  - `VelocitySystem` is `velocity_system`.
  - `FrictionSystem` is `friction_system`.
  - `MouseSystem` is `mouse_system`.
  - `FireSystem` is `fire_system`.
  - `KillSystem` is `kill_system`.
- Every system takes the two clock readings as parameters: `now` is
  `seconds_since_startup` and `dt` is `delta_seconds`.
- Other inputs are parameters too:
  - the set of pressed keys;
  - the frame's pointer events, in arrival order;
  - the frame's mouse-button events, in arrival order.
- `FireSystem` and `KillSystem` record entity creation and destruction as a
  list of requests. `World.Apply` carries them out afterwards, as Bevy's
  `Commands` buffer does.
- Each method is proved against a pure per-entity function in modules
  `Input`, `Movement`, `Friction`, `Aim`, `Fire` and `Reaper`. The source's
  properties are lemmas about those functions.
- glam's `normalize` and `angle_between` are not computed. They are fields
  of a `Geometry.Glam` value passed in.
  - Results that need `normalize` to behave assume `Geometry.Lawful` about
    it: a nonzero vector normalizes to unit length, a positive factor does
    not change the result, and a unit vector normalizes to itself.
  - Lengths are compared through the square length `LenSq`:
    `v.length() > c` with `c >= 0` is `LenSq(v) > c * c`. `Vec3::length`
    includes z, so `LenSq` does too.
- `Transform.rotation` is the z-angle passed to `Quat::from_rotation_z`.
  `Pi` is the value of `std::f32::consts::PI`.

Where the behaviour is easy to misread, the model follows the code:

- `fire_system` fires on every event whose button is `Left`. That includes
  releases, so a press and its release more than 0.1 s apart each fire.
- `last_shot_at` starts at 0.0, so the player cannot fire until more than
  0.1 s after startup (`Fire.FirstShotDelayed`).
- `friction_system` never refreshes `last_change`. After 0.1 s without input
  the velocity is multiplied by 0.7 on every frame and never reaches zero
  (`Friction.DecayOverQuiescent`).

## Model

| member | source | states |
|---|---|---|
| Components.PlayerBundle | crates/test1/src/main.rs:45-53 | Definition of the player's components at startup; `Simulation.World.Setup` and `Fire.FirstShotDelayed` state them. |
| Input.KeyDirection | crates/test1/src/main.rs:127-138 | Definition of the direction accumulated from A, D, W, S; `Input.KeyDirectionAxes`, `Input.KeyDirectionZeroIff` and `Input.KeyDirectionScale` state its properties. |
| Input.Accelerated | crates/test1/src/main.rs:141-144 | Definition of the velocity after acceleration, before the cap; `Input.SteerCapsSpeed` and `Input.AccelDirectionIgnoresDt` state its properties. |
| Input.Steer | crates/test1/src/main.rs:140-151 | Definition of one velocity after the input controller; `Input.SteerIdle`, `Input.SteerCapsSpeed` and `Input.HoldUpFromRest` state its properties. |
| Input.Steered | crates/test1/src/main.rs:120-121 | Definition of one entity after the input controller (only with Velocity and Shooter); `Input.SteeredKeepsCap` states its properties. |
| Input.Capped | crates/test1/src/main.rs:146-148 | Definition of the speed cap on an entity that the input controller steers; `Input.SteeredKeepsCap` and `Simulation.World.InputSystem` state that it is kept. |
| Movement.Integrate | crates/test1/src/main.rs:104-106 | Definition of the integrator step on one Transform; `Movement.MovedEffect`, `Movement.MovedZeroDt` and `Movement.MovedAdditive` state its properties. |
| Movement.Moved | crates/test1/src/main.rs:103-106 | Definition of one entity after the integrator (only with Velocity and Transform); the `Movement` lemmas state its properties. |
| Friction.Decay | crates/test1/src/main.rs:112-116 | Definition of the gated ×0.7 on one Velocity; `Friction.DecayEffect` states its properties. |
| Friction.Decays | crates/test1/src/main.rs:112-113 | Definition of the friction gate: more than 0.1 s since `last_change`, friction on and a nonzero velocity; `Friction.DecayEffect` states the result on both sides of it. |
| Friction.Decayed | crates/test1/src/main.rs:111-116 | Definition of one entity after friction; `Friction.DecayedFrame` states its properties. |
| Friction.DecayOver | crates/test1/src/main.rs:110-118 | Definition of friction over a run of frames; `Friction.DecayOverKeepsStamp`, `Friction.DecayOverMonotone` and `Friction.DecayOverQuiescent` state its properties. |
| Aim.ViewDir | crates/test1/src/main.rs:60 | Definition of the view vector; `Aim.AimedEffect` states it in closed form. |
| Aim.Aims | crates/test1/src/main.rs:57-59 | Definition of the entities the pointer tracker visits (Transform, Velocity and Shooter); `Aim.AimedEffect` states what happens to them and that every other entity is unchanged. |
| Aim.Aimed | crates/test1/src/main.rs:59-66 | Definition of one entity after one pointer event; `Aim.AimedEffect` and `Aim.AimedOverwrites` state its properties. |
| Aim.AimAll | crates/test1/src/main.rs:58-66 | Definition of one entity after a frame's pointer events; `Aim.AimLastWins` states its properties. |
| Fire.CanFire | crates/test1/src/main.rs:81-82 | Definition of the cooldown gate; `Fire.FiredEffect`, `Fire.CooldownBetweenFrames` and `Fire.FirstShotDelayed` state its properties. |
| Fire.Armed | crates/test1/src/main.rs:78-81 | Definition of the entities the fire loop visits (Transform and Shooter); `Fire.CanFire` requires it and `Fire.VolleySize` counts them. |
| Fire.Triggers | crates/test1/src/main.rs:80 | Definition of a firing event: any event of the Left button, pressed or released; `Simulation.World.FireSystem` states that only such events fire. |
| Fire.AnyTrigger | crates/test1/src/main.rs:79-80 | Definition of a frame that holds at least one firing event; `Simulation.World.FireSystem` states that without one nothing changes. |
| Fire.Projectile | crates/test1/src/main.rs:85-96 | Definition of a projectile's components; `Fire.ProjectileShape` and `Fire.ProjectileDistances` state its properties. |
| Fire.AimVector | crates/test1/src/main.rs:86 | Definition of the shoot direction lifted to three dimensions with z = 0; `Fire.ProjectileShape` and `Fire.ProjectileDistances` state the projectile in terms of it. |
| Fire.Fired | crates/test1/src/main.rs:82-83 | Definition of one entity after one visit of the fire loop; `Fire.FiredEffect` states its properties. |
| Fire.Volley | crates/test1/src/main.rs:81-98 | Definition of the requests of one pass of the fire loop; `Fire.VolleyMembers`, `Fire.VolleySize` and `Fire.VolleyOfDisarmed` state its properties. |
| Fire.FireableCount | crates/test1/src/main.rs:81-82 | Definition of the number of entities whose gate is open; `Fire.VolleySize` states that the pass makes exactly that many requests. |
| Fire.ArmedCount | crates/test1/src/main.rs:81 | Definition of the number of entities the fire loop visits; `Fire.VolleySize` bounds the requests by it. |
| Reaper.Expired | crates/test1/src/main.rs:71-72 | Definition of an expired entity; `Reaper.ReapExactlyExpired` states it in terms of the Lifespan. |
| Reaper.ReapRequests | crates/test1/src/main.rs:71-73 | Definition of the reaper's requests; `Reaper.ReapRequestsIff` and `Reaper.ReapExactlyExpired` state its properties. |
| Commands.Without | crates/test1/src/main.rs:73 | Definition of a despawn on the store; `Commands.WithoutMembers` and `Commands.WithoutWellFormed` state its properties. |
| Commands.Execute | crates/test1/src/main.rs:70-101 | Definition of applying requests in order; `Commands.ExecuteWellFormed`, `Commands.ExecuteDespawns`, `Commands.ExecuteSpawns` and `Commands.ReapThenExecute` state its properties. |
| Simulation.World.Setup | crates/test1/src/main.rs:37-55 | The store holds only the player, with identifier 0: at the origin with rotation 0, at rest with `last_change` 0 and subject to friction, aiming at (0, 0) with angle 0, last shot at 0, no Lifespan. Identifiers stay distinct and the speed cap holds. |
| Fire.FirstShotDelayed | crates/test1/src/main.rs:49-54 | The freshly spawned player passes the fire gate exactly when `now > 0.1`. |
| Simulation.World.InputSystem | crates/test1/src/main.rs:120-153 | Entity k of the store becomes `Input.Steered` of its old value. Entities without a Shooter are unchanged. Identifiers and the next identifier are kept. With a lawful `normalize`, a store within the speed cap stays within it. |
| Simulation.SteerVelocity | crates/test1/src/main.rs:122-151 | Steering one velocity step by step (key direction, normalize, times 5000 times dt, add to x and y, cap, stamp) yields `Input.Steer`. |
| Input.KeyDirectionAxes | crates/test1/src/main.rs:127-138 | Each axis of the key direction is 0 when its two keys are both held or both released; otherwise -dt or +dt by the held key (A/S negative, D/W positive). z is 0. |
| Input.KeyDirectionZeroIff | crates/test1/src/main.rs:127-140 | The `dir.length() > 0` gate opens exactly when dt is nonzero and A differs from D or W differs from S. |
| Input.KeyDirectionScale | crates/test1/src/main.rs:127-138 | The key direction for dt is dt times the key direction for a unit frame. |
| Input.AccelDirectionIgnoresDt | crates/test1/src/main.rs:127-141 | For dt > 0 the normalized direction depends only on the keys, not on dt. |
| Input.SteerIdle | crates/test1/src/main.rs:140-151 | With dt = 0 or cancelling keys the velocity, including `last_change`, is unchanged. |
| Input.SteerCapsSpeed | crates/test1/src/main.rs:140-151 | With a nonzero direction `last_change` becomes `now` and the speed is at most 500, whatever it was before. An accelerated velocity within the cap is kept as it is; a faster one becomes exactly 500 long with the same normalized direction. `no_friction` is kept. |
| Input.RescaledToCap | crates/test1/src/main.rs:146-147 | Under a lawful `normalize`, rescaling an over-cap vector gives square length exactly 500² and the vector's own normalized direction. |
| Input.SteeredKeepsCap | crates/test1/src/main.rs:120-153 | The input step keeps a capped entity capped and keeps its identifier. An entity without a Shooter is unchanged. |
| Input.HoldUpFromRest | crates/test1/src/main.rs:120-153 | From rest, holding W for a 0.016 s frame gives velocity (0, 80, 0), stamped with `now`. |
| Simulation.World.VelocitySystem | crates/test1/src/main.rs:103-108 | Entity k becomes `Movement.Moved` of its old value. Identifiers and the speed cap are kept. |
| Movement.MovedEffect | crates/test1/src/main.rs:103-108 | An entity with a Velocity and a Transform moves by velocity times dt on x and y. z, the rotation and every other component are kept. Any other entity is unchanged. |
| Movement.MovedZeroDt | crates/test1/src/main.rs:103-108 | A zero-length frame moves nothing. |
| Movement.MovedAdditive | crates/test1/src/main.rs:103-108 | Frames of dt1 and then dt2 move an entity as far as one frame of dt1 + dt2. |
| Simulation.World.FrictionSystem | crates/test1/src/main.rs:110-118 | Entity k becomes `Friction.Decayed` of its old value. Identifiers and the speed cap are kept. |
| Friction.DecayEffect | crates/test1/src/main.rs:112-116 | The velocity is multiplied by 0.7 when more than 0.1 s has passed since `last_change`, friction applies and the velocity is nonzero; otherwise it is unchanged. `last_change` and `no_friction` never change. The square speed never grows. |
| Friction.DecayedFrame | crates/test1/src/main.rs:110-118 | Friction changes no identifier and no component other than the Velocity. |
| Friction.DecayOverKeepsStamp | crates/test1/src/main.rs:110-118 | Over any run of frames, friction never modifies `last_change` or `no_friction`. |
| Friction.DecayOverMonotone | crates/test1/src/main.rs:110-118 | Over any run of frames, the square speed is non-increasing. |
| Friction.DecayOverQuiescent | crates/test1/src/main.rs:110-118 | A moving entity subject to friction whose quiet period has run out in every frame has velocity 0.7^n times the original after n frames, and it never stops. |
| Simulation.World.MouseSystem | crates/test1/src/main.rs:57-68 | Entity k becomes `Aim.AimAll` of its old value over the events. With no events nothing changes; otherwise the result is as if only the last event had arrived. Identifiers and the speed cap are kept. |
| Aim.AimedEffect | crates/test1/src/main.rs:59-66 | For an aiming entity the shoot direction becomes (pointer − (640, 400)) − (x, y) and the shoot angle becomes −angle_between(direction, x axis). The rotation is the shoot angle minus π/2. The position, Velocity, `last_shot_at` and Lifespan are kept. Any other entity is unchanged. |
| Aim.AimedOverwrites | crates/test1/src/main.rs:57-68 | Two events in a row leave an entity as the second alone would. |
| Aim.AimLastWins | crates/test1/src/main.rs:57-68 | After a nonempty run of events an entity is as if only the last event had arrived. After none it is unchanged. |
| Simulation.World.FireSystem | crates/test1/src/main.rs:78-101 | Without a Left event nothing changes and no request is made. With one, every entity becomes `Fire.Fired` of its old value: identical for one Left event or many. The requests are exactly `Fire.Volley` of the old store: at most one projectile per shooter per frame. Identifiers and the speed cap are kept. |
| Simulation.FirePass | crates/test1/src/main.rs:81-98 | One pass of the fire loop sets every entity to `Fire.Fired` and returns `Fire.Volley` of the store it started from. |
| Simulation.FireOnce | crates/test1/src/main.rs:79-100 | A later Left event in the same frame has no effect: the first pass already closed every gate, so the result and the requests equal those of a single pass over the original store. |
| Fire.FiredEffect | crates/test1/src/main.rs:82-83 | Firing sets `last_shot_at` to `now` and changes nothing else: the shoot direction and angle, the Transform, the Velocity and the Lifespan are kept. No shot means no change. Right after a shot the gate is closed, so a second visit in the same frame does nothing. |
| Fire.CooldownBetweenFrames | crates/test1/src/main.rs:82-83 | After a shot at t1, the gate at t2 is open exactly when t2 − t1 > 0.1. |
| Fire.VolleyOfDisarmed | crates/test1/src/main.rs:81-98 | A pass over entities whose gates are all closed asks for nothing. |
| Fire.VolleySize | crates/test1/src/main.rs:81-98 | A pass asks for exactly one projectile per entity whose gate is open, which is at most one per entity holding a Transform and a Shooter. |
| Fire.VolleyMembers | crates/test1/src/main.rs:81-98 | A request is in the pass exactly when it spawns the projectile of some entity whose gate was open. |
| Fire.ProjectileShape | crates/test1/src/main.rs:85-96 | A projectile has a Transform, a Velocity and a Lifespan and no Shooter. Its rotation is the shoot angle. Its velocity is 2000 × normalize(aim), with `last_change` 0 and no friction. It starts 50 × normalize(aim) from the shooter and expires at `now + 0.5`. |
| Fire.ProjectileDistances | crates/test1/src/main.rs:85-96 | For a nonzero aim and a lawful `normalize`, the projectile's speed is 2000 and it starts 50 units from the shooter. |
| Simulation.World.KillSystem | crates/test1/src/main.rs:70-76 | The requests are `Reaper.ReapRequests` of the store. All of them are despawns. An entity's despawn is requested exactly when it has a Lifespan and `now >= kill_at`. |
| Reaper.ReapRequestsIff | crates/test1/src/main.rs:70-76 | Only despawns are requested. An identifier is requested exactly when an expired entity carries it. |
| Reaper.ReapExactlyExpired | crates/test1/src/main.rs:70-76 | With distinct identifiers: an entity is requested exactly when it has a Lifespan and `now >= kill_at`. Entities without one, or not yet due, are left alone. |
| Simulation.World.Apply | crates/test1/src/main.rs:70-101 | The store and next identifier become `Commands.Execute` of the old ones over the requests. Identifiers stay distinct. When no requested spawn carries a Shooter, a store within the speed cap stays within it. |
| Simulation.ExecuteKeepsCap | crates/test1/src/main.rs:70-101 | Applying requests whose spawns carry no Shooter keeps every Shooter within the speed cap. |
| Simulation.GameRequestsShooterless | crates/test1/src/main.rs:73-96 | Neither the fire loop's requests (projectiles, which have no Shooter) nor the reaper's (despawns only) spawn a Shooter, so applying them keeps the cap. |
| Commands.ExecuteWellFormed | crates/test1/src/main.rs:70-101 | Applying requests keeps identifiers distinct and below the next one. The next identifier never decreases. |
| Commands.WithoutMembers | crates/test1/src/main.rs:73 | Despawning an identifier keeps exactly the entities carrying another identifier. |
| Commands.WithoutWellFormed | crates/test1/src/main.rs:73 | Despawning keeps identifiers distinct. |
| Commands.ExecuteDespawns | crates/test1/src/main.rs:73 | A list of despawns removes exactly the named entities and hands out no identifier. |
| Commands.ExecuteSpawns | crates/test1/src/main.rs:90-96 | A list of spawns keeps the old entities in place. It appends one entity per request, in order, under consecutive new identifiers. |
| Commands.ReapThenExecute | crates/test1/src/main.rs:70-76 | After the reaper's requests are applied, an entity is present exactly when it was present and had not expired. |
| Commands.ProjectileLifetime | crates/test1/src/main.rs:96 | A projectile fired at t0 is reaped at `now` exactly when `now >= t0 + 0.5`. |
| Geometry.LenSqPositive | crates/test1/src/main.rs:140 | The square length is positive exactly for nonzero vectors. |
| Geometry.LenSq | crates/test1/src/main.rs:113 | Definition of the square of `Vec3::length`, which the gates at lines 113, 140 and 146 compare; `Geometry.LenSqPositive` states when it is positive. |
| Geometry.ScaledUnitLenSq | crates/test1/src/main.rs:147 | Under a lawful `normalize`, c times the normalization of a nonzero vector has square length c². |

## Left out

- `main` (lines 7-18) is left out. It registers the systems, and the
  scheduler and frame loop are Bevy's. Each system is a separate method;
  frame order is not fixed here.
- Rendering and assets are left out: textures, `ColorMaterial`, sprites, the
  camera entity and `pew_handle`. They draw the game and decide nothing in
  it.
- Floating-point rounding is not modelled. The f32 positions, velocities,
  angles and `dt`, and the f64 timestamps, are all exact reals here.
- `normalize` and `angle_between` are parameters, not computed values.
  - Only the laws in `Geometry.Lawful` are assumed about `normalize`.
  - Nothing is assumed about `angle_between`.
  - Nothing is assumed about the zero vector.
  - So `Geometry.Lawful` may be stronger than f32 `normalize` really is.
- Fire.ProjectileDistances: stated only for a nonzero aim. A zero shoot
  direction, which the player has until the first pointer event, gives
  glam's undefined result for a zero vector.
- The quaternion made by `Quat::from_rotation_z` is represented by its
  angle.
- `EventReader` cursors (which events a reader has already seen) are left
  out. Each system gets exactly the frame's new events.
- The window identifier carried by `CursorMoved` is left out, because it is
  never read.
- Bevy's iteration order is left out. Bevy visits entities per archetype
  table, and a despawn swap-removes within its table, so its order can
  differ from the store's order here (creation order, with despawned entries
  removed). No proved property depends on the order, except the order in
  which new spawn requests are listed and so which identifiers they get.
- Bevy's entity allocator is left out; it may reuse the slot of a despawned
  entity. Here a spawn takes the next never-used number, and a despawn of a
  missing entity does nothing.
- Commands are buffered until `Apply`, as in Bevy. A projectile spawned in
  a frame therefore appears only after `Apply`.
