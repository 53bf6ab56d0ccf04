/** Friction decay (`friction_system`): once an entity subject to friction
    has had no fresh input for more than 0.1 s, its nonzero velocity is
    multiplied by 0.7 every frame. The timestamp is never reset here, so the
    decay repeats frame after frame. */
module Friction {
  import opened Geometry
  import opened Components

  const Quiescence: real := 0.1
  const DecayFactor: real := 0.7

  predicate Decays(v: Velocity, now: real) {
    now - v.lastChange > Quiescence && !v.noFriction && LenSq(v.magnitude) > 0.0
  }

  function Decay(v: Velocity, now: real): Velocity {
    if now - v.lastChange > Quiescence && !v.noFriction then
      if LenSq(v.magnitude) > 0.0 then v.(magnitude := Scale(DecayFactor, v.magnitude)) else v
    else
      v
  }

  /** One entity after friction has visited it. */
  function Decayed(e: Entity, now: real): Entity {
    if e.parts.velocity.Some? then
      e.(parts := e.parts.(velocity := Some(Decay(e.parts.velocity.value, now))))
    else
      e
  }

  /** The velocity is multiplied by exactly 0.7 when the gate is open, the
      entity is subject to friction and it is moving; otherwise it is
      unchanged. The timestamp and the friction flag never change, and the
      square speed never grows. */
  lemma DecayEffect(v: Velocity, now: real)
    ensures Decays(v, now) ==> Decay(v, now).magnitude == Scale(0.7, v.magnitude)
    ensures !Decays(v, now) ==> Decay(v, now) == v
    ensures Decay(v, now).lastChange == v.lastChange
    ensures Decay(v, now).noFriction == v.noFriction
    ensures LenSq(Decay(v, now).magnitude) <= LenSq(v.magnitude)
  {
    if Decays(v, now) {
      LenSqScale(DecayFactor, v.magnitude);
    }
  }

  /** Friction leaves the identifier and every other component alone. */
  lemma DecayedFrame(e: Entity, now: real)
    ensures Decayed(e, now).id == e.id
    ensures Decayed(e, now).parts.transform == e.parts.transform
    ensures Decayed(e, now).parts.shooter == e.parts.shooter
    ensures Decayed(e, now).parts.lifespan == e.parts.lifespan
    ensures Decayed(e, now).parts.velocity.Some? == e.parts.velocity.Some?
  {
  }

  /** The velocity after friction has run at each of the times in `nows`,
      with no other system in between. */
  function DecayOver(v: Velocity, nows: seq<real>): Velocity
    decreases |nows|
  {
    if nows == [] then v else Decay(DecayOver(v, nows[..|nows| - 1]), nows[|nows| - 1])
  }

  /** Repeated decay never touches the timestamp or the friction flag. */
  lemma {:induction false} DecayOverKeepsStamp(v: Velocity, nows: seq<real>)
    ensures DecayOver(v, nows).lastChange == v.lastChange
    ensures DecayOver(v, nows).noFriction == v.noFriction
    decreases |nows|
  {
    if nows != [] {
      DecayOverKeepsStamp(v, nows[..|nows| - 1]);
      DecayEffect(DecayOver(v, nows[..|nows| - 1]), nows[|nows| - 1]);
    }
  }

  /** The square speed is non-increasing along any sequence of frames. */
  lemma {:induction false} DecayOverMonotone(v: Velocity, nows: seq<real>, i: nat, j: nat)
    requires i <= j <= |nows|
    ensures LenSq(DecayOver(v, nows[..j]).magnitude) <= LenSq(DecayOver(v, nows[..i]).magnitude)
    decreases j
  {
    if i < j {
      DecayOverMonotone(v, nows, i, j - 1);
      assert nows[..j][..j - 1] == nows[..j - 1];
      DecayEffect(DecayOver(v, nows[..j - 1]), nows[j - 1]);
    }
  }

  function Pow(b: real, n: nat): real {
    if n == 0 then 1.0 else b * Pow(b, n - 1)
  }

  lemma {:induction false} PowPositive(b: real, n: nat)
    requires b > 0.0
    ensures Pow(b, n) > 0.0
  {
    if n > 0 {
      PowPositive(b, n - 1);
    }
  }

  /** A moving entity subject to friction whose quiescence period has run
      out at every one of the frames decays geometrically: after n frames its
      velocity is 0.7^n times the original, and it never comes to rest. */
  lemma {:induction false} DecayOverQuiescent(v: Velocity, nows: seq<real>)
    requires !v.noFriction
    requires LenSq(v.magnitude) > 0.0
    requires forall i :: 0 <= i < |nows| ==> nows[i] - v.lastChange > Quiescence
    ensures DecayOver(v, nows).magnitude == Scale(Pow(DecayFactor, |nows|), v.magnitude)
    ensures LenSq(DecayOver(v, nows).magnitude) > 0.0
    decreases |nows|
  {
    var n := |nows|;
    PowPositive(DecayFactor, n);
    LenSqScale(Pow(DecayFactor, n), v.magnitude);
    assert Pow(DecayFactor, n) * Pow(DecayFactor, n) > 0.0;
    if n > 0 {
      var prefix := nows[..n - 1];
      DecayOverQuiescent(v, prefix);
      DecayOverKeepsStamp(v, prefix);
      var u := DecayOver(v, prefix);
      assert Decays(u, nows[n - 1]);
      ScaleScale(DecayFactor, Pow(DecayFactor, n - 1), v.magnitude);
    }
  }
}
