/** The lifespan reaper (`kill_system`): every entity holding a Lifespan
    whose expiry time has been reached gets a despawn request. */
module Reaper {
  import opened Components

  predicate Expired(e: Entity, now: real) {
    e.parts.lifespan.Some? && now >= e.parts.lifespan.value.killAt
  }

  /** The despawn requests of one pass, in store order. */
  function ReapRequests(es: seq<Entity>, now: real): seq<Command>
    decreases |es|
  {
    if es == [] then []
    else
      var e := es[|es| - 1];
      ReapRequests(es[..|es| - 1], now) + if Expired(e, now) then [Despawn(e.id)] else []
  }

  /** The reaper only ever asks for despawns, and it asks for an identifier
      exactly when an entity with that identifier has expired. */
  lemma {:induction false} ReapRequestsIff(es: seq<Entity>, now: real)
    ensures forall c :: c in ReapRequests(es, now) ==> c.Despawn?
    ensures forall id :: Despawn(id) in ReapRequests(es, now) <==>
      exists k :: 0 <= k < |es| && es[k].id == id && Expired(es[k], now)
    decreases |es|
  {
    if es != [] {
      var prefix, last := es[..|es| - 1], es[|es| - 1];
      var tail := if Expired(last, now) then [Despawn(last.id)] else [];
      assert ReapRequests(es, now) == ReapRequests(prefix, now) + tail;
      ReapRequestsIff(prefix, now);
      forall id | Despawn(id) in ReapRequests(es, now)
        ensures exists k :: 0 <= k < |es| && es[k].id == id && Expired(es[k], now)
      {
        if Despawn(id) in ReapRequests(prefix, now) {
          var k :| 0 <= k < |prefix| && prefix[k].id == id && Expired(prefix[k], now);
          assert es[k] == prefix[k];
        } else {
          assert es[|es| - 1].id == id && Expired(es[|es| - 1], now);
        }
      }
      forall id | exists k :: 0 <= k < |es| && es[k].id == id && Expired(es[k], now)
        ensures Despawn(id) in ReapRequests(es, now)
      {
        var k :| 0 <= k < |es| && es[k].id == id && Expired(es[k], now);
        if k < |prefix| {
          assert prefix[k] == es[k];
        }
      }
    }
  }

  /** In a store with distinct identifiers: an entity gets a despawn request
      if and only if it holds a Lifespan whose `kill_at` is at most `now`;
      entities without a Lifespan, or whose `kill_at` is still ahead, are left
      alone. */
  lemma ReapExactlyExpired(es: seq<Entity>, nextId: nat, now: real)
    requires WellFormed(es, nextId)
    ensures forall k :: 0 <= k < |es| ==>
      (Despawn(es[k].id) in ReapRequests(es, now) <==>
        es[k].parts.lifespan.Some? && now >= es[k].parts.lifespan.value.killAt)
  {
    ReapRequestsIff(es, now);
    forall k | 0 <= k < |es| && Despawn(es[k].id) in ReapRequests(es, now)
      ensures Expired(es[k], now)
    {
      var j :| 0 <= j < |es| && es[j].id == es[k].id && Expired(es[j], now);
      assert j == k;
    }
  }
}
