/** Applying the requests a system queued on `Commands` once it has run: in
    order, a spawn appends a new entity under the next free identifier and a
    despawn removes the entity with that identifier (and does nothing if
    there is none). */
module Commands {
  import opened Components
  import Reaper
  import Fire

  /** The store without the entity `id`. */
  function Without(es: seq<Entity>, id: EntityId): seq<Entity>
    decreases |es|
  {
    if es == [] then []
    else Without(es[..|es| - 1], id) + if es[|es| - 1].id == id then [] else [es[|es| - 1]]
  }

  /** The store and next free identifier after the requests in order. */
  function Execute(es: seq<Entity>, nextId: nat, cmds: seq<Command>): (seq<Entity>, nat)
    decreases |cmds|
  {
    if cmds == [] then (es, nextId)
    else
      match cmds[0]
      case Spawn(b) => Execute(es + [Entity(nextId, b)], nextId + 1, cmds[1..])
      case Despawn(id) => Execute(Without(es, id), nextId, cmds[1..])
  }

  predicate AllDespawns(cmds: seq<Command>) {
    forall i :: 0 <= i < |cmds| ==> cmds[i].Despawn?
  }

  predicate AllSpawns(cmds: seq<Command>) {
    forall i :: 0 <= i < |cmds| ==> cmds[i].Spawn?
  }

  /** Removing an identifier keeps exactly the other entities. */
  lemma {:induction false} WithoutMembers(es: seq<Entity>, id: EntityId)
    ensures forall e :: e in Without(es, id) <==> e in es && e.id != id
    ensures |Without(es, id)| <= |es|
    decreases |es|
  {
    if es != [] {
      WithoutMembers(es[..|es| - 1], id);
      assert es == es[..|es| - 1] + [es[|es| - 1]];
    }
  }

  lemma {:induction false} WithoutWellFormed(es: seq<Entity>, nextId: nat, id: EntityId)
    requires WellFormed(es, nextId)
    ensures WellFormed(Without(es, id), nextId)
    decreases |es|
  {
    if es != [] {
      var prefix, last := es[..|es| - 1], es[|es| - 1];
      assert WellFormed(prefix, nextId);
      WithoutWellFormed(prefix, nextId, id);
      var rest := Without(prefix, id);
      if last.id != id {
        WithoutMembers(prefix, id);
        LastIdUnique(es, nextId);
        assert forall k :: 0 <= k < |rest| ==> rest[k] in prefix;
        assert Without(es, id) == rest + [last];
      } else {
        assert Without(es, id) == rest;
      }
    }
  }

  /** In a well-formed store no earlier entity shares the last one's
      identifier. */
  lemma LastIdUnique(es: seq<Entity>, nextId: nat)
    requires WellFormed(es, nextId) && es != []
    ensures forall e :: e in es[..|es| - 1] ==> e.id != es[|es| - 1].id
  {
    forall e | e in es[..|es| - 1] ensures e.id != es[|es| - 1].id {
      var j :| 0 <= j < |es| - 1 && es[..|es| - 1][j] == e;
      assert es[j] == e;
    }
  }

  /** Applying requests keeps identifiers distinct and below the next free
      one, and never hands out an identifier twice. */
  lemma {:induction false} ExecuteWellFormed(es: seq<Entity>, nextId: nat, cmds: seq<Command>)
    requires WellFormed(es, nextId)
    ensures WellFormed(Execute(es, nextId, cmds).0, Execute(es, nextId, cmds).1)
    ensures Execute(es, nextId, cmds).1 >= nextId
    decreases |cmds|
  {
    if cmds != [] {
      match cmds[0]
      case Spawn(b) =>
        var es' := es + [Entity(nextId, b)];
        assert WellFormed(es', nextId + 1);
        ExecuteWellFormed(es', nextId + 1, cmds[1..]);
      case Despawn(id) =>
        WithoutWellFormed(es, nextId, id);
        ExecuteWellFormed(Without(es, id), nextId, cmds[1..]);
    }
  }

  /** Despawn requests remove exactly the entities they name and hand out no
      identifier. */
  lemma {:induction false} ExecuteDespawns(es: seq<Entity>, nextId: nat, cmds: seq<Command>)
    requires AllDespawns(cmds)
    ensures Execute(es, nextId, cmds).1 == nextId
    ensures forall e :: e in Execute(es, nextId, cmds).0 <==> e in es && Despawn(e.id) !in cmds
    decreases |cmds|
  {
    if cmds != [] {
      var id, tail := cmds[0].entity, cmds[1..];
      assert AllDespawns(tail) by {
        forall i | 0 <= i < |tail| ensures tail[i].Despawn? {
          assert tail[i] == cmds[i + 1];
        }
      }
      ExecuteDespawnStep(es, nextId, cmds);
      ExecuteDespawns(Without(es, id), nextId, tail);
      WithoutMembers(es, id);
      DespawnInCons(cmds);
    }
  }

  lemma ExecuteDespawnStep(es: seq<Entity>, nextId: nat, cmds: seq<Command>)
    requires cmds != [] && cmds[0].Despawn?
    ensures Execute(es, nextId, cmds) == Execute(Without(es, cmds[0].entity), nextId, cmds[1..])
  {
  }

  lemma DespawnInCons(cmds: seq<Command>)
    requires cmds != []
    ensures forall x :: Despawn(x) in cmds <==> cmds[0] == Despawn(x) || Despawn(x) in cmds[1..]
  {
    assert cmds == [cmds[0]] + cmds[1..];
  }

  /** Spawn requests append one entity per request, in order, under
      consecutive fresh identifiers, and keep every existing entity. */
  lemma {:induction false} ExecuteSpawns(es: seq<Entity>, nextId: nat, cmds: seq<Command>)
    requires AllSpawns(cmds)
    ensures Execute(es, nextId, cmds).1 == nextId + |cmds|
    ensures |Execute(es, nextId, cmds).0| == |es| + |cmds|
    ensures Execute(es, nextId, cmds).0[..|es|] == es
    ensures forall i :: 0 <= i < |cmds| ==>
      Execute(es, nextId, cmds).0[|es| + i] == Entity(nextId + i, cmds[i].bundle)
    decreases |cmds|
  {
    if cmds != [] {
      var es' := es + [Entity(nextId, cmds[0].bundle)];
      assert AllSpawns(cmds[1..]) by {
        forall i | 0 <= i < |cmds[1..]| ensures cmds[1..][i].Spawn? {
          assert cmds[1..][i] == cmds[i + 1];
        }
      }
      ExecuteSpawns(es', nextId + 1, cmds[1..]);
      var r := Execute(es', nextId + 1, cmds[1..]).0;
      assert r[..|es|] == r[..|es'|][..|es|];
      forall i | 0 <= i < |cmds|
        ensures r[|es| + i] == Entity(nextId + i, cmds[i].bundle)
      {
        if i > 0 {
          assert r[|es'| + (i - 1)] == Entity(nextId + 1 + (i - 1), cmds[1..][i - 1].bundle);
        } else {
          assert r[..|es'|][|es|] == es'[|es|];
        }
      }
    }
  }

  /** After the reaper's requests are applied, an entity is still present
      exactly when it was present and had not expired. */
  lemma ReapThenExecute(es: seq<Entity>, nextId: nat, now: real)
    requires WellFormed(es, nextId)
    ensures Execute(es, nextId, Reaper.ReapRequests(es, now)).1 == nextId
    ensures forall e :: e in Execute(es, nextId, Reaper.ReapRequests(es, now)).0 <==>
      e in es && !Reaper.Expired(e, now)
  {
    var cmds := Reaper.ReapRequests(es, now);
    Reaper.ReapRequestsIff(es, now);
    Reaper.ReapExactlyExpired(es, nextId, now);
    assert AllDespawns(cmds) by {
      forall i | 0 <= i < |cmds| ensures cmds[i].Despawn? {
        assert cmds[i] in cmds;
      }
    }
    ExecuteDespawns(es, nextId, cmds);
    forall e | e in es ensures Despawn(e.id) in cmds <==> Reaper.Expired(e, now) {
      var k :| 0 <= k < |es| && es[k] == e;
    }
  }

  /** A projectile spawned at `t0` survives the reaper's pass at `now`
      exactly when `now < t0 + 0.5`. */
  lemma ProjectileLifetime(id: EntityId, t: Transform, s: Shooter, t0: real, now: real, g: Geometry.Glam)
    ensures Reaper.Expired(Entity(id, Fire.Projectile(t, s, t0, g)), now) <==> now >= t0 + 0.5
  {
  }
}
