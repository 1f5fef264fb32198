/** The explosion lifecycle of src/main.rs: `explosion_to_spawn_system`
    turns each `ExplosionToSpawn` marker into an animated explosion, and
    `explosion_animation_system` advances the atlas frame each time the
    explosion's timer fires, despawning it at `EXPLOSION_LEN`. The timer
    itself is engine state: each tick supplies, per explosion, whether its
    timer finished on that tick. */
module Explosions {
  import opened Common
  import opened Commands

  /** One row of the query `(Entity, &ExplosionToSpawn)`. */
  datatype Marker = Marker(entity: Entity, position: Vec3)

  /** `explosion_to_spawn_system`: per marker, an explosion at the stored
      position with a fresh timer on the first atlas frame, then the marker
      is despawned. */
  method ExplosionToSpawnSystem(markers: seq<Marker>) returns (cmds: seq<Command>)
    ensures |cmds| == 2 * |markers|
    ensures forall i | 0 <= i < |markers| ::
      cmds[2 * i] == SpawnExplosion(markers[i].position, 0) && cmds[2 * i + 1] == Despawn(markers[i].entity)
  {
    cmds := [];
    for i := 0 to |markers|
      invariant |cmds| == 2 * i
      invariant forall k | 0 <= k < i ::
        cmds[2 * k] == SpawnExplosion(markers[k].position, 0) && cmds[2 * k + 1] == Despawn(markers[k].entity)
    {
      cmds := cmds + [SpawnExplosion(markers[i].position, 0)];
      cmds := cmds + [Despawn(markers[i].entity)];
    }
  }

  /** One row of the query `(Entity, &mut ExplosionTimer, &mut TextureAtlasSprite)`:
      the entity and its atlas frame index. */
  datatype Explosion = Explosion(entity: Entity, frame: nat)

  /** One tick of one explosion: the new frame index and whether the entity
      is despawned. */
  function Tick(frame: nat, finished: bool): (r: (nat, bool))
    ensures r.0 == frame || r.0 == frame + 1
    ensures r.1 ==> finished && r.0 >= EXPLOSION_LEN
    ensures frame < EXPLOSION_LEN ==> (r.1 <==> finished && frame == EXPLOSION_LEN - 1)
  {
    if finished then (frame + 1, frame + 1 >= EXPLOSION_LEN) else (frame, false)
  }

  /** The despawn commands of one tick over the explosions `es`, whose timers
      finished as `finished` says, in query order. */
  function AnimationDespawns(es: seq<Explosion>, finished: seq<bool>): seq<Command>
    requires |finished| == |es|
    decreases |es|
  {
    if es == [] then []
    else
      var n := |es| - 1;
      AnimationDespawns(es[..n], finished[..n])
        + (if Tick(es[n].frame, finished[n]).1 then [Despawn(es[n].entity)] else [])
  }

  /** `explosion_animation_system`. */
  method ExplosionAnimation(explosions: array<Explosion>, finished: seq<bool>) returns (cmds: seq<Command>)
    requires |finished| == explosions.Length
    modifies explosions
    ensures forall i | 0 <= i < explosions.Length ::
      explosions[i].entity == old(explosions[i].entity)
      && explosions[i].frame == old(explosions[i].frame) + (if finished[i] then 1 else 0)
    ensures cmds == AnimationDespawns(old(explosions[..]), finished)
  {
    cmds := [];
    ghost var before := explosions[..];
    for i := 0 to explosions.Length
      invariant forall k | 0 <= k < i ::
        explosions[k].entity == before[k].entity
        && explosions[k].frame == before[k].frame + (if finished[k] then 1 else 0)
      invariant forall k | i <= k < explosions.Length :: explosions[k] == before[k]
      invariant cmds == AnimationDespawns(before[..i], finished[..i])
    {
      var e := explosions[i];
      if finished[i] {
        explosions[i] := e.(frame := e.frame + 1);
        if e.frame + 1 >= EXPLOSION_LEN {
          cmds := cmds + [Despawn(e.entity)];
        }
      }
      assert before[..i + 1][..i] == before[..i] && finished[..i + 1][..i] == finished[..i];
    }
    assert before[..explosions.Length] == before && finished[..explosions.Length] == finished;
  }

  /** The number of ticks on which the timer finished. */
  function CountFinished(fins: seq<bool>): nat
    decreases |fins|
  {
    if fins == [] then 0 else (if fins[0] then 1 else 0) + CountFinished(fins[1..])
  }

  /** Following one explosion from atlas frame `frame` through the ticks
      `fins`: the tick on which it is despawned, if any. */
  function DespawnTick(frame: nat, fins: seq<bool>): Option<nat>
    decreases |fins|
  {
    if fins == [] then None
    else
      var (next, gone) := Tick(frame, fins[0]);
      if gone then Some(0)
      else match DespawnTick(next, fins[1..])
        case None => None
        case Some(t) => Some(t + 1)
  }

  /** An explosion on frame `frame` is despawned exactly on the tick on which
      its timer finishes for the `(EXPLOSION_LEN - frame)`-th time, and
      survives every run of ticks with fewer finishes. */
  lemma {:induction false} ExplosionLifetime(frame: nat, fins: seq<bool>)
    requires frame < EXPLOSION_LEN
    ensures DespawnTick(frame, fins).Some? <==> CountFinished(fins) >= EXPLOSION_LEN - frame
    ensures DespawnTick(frame, fins).Some? ==>
      var t := DespawnTick(frame, fins).value;
      t < |fins| && fins[t] && CountFinished(fins[..t + 1]) == EXPLOSION_LEN - frame
    decreases |fins|
  {
    if fins != [] {
      var (next, gone) := Tick(frame, fins[0]);
      if gone {
        assert fins[..1][1..] == [];
      } else {
        ExplosionLifetime(next, fins[1..]);
        match DespawnTick(next, fins[1..])
        case None =>
        case Some(t) =>
          assert fins[..t + 2][1..] == fins[1..][..t + 1];
      }
    }
  }

  /** The count of finishes over a prefix never exceeds its length. */
  lemma {:induction false} CountFinishedBound(fins: seq<bool>)
    ensures CountFinished(fins) <= |fins|
    decreases |fins|
  {
    if fins != [] {
      CountFinishedBound(fins[1..]);
    }
  }

  /** A new explosion lives through at least `EXPLOSION_LEN` ticks: it is
      despawned on the tick of its 16th timer period, never earlier. */
  lemma NewExplosionLivesSixteenPeriods(fins: seq<bool>)
    ensures DespawnTick(0, fins).Some? ==> DespawnTick(0, fins).value + 1 >= EXPLOSION_LEN
    ensures CountFinished(fins) < EXPLOSION_LEN ==> DespawnTick(0, fins).None?
  {
    ExplosionLifetime(0, fins);
    if DespawnTick(0, fins).Some? {
      var t := DespawnTick(0, fins).value;
      CountFinishedBound(fins[..t + 1]);
    }
  }
}
