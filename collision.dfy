/** The two collision systems of src/main.rs. The engine's box test
    (`bevy::sprite::collide_aabb::collide`, reduced to whether it returns
    `Some`) is the parameter `collide`; nothing is assumed about it. */
module Collisions {
  import opened Common
  import opened Commands
  import opened PlayerStates

  /** `collide(laser centre, laser extent, target centre, target extent)`. */
  type Collide = (Vec3, Vec2, Vec3, Vec2) -> bool

  /** One row of a collision query `(Entity, &Transform, &SpriteSize)`. */
  datatype Collider = Collider(entity: Entity, translation: Vec3, scale: Vec3, size: Vec2)

  /** A laser's box: its sprite size times its scale. */
  function LaserExtent(c: Collider): (e: Vec2)
    ensures c.scale.x == 1.0 && c.scale.y == 1.0 ==> e == c.size
  {
    Vec2(c.size.x * c.scale.x, c.size.y * c.scale.y)
  }

  /** A target's box: its sprite size times its scale, times 100. */
  function TargetExtent(c: Collider): (e: Vec2)
    ensures c.scale.x == 1.0 && c.scale.y == 1.0 ==> e == Vec2(100.0 * c.size.x, 100.0 * c.size.y)
  {
    Vec2(c.size.x * c.scale.x * 100.0, c.size.y * c.scale.y * 100.0)
  }

  /** The box a target is tested with is 100 times the box the same row
      would have as a laser. */
  lemma TargetBoxHundredfold(c: Collider)
    ensures TargetExtent(c) == Vec2(100.0 * LaserExtent(c).x, 100.0 * LaserExtent(c).y)
  {
  }

  predicate Hits(collide: Collide, laser: Collider, target: Collider) {
    collide(laser.translation, LaserExtent(laser), target.translation, TargetExtent(target))
  }

  function Entities(cs: seq<Collider>): set<Entity> {
    set c | c in cs :: c.entity
  }

  // ---------------------------------------------------------------------
  // Player lasers against enemies
  // ---------------------------------------------------------------------

  /** The laser can destroy `enemy`: not yet despawned this tick, and hit. */
  predicate Struck(collide: Collide, laser: Collider, enemy: Collider, seen: set<Entity>) {
    enemy.entity !in seen && Hits(collide, laser, enemy)
  }

  /** The index of the first enemy a live laser destroys, if any. */
  function FirstTarget(collide: Collide, laser: Collider, enemies: seq<Collider>, seen: set<Entity>): (r: Option<nat>)
    ensures r.Some? ==> r.value < |enemies| && Struck(collide, laser, enemies[r.value], seen)
    ensures r.Some? ==> forall j | 0 <= j < r.value :: !Struck(collide, laser, enemies[j], seen)
    ensures r.None? ==> forall j | 0 <= j < |enemies| :: !Struck(collide, laser, enemies[j], seen)
    decreases |enemies|
  {
    if enemies == [] then None
    else if Struck(collide, laser, enemies[0], seen) then Some(0)
    else match FirstTarget(collide, laser, enemies[1..], seen)
      case None => None
      case Some(k) => Some(k + 1)
  }

  /** `FirstTarget` is pinned down by its first struck enemy. */
  lemma FirstTargetAt(collide: Collide, laser: Collider, enemies: seq<Collider>, seen: set<Entity>, j: nat)
    requires j < |enemies| && Struck(collide, laser, enemies[j], seen)
    requires forall k | 0 <= k < j :: !Struck(collide, laser, enemies[k], seen)
    ensures FirstTarget(collide, laser, enemies, seen) == Some(j)
  {
  }

  /** One destruction: `laser` destroyed `enemy`. */
  datatype Kill = Kill(laser: Collider, enemy: Collider)

  /** The destructions of one pass, in order: each laser not yet despawned
      destroys the first enemy it hits that is not yet despawned, and both
      join the despawned set. */
  function Resolve(collide: Collide, lasers: seq<Collider>, enemies: seq<Collider>, seen: set<Entity>): (ks: seq<Kill>)
    ensures |ks| <= |lasers|
    decreases |lasers|
  {
    if lasers == [] then []
    else
      var l := lasers[0];
      if l.entity in seen then Resolve(collide, lasers[1..], enemies, seen)
      else match FirstTarget(collide, l, enemies, seen)
        case None => Resolve(collide, lasers[1..], enemies, seen)
        case Some(k) =>
          [Kill(l, enemies[k])] + Resolve(collide, lasers[1..], enemies, seen + {l.entity, enemies[k].entity})
  }

  /** One laser's step of `Resolve`, for the loop over the lasers. */
  lemma ResolveStep(collide: Collide, lasers: seq<Collider>, enemies: seq<Collider>, seen: set<Entity>, i: nat)
    requires i < |lasers|
    ensures var l := lasers[i];
      Resolve(collide, lasers[i..], enemies, seen) ==
        if l.entity in seen || FirstTarget(collide, l, enemies, seen).None? then
          Resolve(collide, lasers[i + 1..], enemies, seen)
        else
          var e := enemies[FirstTarget(collide, l, enemies, seen).value];
          [Kill(l, e)] + Resolve(collide, lasers[i + 1..], enemies, seen + {l.entity, e.entity})
  {
    assert lasers[i..][0] == lasers[i] && lasers[i..][1..] == lasers[i + 1..];
  }

  /** The commands issued for one destruction, in issue order. */
  function KillCommand(k: Kill): seq<Command> {
    [Despawn(k.enemy.entity), Despawn(k.laser.entity), SpawnExplosionToSpawn(k.enemy.translation)]
  }

  lemma KillCommandEffects(k: Kill)
    ensures Despawned(KillCommand(k)) == [k.enemy.entity, k.laser.entity]
    ensures ExplosionMarkers(KillCommand(k)) == [k.enemy.translation]
  {
    var c := KillCommand(k);
    assert c[1..][1..][1..] == [];
    assert Despawned(c[1..][1..]) == [];
    assert ExplosionMarkers(c[1..][1..]) == [k.enemy.translation];
  }

  function KillCommands(ks: seq<Kill>): seq<Command>
    decreases |ks|
  {
    if ks == [] then [] else KillCommand(ks[0]) + KillCommands(ks[1..])
  }

  /** Every destruction pairs a laser and an enemy of the queries, neither of
      them despawned before, and the laser hits the enemy. */
  lemma {:induction false} ResolveSound(collide: Collide, lasers: seq<Collider>, enemies: seq<Collider>, seen: set<Entity>)
    ensures forall k | k in Resolve(collide, lasers, enemies, seen) ::
      && k.laser in lasers && k.enemy in enemies
      && k.laser.entity !in seen && k.enemy.entity !in seen
      && Hits(collide, k.laser, k.enemy)
    decreases |lasers|
  {
    if lasers != [] {
      var l := lasers[0];
      ResolveSound(collide, lasers[1..], enemies, seen);
      match FirstTarget(collide, l, enemies, seen)
      case None =>
      case Some(t) =>
        ResolveSound(collide, lasers[1..], enemies, seen + {l.entity, enemies[t].entity});
    }
  }

  /** No two destructions share a laser or an enemy. */
  predicate DistinctKills(ks: seq<Kill>) {
    forall i, j | 0 <= i < j < |ks| ::
      ks[i].laser.entity != ks[j].laser.entity && ks[i].enemy.entity != ks[j].enemy.entity
  }

  /** No laser destroys two enemies, and no enemy is destroyed twice. */
  lemma {:induction false} ResolveDistinct(collide: Collide, lasers: seq<Collider>, enemies: seq<Collider>, seen: set<Entity>)
    ensures DistinctKills(Resolve(collide, lasers, enemies, seen))
    decreases |lasers|
  {
    if lasers != [] {
      var l := lasers[0];
      var ks := Resolve(collide, lasers, enemies, seen);
      if l.entity !in seen && FirstTarget(collide, l, enemies, seen).Some? {
        var t := FirstTarget(collide, l, enemies, seen).value;
        var seen' := seen + {l.entity, enemies[t].entity};
        var rest := Resolve(collide, lasers[1..], enemies, seen');
        ResolveDistinct(collide, lasers[1..], enemies, seen');
        ResolveSound(collide, lasers[1..], enemies, seen');
        assert ks == [Kill(l, enemies[t])] + rest;
        forall i, j | 0 <= i < j < |ks|
          ensures ks[i].laser.entity != ks[j].laser.entity && ks[i].enemy.entity != ks[j].enemy.entity
        {
          assert ks[j] == rest[j - 1] && ks[j] in rest;
          if i > 0 {
            assert ks[i] == rest[i - 1];
          }
        }
      } else {
        ResolveDistinct(collide, lasers[1..], enemies, seen);
        assert ks == Resolve(collide, lasers[1..], enemies, seen);
      }
    }
  }

  /** When no entity is both a player laser and an enemy, the pass despawns
      every entity at most once, and none of those already despawned. */
  lemma {:induction false} ResolveDespawnsOnce(collide: Collide, lasers: seq<Collider>, enemies: seq<Collider>, seen: set<Entity>)
    requires Entities(lasers) !! Entities(enemies)
    ensures var ds := Despawned(KillCommands(Resolve(collide, lasers, enemies, seen)));
      NoDuplicates(ds) && forall d | d in ds :: d !in seen
    decreases |lasers|
  {
    if lasers != [] {
      var l := lasers[0];
      assert Entities(lasers[1..]) <= Entities(lasers) by {
        forall c | c in lasers[1..] ensures c in lasers { }
      }
      if l.entity !in seen && FirstTarget(collide, l, enemies, seen).Some? {
        var t := FirstTarget(collide, l, enemies, seen).value;
        var e := enemies[t];
        var seen' := seen + {l.entity, e.entity};
        var rest := Resolve(collide, lasers[1..], enemies, seen');
        ResolveDespawnsOnce(collide, lasers[1..], enemies, seen');
        var restDs := Despawned(KillCommands(rest));
        assert KillCommands([Kill(l, e)] + rest) == KillCommand(Kill(l, e)) + KillCommands(rest) by {
          assert ([Kill(l, e)] + rest)[1..] == rest;
        }
        DespawnedAppend(KillCommand(Kill(l, e)), KillCommands(rest));
        var ds := Despawned(KillCommands(Resolve(collide, lasers, enemies, seen)));
        KillCommandEffects(Kill(l, e));
        assert ds == [e.entity, l.entity] + restDs;
        assert l.entity in Entities(lasers) && e.entity in Entities(enemies);
        PrependDistinct(e.entity, l.entity, restDs);
      } else {
        ResolveDespawnsOnce(collide, lasers[1..], enemies, seen);
      }
    }
  }

  /** The enemies destroyed by destructions that share no enemy. */
  function KilledEnemies(ks: seq<Kill>): set<Entity> {
    set i | 0 <= i < |ks| :: ks[i].enemy.entity
  }

  /** Destructions that share no enemy destroy as many enemies as there
      are destructions. */
  lemma {:induction false} DistinctKillsCount(ks: seq<Kill>)
    requires DistinctKills(ks)
    ensures |KilledEnemies(ks)| == |ks|
    decreases |ks|
  {
    if ks != [] {
      var n := |ks| - 1;
      var front := ks[..n];
      assert DistinctKills(front) by {
        forall i, j | 0 <= i < j < |front| ensures front[i].enemy.entity != front[j].enemy.entity {
          assert front[i] == ks[i] && front[j] == ks[j];
        }
      }
      DistinctKillsCount(front);
      assert KilledEnemies(ks) == KilledEnemies(front) + {ks[n].enemy.entity} by {
        forall x | x in KilledEnemies(ks) ensures x in KilledEnemies(front) + {ks[n].enemy.entity} {
          var i :| 0 <= i < |ks| && ks[i].enemy.entity == x;
          if i < n {
            assert front[i] == ks[i];
          }
        }
        forall x | x in KilledEnemies(front) ensures x in KilledEnemies(ks) {
          var i :| 0 <= i < |front| && front[i].enemy.entity == x;
          assert ks[i] == front[i];
        }
      }
      assert ks[n].enemy.entity !in KilledEnemies(front) by {
        forall i | 0 <= i < |front| ensures front[i].enemy.entity != ks[n].enemy.entity {
          assert front[i] == ks[i];
        }
      }
    }
  }

  /** A pass destroys exactly as many distinct enemies as it has
      destructions, so `PlayerLaserHitEnemy` lowers the count by the number
      of distinct enemies hit. */
  lemma DistinctEnemiesDestroyed(collide: Collide, lasers: seq<Collider>, enemies: seq<Collider>)
    ensures var ks := Resolve(collide, lasers, enemies, {}); |KilledEnemies(ks)| == |ks|
  {
    ResolveDistinct(collide, lasers, enemies, {});
    DistinctKillsCount(Resolve(collide, lasers, enemies, {}));
  }

  /** Two distinct entities missing from a duplicate-free list can be put in
      front of it. */
  lemma PrependDistinct(a: Entity, b: Entity, rest: seq<Entity>)
    requires a != b && a !in rest && b !in rest && NoDuplicates(rest)
    ensures NoDuplicates([a, b] + rest)
  {
    var s := [a, b] + rest;
    forall i, j | 0 <= i < j < |s| ensures s[i] != s[j] {
      if i >= 2 {
        assert s[i] == rest[i - 2] && s[j] == rest[j - 2];
      } else if j >= 2 {
        assert s[j] == rest[j - 2];
      }
    }
  }

  /** One `ExplosionToSpawn` per destruction, at the destroyed enemy's
      translation, in order; two despawns per destruction. */
  lemma {:induction false} KillCommandsEffects(ks: seq<Kill>)
    ensures |Despawned(KillCommands(ks))| == 2 * |ks|
    ensures |ExplosionMarkers(KillCommands(ks))| == |ks|
    ensures forall i | 0 <= i < |ks| :: ExplosionMarkers(KillCommands(ks))[i] == ks[i].enemy.translation
    decreases |ks|
  {
    if ks != [] {
      KillCommandsEffects(ks[1..]);
      DespawnedAppend(KillCommand(ks[0]), KillCommands(ks[1..]));
      ExplosionMarkersAppend(KillCommand(ks[0]), KillCommands(ks[1..]));
      KillCommandEffects(ks[0]);
    }
  }

  /** A pass destroys no more enemies than are live and not yet despawned. */
  lemma {:induction false} ResolveBound(collide: Collide, lasers: seq<Collider>, enemies: seq<Collider>, seen: set<Entity>)
    ensures |Resolve(collide, lasers, enemies, seen)| <= |Entities(enemies) - seen|
    decreases |lasers|
  {
    if lasers != [] {
      var l := lasers[0];
      if l.entity !in seen && FirstTarget(collide, l, enemies, seen).Some? {
        var e := enemies[FirstTarget(collide, l, enemies, seen).value];
        var seen' := seen + {l.entity, e.entity};
        ResolveBound(collide, lasers[1..], enemies, seen');
        assert e.entity in Entities(enemies) - seen;
        FewerLeft(Entities(enemies), seen, seen', e.entity);
      } else {
        ResolveBound(collide, lasers[1..], enemies, seen);
      }
    }
  }

  /** Despawning `e` and more leaves fewer live enemies. */
  lemma FewerLeft(live: set<Entity>, seen: set<Entity>, seen': set<Entity>, e: Entity)
    requires e in live - seen && seen + {e} <= seen'
    ensures |live - seen'| < |live - seen|
  {
    assert live - seen' <= (live - seen) - {e};
    assert |(live - seen) - {e}| == |live - seen| - 1;
    SubsetCard(live - seen', (live - seen) - {e});
  }

  lemma SubsetCard(a: set<Entity>, b: set<Entity>)
    requires a <= b
    ensures |a| <= |b|
  {
    assert b == a + (b - a);
  }

  /** The inner loop of `player_laser_hit_enemy_system` for one laser that
      is not yet despawned: it destroys the first enemy it hits that is not
      yet despawned, if any; the enemy count drops by one per destruction. */
  method StrikeFirst(collide: Collide, laser: Collider, enemies: seq<Collider>, seen: set<Entity>, count: nat)
    returns (seen': set<Entity>, count': nat, cmds: seq<Command>)
    requires laser.entity !in seen
    requires FirstTarget(collide, laser, enemies, seen).Some? ==> count > 0
    ensures FirstTarget(collide, laser, enemies, seen).None? ==> seen' == seen && count' == count && cmds == []
    ensures FirstTarget(collide, laser, enemies, seen).Some? ==>
      var e := enemies[FirstTarget(collide, laser, enemies, seen).value];
      && seen' == seen + {laser.entity, e.entity}
      && count' == count - 1
      && cmds == KillCommand(Kill(laser, e))
  {
    seen', count', cmds := seen, count, [];
    ghost var hit: Option<nat> := None;
    for j := 0 to |enemies|
      invariant hit.None? ==> seen' == seen && count' == count && cmds == []
      invariant hit.None? ==> forall k | 0 <= k < j :: !Struck(collide, laser, enemies[k], seen)
      invariant hit.Some? ==> && FirstTarget(collide, laser, enemies, seen) == hit
                              && seen' == seen + {laser.entity, enemies[hit.value].entity}
                              && count' == count - 1
                              && cmds == KillCommand(Kill(laser, enemies[hit.value]))
      invariant laser.entity in seen' <==> hit.Some?
    {
      var enemy := enemies[j];
      if enemy.entity in seen' || laser.entity in seen' {
        continue;
      }
      if Hits(collide, laser, enemy) {
        FirstTargetAt(collide, laser, enemies, seen, j);
        ghost var before := seen';
        cmds := cmds + [Despawn(enemy.entity)];
        seen' := seen' + {enemy.entity};
        count' := count' - 1;
        cmds := cmds + [Despawn(laser.entity)];
        seen' := seen' + {laser.entity};
        cmds := cmds + [SpawnExplosionToSpawn(enemy.translation)];
        assert seen' == before + {enemy.entity, laser.entity};
        assert cmds == KillCommand(Kill(laser, enemy));
        hit := Some(j);
      }
    }
  }

  /** The commands and the destruction count of the lasers from `i` on,
      split into those of laser `i` and those of the rest. */
  lemma ResolveAdvance(collide: Collide, lasers: seq<Collider>, enemies: seq<Collider>, seen: set<Entity>, i: nat)
    requires i < |lasers|
    ensures var l := lasers[i];
      var t := FirstTarget(collide, l, enemies, seen);
      var now := Resolve(collide, lasers[i..], enemies, seen);
      if l.entity in seen || t.None? then
        now == Resolve(collide, lasers[i + 1..], enemies, seen)
      else
        var e := enemies[t.value];
        var rest := Resolve(collide, lasers[i + 1..], enemies, seen + {l.entity, e.entity});
        KillCommands(now) == KillCommand(Kill(l, e)) + KillCommands(rest) && |now| == |rest| + 1
  {
    ResolveStep(collide, lasers, enemies, seen, i);
    var l := lasers[i];
    var t := FirstTarget(collide, l, enemies, seen);
    if l.entity !in seen && t.Some? {
      var e := enemies[t.value];
      var rest := Resolve(collide, lasers[i + 1..], enemies, seen + {l.entity, e.entity});
      assert ([Kill(l, e)] + rest)[1..] == rest;
    }
  }

  /** One iteration of the outer loop of `player_laser_hit_enemy_system`:
      laser `i` is skipped when already despawned and otherwise runs the
      inner loop. What it issues and destroys is what `Resolve` assigns to
      laser `i`. */
  method StrikeLaser(collide: Collide, lasers: seq<Collider>, i: nat, enemies: seq<Collider>,
                     seen: set<Entity>, count: nat)
    returns (seen': set<Entity>, count': nat, cmds: seq<Command>)
    requires i < |lasers| && |Resolve(collide, lasers[i..], enemies, seen)| <= count
    ensures cmds + KillCommands(Resolve(collide, lasers[i + 1..], enemies, seen'))
         == KillCommands(Resolve(collide, lasers[i..], enemies, seen))
    ensures count' + |Resolve(collide, lasers[i..], enemies, seen)|
         == count + |Resolve(collide, lasers[i + 1..], enemies, seen')|
    ensures |Resolve(collide, lasers[i + 1..], enemies, seen')| <= count'
  {
    ResolveAdvance(collide, lasers, enemies, seen, i);
    if lasers[i].entity in seen {
      return seen, count, [];
    }
    seen', count', cmds := StrikeFirst(collide, lasers[i], enemies, seen, count);
  }

  /** `player_laser_hit_enemy_system`. The `EnemyCount` resource comes in as
      `enemyCount` and its new value is returned; the count must cover the
      live enemies, as the `u32` cannot go below zero. */
  method PlayerLaserHitEnemy(collide: Collide, lasers: seq<Collider>, enemies: seq<Collider>, enemyCount: nat)
    returns (count: nat, cmds: seq<Command>)
    requires |Entities(enemies)| <= enemyCount
    ensures count == enemyCount - |Resolve(collide, lasers, enemies, {})|
    ensures cmds == KillCommands(Resolve(collide, lasers, enemies, {}))
  {
    ghost var all := Resolve(collide, lasers, enemies, {});
    var seen: set<Entity> := {};
    count := enemyCount;
    cmds := [];
    ResolveBound(collide, lasers, enemies, {});
    for i := 0 to |lasers|
      invariant cmds + KillCommands(Resolve(collide, lasers[i..], enemies, seen)) == KillCommands(all)
      invariant count + |all| == enemyCount + |Resolve(collide, lasers[i..], enemies, seen)|
      invariant |Resolve(collide, lasers[i..], enemies, seen)| <= count
    {
      var more: seq<Command>;
      seen, count, more := StrikeLaser(collide, lasers, i, enemies, seen, count);
      cmds := cmds + more;
    }
    assert lasers[|lasers|..] == [];
  }

  // ---------------------------------------------------------------------
  // Enemy lasers against the player
  // ---------------------------------------------------------------------

  /** The index of the first laser that hits the player, if any. */
  function FirstHit(collide: Collide, lasers: seq<Collider>, player: Collider): (r: Option<nat>)
    ensures r.Some? ==> r.value < |lasers| && Hits(collide, lasers[r.value], player)
    ensures r.Some? ==> forall j | 0 <= j < r.value :: !Hits(collide, lasers[j], player)
    ensures r.None? ==> forall j | 0 <= j < |lasers| :: !Hits(collide, lasers[j], player)
    decreases |lasers|
  {
    if lasers == [] then None
    else if Hits(collide, lasers[0], player) then Some(0)
    else match FirstHit(collide, lasers[1..], player)
      case None => None
      case Some(k) => Some(k + 1)
  }

  /** `enemy_laser_hit_player_system`, at time `now`. It acts only when the
      player query holds exactly one player; on the first laser that hits,
      the player and that laser are despawned, an explosion is queued at the
      player and the player state records the shot. Later lasers are not
      examined. */
  method EnemyLaserHitPlayer(state: PlayerState, now: real, collide: Collide, players: seq<Collider>, lasers: seq<Collider>)
    returns (cmds: seq<Command>)
    modifies state
    ensures |players| == 1 && FirstHit(collide, lasers, players[0]).Some? ==>
      && cmds == [Despawn(players[0].entity),
                  Despawn(lasers[FirstHit(collide, lasers, players[0]).value].entity),
                  SpawnExplosionToSpawn(players[0].translation)]
      && !state.on && state.lastShot == now
    ensures !(|players| == 1 && FirstHit(collide, lasers, players[0]).Some?) ==>
      cmds == [] && state.on == old(state.on) && state.lastShot == old(state.lastShot)
  {
    cmds := [];
    if |players| == 1 {
      var player := players[0];
      for i := 0 to |lasers|
        invariant forall j | 0 <= j < i :: !Hits(collide, lasers[j], player)
        invariant cmds == [] && state.on == old(state.on) && state.lastShot == old(state.lastShot)
      {
        var laser := lasers[i];
        if Hits(collide, laser, player) {
          cmds := cmds + [Despawn(player.entity)];
          state.Shot(now);
          cmds := cmds + [Despawn(laser.entity)];
          cmds := cmds + [SpawnExplosionToSpawn(player.translation)];
          assert FirstHit(collide, lasers, player) == Some(i);
          return;
        }
      }
    }
  }
}
