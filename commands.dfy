/** The deferred `Commands` the systems emit, the component bundles they
    spawn, and the component filters of the queries in src/main.rs. A system
    is modelled as a method or function from the query results it reads to
    the list of commands it issues, in issue order. */
module Commands {
  import opened Common
  import opened Formations

  /** The marker components. */
  datatype Tag = Player | Enemy | Laser | FromPlayer | FromEnemy

  /** The `GameTextures` handles a sprite can use. */
  datatype Texture = PlayerTexture | PlayerLaserTexture | EnemyTexture | EnemyLaserTexture

  /** A `SpriteBundle` together with the components inserted after it.
      `size` is the `SpriteSize` component. */
  datatype SpriteBundle = SpriteBundle(
    texture: Texture,
    translation: Vec3,
    scale: Vec3,
    tags: set<Tag>,
    size: Option<Vec2>,
    movable: Option<Movable>,
    velocity: Option<Velocity>,
    formation: Option<Formation>)

  datatype Command =
    | Despawn(entity: Entity)
    | Spawn(bundle: SpriteBundle)
      /** An entity carrying only `ExplosionToSpawn(position)`. */
    | SpawnExplosionToSpawn(position: Vec3)
      /** A sprite-sheet entity with `Explosion`, a fresh `ExplosionTimer`
          and atlas frame `frame`. */
    | SpawnExplosion(translation: Vec3, frame: nat)

  /** `Query<(Entity, &Transform, &SpriteSize), (With<Laser>, With<FromPlayer>)>` */
  predicate InPlayerLaserQuery(b: SpriteBundle) {
    Laser in b.tags && FromPlayer in b.tags && b.size.Some?
  }

  /** `Query<(Entity, &Transform, &SpriteSize), With<Enemy>>` */
  predicate InEnemyQuery(b: SpriteBundle) {
    Enemy in b.tags && b.size.Some?
  }

  /** `Query<(Entity, &Transform, &SpriteSize), (With<Laser>, With<FromEnemy>)>` */
  predicate InEnemyLaserQuery(b: SpriteBundle) {
    Laser in b.tags && FromEnemy in b.tags && b.size.Some?
  }

  /** `Query<(Entity, &Transform, &SpriteSize), With<Player>>` */
  predicate InPlayerQuery(b: SpriteBundle) {
    Player in b.tags && b.size.Some?
  }

  /** `Query<(Entity, &Velocity, &mut Transform, &Movable)>` */
  predicate InMovableQuery(b: SpriteBundle) {
    b.velocity.Some? && b.movable.Some?
  }

  /** The entities a command list despawns, in order. */
  function Despawned(cmds: seq<Command>): seq<Entity>
    decreases |cmds|
  {
    if cmds == [] then []
    else (if cmds[0].Despawn? then [cmds[0].entity] else []) + Despawned(cmds[1..])
  }

  /** The positions of the `ExplosionToSpawn` markers a command list spawns. */
  function ExplosionMarkers(cmds: seq<Command>): seq<Vec3>
    decreases |cmds|
  {
    if cmds == [] then []
    else (if cmds[0].SpawnExplosionToSpawn? then [cmds[0].position] else []) + ExplosionMarkers(cmds[1..])
  }

  lemma {:induction false} DespawnedAppend(a: seq<Command>, b: seq<Command>)
    ensures Despawned(a + b) == Despawned(a) + Despawned(b)
    decreases |a|
  {
    if a != [] {
      assert (a + b)[0] == a[0] && (a + b)[1..] == a[1..] + b;
      DespawnedAppend(a[1..], b);
      var head := if a[0].Despawn? then [a[0].entity] else [];
      assert Despawned(a + b) == head + Despawned(a[1..] + b);
      assert Despawned(a) == head + Despawned(a[1..]);
    } else {
      assert a + b == b;
    }
  }

  lemma {:induction false} ExplosionMarkersAppend(a: seq<Command>, b: seq<Command>)
    ensures ExplosionMarkers(a + b) == ExplosionMarkers(a) + ExplosionMarkers(b)
    decreases |a|
  {
    if a != [] {
      assert (a + b)[0] == a[0] && (a + b)[1..] == a[1..] + b;
      ExplosionMarkersAppend(a[1..], b);
      var head := if a[0].SpawnExplosionToSpawn? then [a[0].position] else [];
      assert ExplosionMarkers(a + b) == head + ExplosionMarkers(a[1..] + b);
      assert ExplosionMarkers(a) == head + ExplosionMarkers(a[1..]);
    } else {
      assert a + b == b;
    }
  }

  predicate NoDuplicates<T(==)>(s: seq<T>) {
    forall i, j | 0 <= i < j < |s| :: s[i] != s[j]
  }
}
