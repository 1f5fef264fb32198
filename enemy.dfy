/** The enemy systems of src/enemy/mod.rs: spawning an enemy on a formation
    while fewer than `ENEMY_MAX` are alive, firing one laser per enemy, and
    flying every enemy toward the point its formation's angle designates on
    the ellipse around its pivot. `cos`, `sin` and `sqrt` are engine
    arithmetic: each movement step is handed their results in a `Trig`
    record. */
module EnemySystems {
  import opened Common
  import opened Formations
  import opened Commands

  /** The enemy spawned on formation `f`: at the formation's start point,
      on layer 10, at half the sprite scale. */
  function EnemyBundle(f: Formation): (b: SpriteBundle)
    ensures b.translation == Vec3(f.start.x, f.start.y, 10.0)
    ensures b.scale == Vec3(SPRITE_SCALE / 2.0, SPRITE_SCALE / 2.0, 1.0)
    ensures b.formation == Some(f) && b.size == Some(ENEMY_SIZE)
    ensures InEnemyQuery(b) && !InPlayerQuery(b) && !InPlayerLaserQuery(b) && !InEnemyLaserQuery(b)
    ensures !InMovableQuery(b)
  {
    SpriteBundle(EnemyTexture, Vec3(f.start.x, f.start.y, 10.0),
                 Vec3(SPRITE_SCALE * 1.0 / 2.0, SPRITE_SCALE * 1.0 / 2.0, 1.0),
                 {Enemy}, Some(ENEMY_SIZE), None, None, Some(f))
  }

  /** `enemy_spawn_system`: below `ENEMY_MAX`, take the next formation from
      the maker, spawn an enemy on it and count it; otherwise do nothing. */
  method EnemySpawn(maker: FormationMaker, enemyCount: nat, win: WinSize, d: Draws)
    returns (count: nat, cmds: seq<Command>)
    requires enemyCount < ENEMY_MAX ==> CanMake(maker.State(), win, d)
    modifies maker
    ensures enemyCount < ENEMY_MAX ==>
      var (s, f) := Next(old(maker.State()), win, d);
      count == enemyCount + 1 && maker.State() == s && cmds == [Spawn(EnemyBundle(f))]
    ensures enemyCount >= ENEMY_MAX ==>
      count == enemyCount && cmds == [] && maker.State() == old(maker.State())
    ensures enemyCount <= ENEMY_MAX ==> count <= ENEMY_MAX
  {
    if enemyCount < ENEMY_MAX {
      var f := maker.Make(win, d);
      cmds := [Spawn(EnemyBundle(f))];
      count := enemyCount + 1;
    } else {
      cmds := [];
      count := enemyCount;
    }
  }

  /** The enemy laser fired from translation `t`: 15 units below it, on
      layer 0, moving down and despawned once off screen. */
  function EnemyLaserBundle(t: Vec3): (b: SpriteBundle)
    ensures b.translation == Vec3(t.x, t.y - 15.0, 0.0)
    ensures b.scale == Vec3(SPRITE_SCALE, SPRITE_SCALE, 1.0) && b.size == Some(ENEMY_LASER_SIZE)
    ensures b.velocity == Some(Velocity(0.0, -1.0)) && b.movable == Some(Movable(true))
    ensures InEnemyLaserQuery(b) && InMovableQuery(b) && !InPlayerLaserQuery(b) && !InEnemyQuery(b)
  {
    SpriteBundle(EnemyLaserTexture, Vec3(t.x, t.y - 15.0, 0.0), Vec3(SPRITE_SCALE, SPRITE_SCALE, 1.0),
                 {Laser, FromEnemy}, Some(ENEMY_LASER_SIZE), Some(Movable(true)),
                 Some(Velocity(0.0, -1.0)), None)
  }

  /** `enemy_fire_system` over the translations of the enemies: one laser per
      enemy, in query order. */
  method EnemyFire(enemies: seq<Vec3>) returns (cmds: seq<Command>)
    ensures |cmds| == |enemies|
    ensures forall i | 0 <= i < |enemies| :: cmds[i] == Spawn(EnemyLaserBundle(enemies[i]))
  {
    cmds := [];
    for i := 0 to |enemies|
      invariant |cmds| == i
      invariant forall k | 0 <= k < i :: cmds[k] == Spawn(EnemyLaserBundle(enemies[k]))
    {
      cmds := cmds + [Spawn(EnemyLaserBundle(enemies[i]))];
    }
  }

  /** One row of the movement query `(&mut Transform, &mut Formation)`. */
  datatype EnemyBody = EnemyBody(translation: Vec3, formation: Formation)

  /** The engine's results for one movement step: `cos` and `sin` of the
      advanced angle and `sqrt` of the squared distance to the target. */
  datatype Trig = Trig(cos: real, sin: real, distance: real)

  /** The turning direction: counter-clockwise for enemies entering from the
      left, clockwise for those entering from the right. */
  function Direction(f: Formation): (dir: real)
    ensures dir == 1.0 <==> f.start.x < 0.0
    ensures dir == -1.0 <==> f.start.x >= 0.0
  {
    if f.start.x < 0.0 then 1.0 else -1.0
  }

  /** The angle one tick further along the ellipse: it grows for enemies
      that entered from the left and shrinks for those from the right, and
      a formation at rest keeps its angle. */
  function AdvancedAngle(f: Formation): (a: real)
    requires WellFormed(f)
    ensures f.start.x < 0.0 ==> a >= f.angle
    ensures f.start.x >= 0.0 ==> a <= f.angle
    ensures f.speed == 0.0 ==> a == f.angle
  {
    f.angle + Direction(f) * f.speed * TIME_STEP / (Min(f.radius.x, f.radius.y) * PI / 2.0)
  }

  /** The point on the ellipse at the advanced angle. */
  function Target(f: Formation, trig: Trig): Vec2 {
    Vec2(f.radius.x * trig.cos + f.pivot.x, f.radius.y * trig.sin + f.pivot.y)
  }

  /** The furthest an enemy moves in one tick. */
  function MaxDistance(f: Formation): real {
    TIME_STEP * f.speed
  }

  function Sq(x: real): real {
    x * x
  }

  /** `dd` is the Euclidean distance from `p` to `t`. */
  predicate DistanceFits(p: Vec2, t: Vec2, dd: real) {
    dd >= 0.0 && Sq(dd) == Sq(p.x - t.x) + Sq(p.y - t.y)
  }

  /** The enemy's position in the plane of the window. */
  function Position(e: EnemyBody): Vec2 {
    Vec2(e.translation.x, e.translation.y)
  }

  /** `trig.distance` is the Euclidean distance from the enemy to the target. */
  predicate TrigFits(e: EnemyBody, trig: Trig) {
    DistanceFits(Position(e), Target(e.formation, trig), trig.distance)
  }

  /** The fraction of the remaining distance covered this tick, 0 when the
      enemy already stands on the target. */
  function Ratio(maxDistance: real, distance: real): (r: real)
    ensures distance == 0.0 ==> r == 0.0
    ensures distance != 0.0 ==> r * distance == maxDistance
    ensures maxDistance >= 0.0 && distance >= 0.0 ==> r >= 0.0
  {
    if distance != 0.0 then maxDistance / distance else 0.0
  }

  /** The offset `d` scaled by `ratio`. */
  function Scale(d: real, ratio: real): real {
    d * ratio
  }

  /** One axis of the step: move back along the offset by `ratio` and clamp
      at the target coordinate. */
  function Approach(org: real, dst: real, ratio: real): (x: real)
    ensures org - dst > 0.0 ==> x >= dst
    ensures org - dst <= 0.0 ==> x <= dst
  {
    var d := org - dst;
    var x := org - Scale(d, ratio);
    if d > 0.0 then Max(x, dst) else Min(x, dst)
  }

  /** Multiplying by a non-negative factor keeps an order. */
  lemma MulMono(a: real, b: real, c: real)
    requires a >= 0.0 && b <= c
    ensures a * b <= a * c
  {
    assert a * c - a * b == a * (c - b);
  }

  lemma MulPos(a: real, b: real)
    requires a > 0.0 && b > 0.0
    ensures a * b > 0.0
  {
  }

  /** Scaling both offsets by `k` scales the squared length by `k * k`. */
  lemma ScaledSquares(k: real, ox: real, oy: real)
    ensures (k * ox) * (k * ox) + (k * oy) * (k * oy) == k * k * (ox * ox + oy * oy)
  {
  }

  /** Scaling a positive offset `d` by a non-negative ratio. */
  lemma ScalePositive(d: real, r: real)
    requires d > 0.0 && r >= 0.0
    ensures 0.0 <= Scale(d, r)
    ensures r <= 1.0 ==> Scale(d, r) <= d
    ensures r >= 1.0 ==> Scale(d, r) >= d
  {
    assert 0.0 <= d * r;
    if r <= 1.0 {
      assert d * r <= d * 1.0;
    } else {
      assert d * r >= d * 1.0;
    }
  }

  /** Scaling a non-positive offset `d` by a non-negative ratio. */
  lemma ScaleNonPositive(d: real, r: real)
    requires d <= 0.0 && r >= 0.0
    ensures Scale(d, r) <= 0.0
    ensures r <= 1.0 ==> Scale(d, r) >= d
    ensures r >= 1.0 ==> Scale(d, r) <= d
  {
    assert d * r <= 0.0;
    if r <= 1.0 {
      assert d * r >= d * 1.0;
    } else {
      assert d * r <= d * 1.0;
    }
  }

  /** Moving along one axis with a ratio of at most 1 covers exactly the
      fraction `ratio` of the offset: the clamp does not bite. */
  lemma ApproachPartial(org: real, dst: real, ratio: real)
    requires 0.0 <= ratio <= 1.0
    ensures Approach(org, dst, ratio) == org - (org - dst) * ratio
  {
    if org - dst > 0.0 {
      ScalePositive(org - dst, ratio);
    } else {
      ScaleNonPositive(org - dst, ratio);
    }
  }

  /** Moving along one axis with a ratio of at least 1 stops exactly on the
      target coordinate: the clamp is what stops an enemy from overshooting. */
  lemma ApproachFull(org: real, dst: real, ratio: real)
    requires ratio >= 1.0
    ensures Approach(org, dst, ratio) == dst
  {
    if org - dst > 0.0 {
      ScalePositive(org - dst, ratio);
    } else {
      ScaleNonPositive(org - dst, ratio);
    }
  }

  /** With a non-negative ratio the new coordinate lies between the old one
      and the target's: the move never overshoots. */
  lemma ApproachBetween(org: real, dst: real, ratio: real)
    requires ratio >= 0.0
    ensures Min(org, dst) <= Approach(org, dst, ratio) <= Max(org, dst)
  {
    if org - dst > 0.0 {
      ScalePositive(org - dst, ratio);
    } else {
      ScaleNonPositive(org - dst, ratio);
    }
  }

  /** The move from `p` toward `t`, which lies at distance `dd`, by at most
      `md`: back along the offset by `md / dd` of it, clamped per axis at
      the target. */
  function Move(p: Vec2, t: Vec2, md: real, dd: real): Vec2 {
    var ratio := Ratio(md, dd);
    Vec2(Approach(p.x, t.x, ratio), Approach(p.y, t.y, ratio))
  }

  /** The enemy's new position: the move toward the target by at most
      `MaxDistance`, on the same layer. */
  function StepTranslation(e: EnemyBody, trig: Trig): Vec3 {
    var q := Move(Position(e), Target(e.formation, trig), MaxDistance(e.formation), trig.distance);
    Vec3(q.x, q.y, e.translation.z)
  }

  /** One enemy's step of `enemy_movement_system`: move, and commit the
      advanced angle only once the enemy is close to the target. */
  function Step(e: EnemyBody, trig: Trig): (r: EnemyBody)
    requires WellFormed(e.formation)
    ensures r.translation == StepTranslation(e, trig)
    ensures r.formation == e.formation.(angle := r.formation.angle)
    ensures r.formation.angle ==
      if trig.distance < MaxDistance(e.formation) * e.formation.speed / 20.0
      then AdvancedAngle(e.formation) else e.formation.angle
  {
    var f := e.formation;
    var angle := if trig.distance < MaxDistance(f) * f.speed / 20.0 then AdvancedAngle(f) else f.angle;
    EnemyBody(StepTranslation(e, trig), f.(angle := angle))
  }

  /** The fraction of the remaining distance `dd` covered by a move of at
      most `md`. */
  function Fraction(md: real, dd: real): real {
    Min(Ratio(md, dd), 1.0)
  }

  /** A ratio below 1 scales a positive distance down. */
  lemma ScaledDown(ratio: real, dd: real)
    requires dd > 0.0 && ratio < 1.0
    ensures ratio * dd < dd
  {
    MulPos(dd, 1.0 - ratio);
    assert dd * (1.0 - ratio) == dd - ratio * dd;
  }

  /** The covered fraction lies in [0, 1], covers at most `md`, is 0 on the
      target and 1 within reach of it. */
  lemma CoveredFraction(md: real, dd: real)
    requires md >= 0.0 && dd >= 0.0
    ensures 0.0 <= Fraction(md, dd) <= 1.0
    ensures 0.0 <= Fraction(md, dd) * dd <= md
    ensures dd == 0.0 ==> Fraction(md, dd) == 0.0
    ensures 0.0 < dd <= md ==> Fraction(md, dd) == 1.0
  {
    var ratio := Ratio(md, dd);
    if dd == 0.0 {
      assert Fraction(md, dd) == 0.0;
    } else if ratio < 1.0 {
      assert Fraction(md, dd) == ratio;
      ScaledDown(ratio, dd);
      assert md < dd;
    } else {
      assert Fraction(md, dd) == 1.0;
      MulMono(dd, 1.0, ratio);
    }
  }

  /** One axis of a move, in terms of the covered fraction. */
  lemma AxisStep(org: real, dst: real, md: real, dd: real)
    requires md >= 0.0 && dd >= 0.0
    ensures Approach(org, dst, Ratio(md, dd)) == org - (org - dst) * Fraction(md, dd)
  {
    var ratio := Ratio(md, dd);
    if ratio <= 1.0 {
      ApproachPartial(org, dst, ratio);
      assert Fraction(md, dd) == ratio;
    } else {
      ApproachFull(org, dst, ratio);
      assert Fraction(md, dd) == 1.0;
      assert (org - dst) * 1.0 == org - dst;
    }
  }

  /** Both axes of a move shrink their offset by the covered fraction. */
  lemma MoveAlongLine(p: Vec2, t: Vec2, md: real, dd: real)
    requires md >= 0.0 && dd >= 0.0
    ensures var q := Move(p, t, md, dd); var m := Fraction(md, dd);
      q.x == p.x - (p.x - t.x) * m && q.y == p.y - (p.y - t.y) * m
  {
    AxisStep(p.x, t.x, md, dd);
    AxisStep(p.y, t.y, md, dd);
  }

  /** A move goes along the straight line to the target: both offsets shrink
      by the same fraction `m` in [0, 1], and `m` times the distance is at
      most `md`. */
  lemma MoveTowardTarget(p: Vec2, t: Vec2, md: real, dd: real)
    requires md >= 0.0 && dd >= 0.0
    ensures var q := Move(p, t, md, dd); var m := Fraction(md, dd);
      && 0.0 <= m <= 1.0
      && 0.0 <= m * dd <= md
      && (0.0 < dd <= md ==> m == 1.0)
      && q.x == p.x - (p.x - t.x) * m
      && q.y == p.y - (p.y - t.y) * m
  {
    CoveredFraction(md, dd);
    MoveAlongLine(p, t, md, dd);
  }

  /** The covered fraction of `dd` is `min(dd, md)`; what is left is
      `max(dd - md, 0)`. */
  lemma CoveredDistance(md: real, dd: real)
    requires md >= 0.0 && dd >= 0.0
    ensures Fraction(md, dd) * dd == Min(dd, md)
    ensures (1.0 - Fraction(md, dd)) * dd == Max(dd - md, 0.0)
  {
    var ratio := Ratio(md, dd);
    var m := Fraction(md, dd);
    assert (1.0 - m) * dd == dd - m * dd;
    if dd == 0.0 {
      assert m == 0.0;
    } else if ratio < 1.0 {
      assert m == ratio;
      ScaledDown(ratio, dd);
      assert m * dd == md && md < dd;
    } else {
      assert m == 1.0;
      MulMono(dd, 1.0, ratio);
      assert dd <= md;
    }
  }

  /** Moving from `p` by the fraction `m` of the way to `t`, at distance
      `dd`, leaves `(1 - m) * dd` to go and covers `m * dd`. */
  lemma ScaledOffsets(px: real, py: real, tx: real, ty: real, qx: real, qy: real, m: real, dd: real)
    requires Sq(dd) == Sq(px - tx) + Sq(py - ty)
    requires qx == px - (px - tx) * m && qy == py - (py - ty) * m
    ensures Sq(qx - tx) + Sq(qy - ty) == Sq((1.0 - m) * dd)
    ensures Sq(qx - px) + Sq(qy - py) == Sq(m * dd)
  {
    var k := 1.0 - m;
    var ox := px - tx;
    var oy := py - ty;
    assert qx - tx == k * ox && qy - ty == k * oy;
    ScaledSquares(k, ox, oy);
    assert k * k * (dd * dd) == (k * dd) * (k * dd);
    assert qx - px == -(m * ox) && qy - py == -(m * oy);
    assert Sq(qx - px) == Sq(m * ox) && Sq(qy - py) == Sq(m * oy);
    ScaledSquares(m, ox, oy);
    assert m * m * (dd * dd) == (m * dd) * (m * dd);
  }

  /** After a move along the line, `max(dd - md, 0)` is left to go and
      `min(dd, md)` was covered. */
  lemma LineDistances(px: real, py: real, tx: real, ty: real, qx: real, qy: real, md: real, dd: real)
    requires md >= 0.0 && dd >= 0.0 && Sq(dd) == Sq(px - tx) + Sq(py - ty)
    requires qx == px - (px - tx) * Fraction(md, dd) && qy == py - (py - ty) * Fraction(md, dd)
    ensures Sq(qx - tx) + Sq(qy - ty) == Sq(Max(dd - md, 0.0))
    ensures Sq(qx - px) + Sq(qy - py) == Sq(Min(dd, md))
  {
    var m := Fraction(md, dd);
    ScaledOffsets(px, py, tx, ty, qx, qy, m, dd);
    CoveredDistance(md, dd);
    assert Sq((1.0 - m) * dd) == Sq(Max(dd - md, 0.0));
    assert Sq(m * dd) == Sq(Min(dd, md));
  }

  /** After a move the enemy is exactly `max(dd - md, 0)` from the target. */
  lemma MoveRemaining(p: Vec2, t: Vec2, md: real, dd: real)
    requires md >= 0.0 && DistanceFits(p, t, dd)
    ensures var q := Move(p, t, md, dd);
      Sq(q.x - t.x) + Sq(q.y - t.y) == Sq(Max(dd - md, 0.0))
  {
    var q := Move(p, t, md, dd);
    MoveAlongLine(p, t, md, dd);
    LineDistances(p.x, p.y, t.x, t.y, q.x, q.y, md, dd);
  }

  /** A move has length exactly `min(dd, md)`. */
  lemma MoveLength(p: Vec2, t: Vec2, md: real, dd: real)
    requires md >= 0.0 && DistanceFits(p, t, dd)
    ensures var q := Move(p, t, md, dd);
      Sq(q.x - p.x) + Sq(q.y - p.y) == Sq(Min(dd, md))
  {
    var q := Move(p, t, md, dd);
    MoveAlongLine(p, t, md, dd);
    LineDistances(p.x, p.y, t.x, t.y, q.x, q.y, md, dd);
  }

  /** Squaring keeps the order of non-negative reals. */
  lemma SqMono(a: real, b: real)
    requires 0.0 <= a <= b
    ensures Sq(a) <= Sq(b)
  {
    MulMono(a, a, b);
    MulMono(b, a, b);
  }

  /** A move never takes an enemy further from its target. */
  lemma MoveNeverRecedes(p: Vec2, t: Vec2, md: real, dd: real)
    requires md >= 0.0 && DistanceFits(p, t, dd)
    ensures var q := Move(p, t, md, dd);
      Sq(q.x - t.x) + Sq(q.y - t.y) <= Sq(dd)
  {
    MoveRemaining(p, t, md, dd);
    SqMono(Max(dd - md, 0.0), dd);
  }

  /** No move is longer than `md`. */
  lemma MoveBounded(p: Vec2, t: Vec2, md: real, dd: real)
    requires md >= 0.0 && DistanceFits(p, t, dd)
    ensures var q := Move(p, t, md, dd);
      Sq(q.x - p.x) + Sq(q.y - p.y) <= Sq(md)
  {
    MoveLength(p, t, md, dd);
    SqMono(Min(dd, md), md);
  }

  /** A target within reach, but not at distance 0, is reached exactly. */
  lemma MoveLandsOnTarget(p: Vec2, t: Vec2, md: real, dd: real)
    requires 0.0 < dd <= md
    ensures Move(p, t, md, dd) == t
  {
    MoveTowardTarget(p, t, md, dd);
  }

  /** At distance 0 the enemy does not move. */
  lemma MoveHoldsOnTarget(p: Vec2, t: Vec2, md: real, dd: real)
    requires dd == 0.0
    ensures Move(p, t, md, dd) == p
  {
    ApproachPartial(p.x, t.x, 0.0);
    ApproachPartial(p.y, t.y, 0.0);
  }

  /** An enemy's step, when `trig.distance` is its true distance to the
      target: it ends `max(distance - MaxDistance, 0)` from the target,
      after a move of length `min(distance, MaxDistance)`. */
  lemma StepApproachesTarget(e: EnemyBody, trig: Trig)
    requires WellFormed(e.formation) && TrigFits(e, trig)
    ensures var r := Step(e, trig); var t := Target(e.formation, trig);
      var md := MaxDistance(e.formation);
      && Sq(r.translation.x - t.x) + Sq(r.translation.y - t.y) == Sq(Max(trig.distance - md, 0.0))
      && Sq(r.translation.x - e.translation.x) + Sq(r.translation.y - e.translation.y)
         == Sq(Min(trig.distance, md))
  {
    var p, t, md := Position(e), Target(e.formation, trig), MaxDistance(e.formation);
    MoveRemaining(p, t, md, trig.distance);
    MoveLength(p, t, md, trig.distance);
  }

  /** `enemy_movement_system`: step every enemy in place. */
  method EnemyMovement(enemies: array<EnemyBody>, trig: seq<Trig>)
    requires |trig| == enemies.Length
    requires forall i | 0 <= i < enemies.Length :: WellFormed(enemies[i].formation)
    modifies enemies
    ensures forall i | 0 <= i < enemies.Length :: enemies[i] == Step(old(enemies[i]), trig[i])
  {
    for i := 0 to enemies.Length
      invariant forall k | 0 <= k < i :: enemies[k] == Step(old(enemies[k]), trig[k])
      invariant forall k | i <= k < enemies.Length :: enemies[k] == old(enemies[k])
    {
      enemies[i] := Step(enemies[i], trig[i]);
    }
  }

  /** Stepping keeps a formation well formed, so the system can run again on
      its own output. */
  lemma StepKeepsWellFormed(e: EnemyBody, trig: Trig)
    requires WellFormed(e.formation)
    ensures WellFormed(Step(e, trig).formation)
  {
  }
}
