/** `movable_system` of src/main.rs: every entity with a `Velocity` and a
    `Movable` advances by its velocity times `TIME_STEP * BASE_SPEED`, and an
    auto-despawn entity that ends up beyond the viewport plus `MARGIN` is
    despawned. */
module Movables {
  import opened Common
  import opened Commands

  /** One row of the query `(Entity, &Velocity, &mut Transform, &Movable)`. */
  datatype Body = Body(entity: Entity, velocity: Velocity, translation: Vec3, movable: Movable)

  /** The translation after one tick. */
  function Integrate(b: Body): (r: Body)
    ensures r == b.(translation := r.translation)
    ensures r.translation.x == b.translation.x + b.velocity.x * 25.0 / 3.0
    ensures r.translation.y == b.translation.y + b.velocity.y * 25.0 / 3.0
    ensures r.translation.z == b.translation.z
  {
    var t := b.translation;
    b.(translation := Vec3(t.x + b.velocity.x * TIME_STEP * BASE_SPEED,
                           t.y + b.velocity.y * TIME_STEP * BASE_SPEED,
                           t.z))
  }

  /** Strictly outside `[-w/2-MARGIN, w/2+MARGIN] x [-h/2-MARGIN, h/2+MARGIN]`. */
  predicate OffScreen(win: WinSize, t: Vec3)
    ensures OffScreen(win, t) ==> !(-win.w / 2.0 <= t.x <= win.w / 2.0 && -win.h / 2.0 <= t.y <= win.h / 2.0)
  {
    || t.y > win.h / 2.0 + MARGIN
    || t.y < -win.h / 2.0 - MARGIN
    || t.x > win.w / 2.0 + MARGIN
    || t.x < -win.w / 2.0 - MARGIN
  }

  /** Integrating twice, the second time with the velocity reversed, puts
      the body back where it was: the step depends on the velocity alone. */
  lemma IntegrateReverses(b: Body)
    ensures var m := Integrate(b);
      Integrate(m.(velocity := Velocity(-b.velocity.x, -b.velocity.y))).translation == b.translation
  {
  }

  /** A body inside the viewport whose velocity components lie in [-1, 1]
      is still within the margin after one tick. */
  lemma OnScreenStaysInMargin(win: WinSize, b: Body)
    requires -win.w / 2.0 <= b.translation.x <= win.w / 2.0
    requires -win.h / 2.0 <= b.translation.y <= win.h / 2.0
    requires -1.0 <= b.velocity.x <= 1.0 && -1.0 <= b.velocity.y <= 1.0
    ensures !OffScreen(win, Integrate(b).translation)
  {
  }

  /** The despawn commands for the bodies `bs` after integration, in query
      order. */
  function OffScreenDespawns(win: WinSize, bs: seq<Body>): (r: seq<Command>)
    decreases |bs|
  {
    if bs == [] then []
    else
      var b := bs[|bs| - 1];
      OffScreenDespawns(win, bs[..|bs| - 1])
        + (if Leaves(win, b) then [Despawn(b.entity)] else [])
  }

  /** The body is despawned by the movable system once integrated. */
  predicate Leaves(win: WinSize, b: Body) {
    b.movable.autoDespawn && OffScreen(win, b.translation)
  }

  /** Some body of `bs` with entity `e` leaves. */
  predicate SomeLeaves(win: WinSize, bs: seq<Body>, e: Entity) {
    exists i | 0 <= i < |bs| :: bs[i].entity == e && Leaves(win, bs[i])
  }

  /** The movable system despawns exactly the auto-despawn bodies that are
      off screen, and nothing else. */
  lemma {:induction false} OffScreenDespawnsExactly(win: WinSize, bs: seq<Body>)
    ensures forall c | c in OffScreenDespawns(win, bs) :: c.Despawn? && SomeLeaves(win, bs, c.entity)
    ensures forall i | 0 <= i < |bs| && Leaves(win, bs[i]) :: Despawn(bs[i].entity) in OffScreenDespawns(win, bs)
    decreases |bs|
  {
    if bs != [] {
      var front := bs[..|bs| - 1];
      OffScreenDespawnsExactly(win, front);
      forall c | c in OffScreenDespawns(win, bs)
        ensures c.Despawn? && SomeLeaves(win, bs, c.entity)
      {
        if c in OffScreenDespawns(win, front) {
          var i :| 0 <= i < |front| && front[i].entity == c.entity && Leaves(win, front[i]);
          assert bs[i] == front[i];
        } else {
          assert bs[|bs| - 1].entity == c.entity;
        }
      }
      forall i | 0 <= i < |bs| && Leaves(win, bs[i])
        ensures Despawn(bs[i].entity) in OffScreenDespawns(win, bs)
      {
        if i < |bs| - 1 {
          assert front[i] == bs[i];
        }
      }
    }
  }

  /** A body whose `auto_despawn` is false is never despawned, given that
      the query lists each entity once. */
  lemma KeptWithoutAutoDespawn(win: WinSize, bs: seq<Body>, i: nat)
    requires forall j, k | 0 <= j < k < |bs| :: bs[j].entity != bs[k].entity
    requires i < |bs| && !bs[i].movable.autoDespawn
    ensures Despawn(bs[i].entity) !in OffScreenDespawns(win, bs)
  {
    OffScreenDespawnsExactly(win, bs);
  }

  /** A laser `MARGIN - 1` above the top edge moving up is despawned after
      one tick. */
  lemma LaserLeavesTopMargin(win: WinSize, e: Entity)
    ensures var b := Body(e, Velocity(0.0, 1.0), Vec3(0.0, win.h / 2.0 + 199.0, 0.0), Movable(true));
      OffScreenDespawns(win, [Integrate(b)]) == [Despawn(e)]
  {
    var b := Body(e, Velocity(0.0, 1.0), Vec3(0.0, win.h / 2.0 + 199.0, 0.0), Movable(true));
    assert [Integrate(b)][..0] == [];
  }

  /** `movable_system`: integrate every body in place and despawn the
      auto-despawn ones that left the margin. */
  method MovableSystem(win: WinSize, bodies: array<Body>) returns (cmds: seq<Command>)
    modifies bodies
    ensures forall i | 0 <= i < bodies.Length :: bodies[i] == Integrate(old(bodies[i]))
    ensures cmds == OffScreenDespawns(win, bodies[..])
  {
    cmds := [];
    var i := 0;
    while i < bodies.Length
      invariant 0 <= i <= bodies.Length
      invariant forall k | 0 <= k < i :: bodies[k] == Integrate(old(bodies[k]))
      invariant forall k | i <= k < bodies.Length :: bodies[k] == old(bodies[k])
      invariant cmds == OffScreenDespawns(win, bodies[..i])
    {
      var b := Integrate(bodies[i]);
      bodies[i] := b;
      if Leaves(win, b) {
        cmds := cmds + [Despawn(b.entity)];
      }
      assert bodies[..i + 1][..i] == bodies[..i];
      i := i + 1;
    }
    assert bodies[..bodies.Length] == bodies[..];
  }
}
