/** The player systems of src/player.rs: spawning the player ship at the
    bottom of the window, steering it with the arrow keys and firing a pair
    of lasers on Space. The keyboard is engine state: each tick supplies
    whether Left and Right are held and whether Space was just pressed. */
module PlayerSystems {
  import opened Common
  import opened Commands

  /** The player ship: centred horizontally, 50 units above the bottom edge
      plus half its scaled height, on layer 10, at rest moving right. */
  function PlayerBundle(win: WinSize): (b: SpriteBundle)
    ensures b.translation == Vec3(0.0, -win.h / 2.0 + PLAYER_SIZE.y / 2.0 * SPRITE_SCALE + 50.0, 10.0)
    ensures b.translation.y == -win.h / 2.0 + 50.1953125
    ensures b.scale == Vec3(SPRITE_SCALE, SPRITE_SCALE, 1.0)
    ensures b.movable == Some(Movable(false)) && b.velocity == Some(Velocity(1.0, 0.0))
    ensures InMovableQuery(b) && Player in b.tags
    ensures b.size.None? && !InPlayerQuery(b)
  {
    var bottom := -win.h / 2.0;
    SpriteBundle(PlayerTexture, Vec3(0.0, bottom + PLAYER_SIZE.y / 2.0 * SPRITE_SCALE + 50.0, 10.0),
                 Vec3(SPRITE_SCALE, SPRITE_SCALE, 1.0), {Player}, None,
                 Some(Movable(false)), Some(Velocity(1.0, 0.0)), None)
  }

  /** `player_spawn_system`: one spawn command. */
  function PlayerSpawn(win: WinSize): (cmds: seq<Command>)
    ensures |cmds| == 1 && cmds[0].Spawn? && cmds[0].bundle == PlayerBundle(win)
  {
    [Spawn(PlayerBundle(win))]
  }

  /** The horizontal velocity the arrow keys ask for: Left wins over Right. */
  function KeyboardVelocityX(left: bool, right: bool): (vx: real)
    ensures vx == -1.0 <==> left
    ensures vx == 1.0 <==> !left && right
    ensures vx == 0.0 <==> !left && !right
  {
    if left then -1.0 else if right then 1.0 else 0.0
  }

  /** `player_keyboard_event_system` over the `Velocity` of every entity
      tagged `Player`: acts only when there is exactly one, and then sets
      only its horizontal component. */
  method PlayerKeyboard(velocities: array<Velocity>, left: bool, right: bool)
    modifies velocities
    ensures velocities.Length == 1 ==>
      velocities[0] == Velocity(KeyboardVelocityX(left, right), old(velocities[0].y))
    ensures velocities.Length != 1 ==> velocities[..] == old(velocities[..])
  {
    if velocities.Length == 1 {
      velocities[0] := velocities[0].(x := KeyboardVelocityX(left, right));
    }
  }

  /** The vertical offset of the lasers above the ship. */
  const LASER_Y_OFFSET: real := PLAYER_SIZE.x / 1.0 * SPRITE_SCALE + 75.0

  /** One player laser at `(x, y)`: moving up, despawned once off screen.
      It carries neither `Laser`, `FromPlayer` nor `SpriteSize`. */
  function PlayerLaserBundle(x: real, y: real): (b: SpriteBundle)
    ensures b.translation == Vec3(x, y, 0.0)
    ensures b.scale == Vec3(SPRITE_SCALE, SPRITE_SCALE, 1.0)
    ensures b.velocity == Some(Velocity(0.0, 1.0)) && b.movable == Some(Movable(true))
    ensures InMovableQuery(b) && b.tags == {} && b.size.None?
  {
    SpriteBundle(PlayerLaserTexture, Vec3(x, y, 0.0), Vec3(SPRITE_SCALE, SPRITE_SCALE, 1.0), {}, None,
                 Some(Movable(true)), Some(Velocity(0.0, 1.0)), None)
  }

  /** `player_fire_system` over the translations of the entities tagged
      `Player`: with exactly one and Space just pressed, a laser 10 units to
      the right and then one 10 units to the left, both 75.75 units above the
      ship; nothing otherwise. As written, none of these lasers enters the
      query of the collision system, which asks for `Laser`, `FromPlayer`
      and `SpriteSize`. */
  function PlayerFire(players: seq<Vec3>, spaceJustPressed: bool): (cmds: seq<Command>)
    ensures |players| == 1 && spaceJustPressed ==>
      var p := players[0];
      && |cmds| == 2
      && cmds[0] == Spawn(PlayerLaserBundle(p.x + 10.0, p.y + 75.75))
      && cmds[1] == Spawn(PlayerLaserBundle(p.x - 10.0, p.y + 75.75))
    ensures !(|players| == 1 && spaceJustPressed) ==> cmds == []
    ensures forall c | c in cmds ::
      c.Spawn? && InMovableQuery(c.bundle) && c.bundle.velocity == Some(Velocity(0.0, 1.0))
      && !InPlayerLaserQuery(c.bundle)
  {
    if |players| == 1 && spaceJustPressed then
      var p := players[0];
      [Spawn(PlayerLaserBundle(p.x + 10.0, p.y + LASER_Y_OFFSET)),
       Spawn(PlayerLaserBundle(p.x - 10.0, p.y + LASER_Y_OFFSET))]
    else []
  }
}
