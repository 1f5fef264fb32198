/** Values shared by every system of the game kernel: entity identifiers,
    vectors, the window size resource and the constants of src/main.rs.
    Every `f32`/`f64` of the game is modelled as an exact `real`. */
module Common {

  /** An opaque entity identifier, as minted by the ECS world. */
  type Entity = nat

  datatype Option<T> = None | Some(value: T)

  datatype Vec2 = Vec2(x: real, y: real)

  datatype Vec3 = Vec3(x: real, y: real, z: real)

  /** The `Velocity` component: a unit direction, scaled by `BASE_SPEED`. */
  datatype Velocity = Velocity(x: real, y: real)

  /** The `Movable` component. */
  datatype Movable = Movable(autoDespawn: bool)

  /** The `WinSize` resource: the viewport's width and height. */
  datatype WinSize = WinSize(w: real, h: real)

  const PLAYER_SIZE: Vec2 := Vec2(1.5, 0.78125)
  const PLAYER_LASER_SIZE: Vec2 := Vec2(9.0, 54.0)
  const ENEMY_SIZE: Vec2 := Vec2(1.5, 0.78125)
  const ENEMY_LASER_SIZE: Vec2 := Vec2(9.0, 54.0)

  const EXPLOSION_LEN: nat := 16

  const SPRITE_SCALE: real := 0.5

  const TIME_STEP: real := 1.0 / 60.0
  const BASE_SPEED: real := 500.0

  const ENEMY_MAX: nat := 2
  const FORMATION_MEMBERS_MAX: nat := 2

  /** The off-screen margin of the movable system. */
  const MARGIN: real := 200.0

  /** `std::f32::consts::PI`, rounded to the nearest `f32`. */
  const PI: real := 3.1415927

  function Min(a: real, b: real): real { if a <= b then a else b }

  function Max(a: real, b: real): real { if a >= b then a else b }
}
