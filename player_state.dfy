/** The `PlayerState` resource of src/main.rs: whether the player is alive
    (`on`) and the time it was last shot (`last_shot`, -1 when none). */
module PlayerStates {

  class PlayerState {
    var on: bool
    var lastShot: real

    /** `PlayerState::default()`. */
    constructor ()
      ensures !on && lastShot == -1.0
    {
      on := false;
      lastShot := -1.0;
    }

    /** The player was hit at `time`. */
    method Shot(time: real)
      modifies this
      ensures !on && lastShot == time
    {
      on := false;
      lastShot := time;
    }

    /** A player entity was spawned. */
    method Spawned()
      modifies this
      ensures on && lastShot == -1.0
    {
      on := true;
      lastShot := -1.0;
    }
  }
}
