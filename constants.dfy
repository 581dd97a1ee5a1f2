/** Game-wide configuration values. */
module Constants {
  const Tile: int := 32
  const WorldCols: int := 500
  const WorldRows: int := 20
  const Gravity: real := 0.5
  const PlayerMaxSpeed: real := 6.5
  const JumpVelocity: real := 17.0
}
