/** The game's tuning constants and the sizes of its sprites. */
module Config {
  const ScreenWidth: int := 800
  const ScreenHeight: int := 400
  /** The y-coordinate of the top of the ground strip. */
  const GroundHeight: int := ScreenHeight - 100
  const Gravity: real := 0.6
  const JumpStrength: real := -12.0
  const ObstacleSpeed: int := 7
  const WolfAnimationSpeed: real := 0.1
  /** The distance a rock must travel from the spawn point before the next one appears. */
  const RockSpacing: int := 500
  const WolfWidth: int := 100
  const WolfHeight: int := 50
  /** The rock image is scaled to a square of this side. */
  const RockSize: int := 50
  /** The number of run-cycle images of the wolf. */
  const WolfFrames: int := 4
  /** The wolf's fixed horizontal position. */
  const WolfX: int := 50
  /** Points awarded for each accepted jump. */
  const ScorePerJump: int := 10

  /** Where a sprite of the given height rests on the ground. */
  const WolfGroundY: int := GroundHeight - WolfHeight
  const RockY: int := GroundHeight - RockSize
}
