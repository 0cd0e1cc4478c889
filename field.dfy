/** The playing field of Flappy Cube: its constants, the pixel-snapping
    rounding of the vertical motion, the random gap centre, and the
    axis-aligned tests between the cube and one obstacle.

    Lengths are scene units of the orthographic camera (the field is
    centred at the origin, x to the right, y upwards), times are seconds.
    All arithmetic is exact: the game's doubles are modelled as `real`. */
module Field {

  const FieldWidth: real := 1000.0
  const FieldHeight: real := 500.0
  const CubeSize: real := 40.0
  /** Vertical opening between the two columns of an obstacle. */
  const Interspace: real := CubeSize * 3.5
  const ObstacleDistance: real := 300.0
  const ObstacleWidth: real := 100.0
  /** Gravity, in units per second squared (positive is downwards). */
  const G: real := 600.0
  /** Speed the flap key imposes, upwards. */
  const CubeFlySpeedY: real := 270.0
  /** Horizontal speed of the obstacles while playing. */
  const InitialMovingSpeed: real := 80.0
  /** Vertical speed of the cube when the page loads (positive is downwards). */
  const InitialCubeSpeedY: real := 15.0
  /** Cooldown between two scores: the time an obstacle needs to travel
      one obstacle distance at the playing speed. It is computed once. */
  const ScoringTimeInterval: real := ObstacleDistance / InitialMovingSpeed
  /** Number of obstacles: the initialising loop runs while
      `i < FieldWidth / ObstacleDistance + 1`, that is for i = 0 .. 4. */
  const PoolSize: nat := 5

  /** The cube never moves horizontally. */
  const CubeX: real := -FieldWidth / 3.0
  /** Lowest and highest centre the cube may have inside the field. */
  const Floor: real := -FieldHeight / 2.0 + CubeSize / 2.0
  const Ceiling: real := FieldHeight / 2.0 - CubeSize / 2.0
  /** An obstacle whose centre is left of this is recycled. */
  const LeftBound: real := -FieldWidth / 2.0 - ObstacleWidth / 2.0
  /** Gap centres are drawn from [-GapLimit, GapLimit). */
  const GapLimit: real := 0.9 * (FieldHeight / 2.0 - Interspace / 2.0)
  /** Seeds of the running maximum and minimum over the obstacle x's. */
  const MaxSeed: real := -10000.0
  const MinSeed: real := 10000.0

  /** Math.ceil, computed through Floor: the least integer not below r. */
  function Ceil(r: real): (n: int)
    ensures r <= n as real < r + 1.0
  {
    -((-r).Floor)
  }

  /** How far the cube moves down in one frame of dt seconds when its
      vertical speed is v, snapped up to a whole unit. */
  function Drop(dt: real, v: real): int
  {
    Ceil(dt * v + G * dt * dt / 2.0)
  }

  /** The gap centre obtained from one draw of Math.random. */
  function GapCentre(rnd: real): (y: real)
    ensures 0.0 <= rnd < 1.0 ==> -GapLimit <= y < GapLimit
  {
    (rnd * 2.0 - 1.0) * 0.9 * (FieldHeight / 2.0 - Interspace / 2.0)
  }

  predicate InGapRange(y: real)
  {
    -GapLimit <= y < GapLimit
  }

  /** The obstacle at ox has just been passed: its scoring position (its
      right edge plus one cube size) lies within the cube's horizontal extent. */
  predicate InScoringWindow(ox: real)
  {
    var scoringX := ox + ObstacleWidth / 2.0 + CubeSize;
    scoringX <= CubeX + CubeSize / 2.0 && scoringX >= CubeX - CubeSize / 2.0
  }

  /** The cube at height cy fits strictly inside the opening of an
      obstacle whose gap centre is oy. */
  predicate InGapBand(cy: real, oy: real)
  {
    cy < oy + Interspace / 2.0 - CubeSize / 2.0 && cy > oy - Interspace / 2.0 + CubeSize / 2.0
  }

  /** The cube at height cy touches the obstacle at (ox, oy): it overlaps
      the obstacle horizontally (edges included) and is not inside the opening. */
  predicate Collides(cy: real, ox: real, oy: real)
  {
    CubeX <= ox + ObstacleWidth / 2.0 + CubeSize / 2.0
    && CubeX >= ox - ObstacleWidth / 2.0 - CubeSize / 2.0
    && !InGapBand(cy, oy)
  }

  /** Height of the cube's centre when it rests on the lower column of an
      obstacle whose gap centre is oy. */
  function LandingY(oy: real): real
  {
    oy - Interspace / 2.0 + CubeSize / 2.0
  }

  /** A falling cube at height cy has sunk into the lower column of the
      obstacle at (ox, oy); the horizontal test uses a margin of a third
      of the cube size and strict comparisons. */
  predicate LandsOn(cy: real, ox: real, oy: real)
  {
    CubeX < ox + ObstacleWidth / 2.0 + CubeSize / 3.0
    && CubeX > ox - ObstacleWidth / 2.0 - CubeSize / 3.0
    && cy < LandingY(oy)
  }
}
