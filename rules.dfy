/** The per-frame rules of Flappy Cube as functions on a value of the whole
    game state. Each function describes what one routine of the game loop
    does to the state; the class in module FlappyCube runs the same steps
    in place and is proved to agree with these functions. */
module Rules {
  import opened Field

  /** Colour of the cube: firebrick while alive, grey once the game is over. */
  datatype Tint = Firebrick | Grey

  /** The texts the game writes into the page's message element. The text
      the page shows before the game writes one is part of the page, not of
      the game loop, and is PageText here. */
  datatype Message = PageText | ComeOn | Over | NotBad | VeryGood | Excellent | Hero

  /** The text each message stands for. */
  function Text(m: Message): string
  {
    match m
    case PageText => ""
    case ComeOn => "Come on!"
    case Over => "Game Over"
    case NotBad => "Not Bad!"
    case VeryGood => "Very good!"
    case Excellent => "Excellent!"
    case Hero => "You are the hero!"
  }

  /** The four behaviours the frame dispatcher chooses from. */
  datatype Phase = WaitingToStart | Playing | Dying | WaitingToRestart

  /** Everything the game loop reads and writes. The obstacle pool is two
      parallel sequences: xs[i] is the horizontal centre of obstacle i and
      ys[i] the centre of its gap. */
  datatype GameState = GameState(
    gameStarted: bool,
    gameOver: bool,
    cubeDied: bool,
    cubeY: real,
    cubeSpeedY: real,
    movingSpeed: real,
    score: nat,
    scoringTimer: real,
    message: Message,
    tint: Tint,
    xs: seq<real>,
    ys: seq<real>)

  function PhaseOf(s: GameState): Phase
  {
    if !s.gameStarted then WaitingToStart
    else if !s.gameOver then Playing
    else if !s.cubeDied then Dying
    else WaitingToRestart
  }

  /** One Math.random value per obstacle slot. */
  predicate ValidDraws(draws: seq<real>)
  {
    |draws| == PoolSize && forall i :: 0 <= i < |draws| ==> 0.0 <= draws[i] < 1.0
  }

  /** What stays true of the state between frames. */
  predicate Inv(s: GameState)
  {
    && |s.xs| == PoolSize && |s.ys| == PoolSize
    && (forall i :: 0 <= i < |s.ys| ==> InGapRange(s.ys[i]))
    && s.cubeY >= Floor
    && (!s.gameOver ==> s.cubeY <= Ceiling)
    && (s.cubeDied ==> s.gameOver)
    && (s.gameOver ==> s.gameStarted)
    && s.movingSpeed == (if s.gameOver then 0.0 else InitialMovingSpeed)
    && s.tint == (if s.gameOver then Grey else Firebrick)
    && s.scoringTimer >= 0.0
  }

  /** Gap centres for every slot, one draw each. */
  function Redrawn(draws: seq<real>): (ys: seq<real>)
    ensures |ys| == |draws|
    ensures ValidDraws(draws) ==> forall i :: 0 <= i < |ys| ==> InGapRange(ys[i])
  {
    seq(|draws|, i requires 0 <= i < |draws| => GapCentre(draws[i]))
  }

  /** The state when the page has loaded: obstacle i at x = i * ObstacleDistance
      with a random gap, the cube at the origin's height, nothing started, and
      the page's own message. */
  function Initial(draws: seq<real>): GameState
    requires |draws| == PoolSize
  {
    GameState(false, false, false, 0.0, InitialCubeSpeedY, InitialMovingSpeed,
              0, ScoringTimeInterval, PageText, Firebrick,
              seq(PoolSize, i => i as real * ObstacleDistance), Redrawn(draws))
  }

  /** waitStart: the flap key starts the game. */
  function WaitStart(s: GameState, keyDown: bool): GameState
  {
    if keyDown then s.(gameStarted := true) else s
  }

  /** gameOverFun: stop the obstacles and the cube's vertical speed. */
  function EndGame(s: GameState): GameState
  {
    s.(gameOver := true, cubeSpeedY := 0.0, movingSpeed := 0.0, message := Over, tint := Grey)
  }

  /** The message shown once the score has become `score`. */
  function Milestone(score: int, message: Message): Message
  {
    if score >= 10 && score < 20 then NotBad
    else if score >= 20 && score < 50 then VeryGood
    else if score >= 50 && score < 100 then Excellent
    else if score >= 100 then Hero
    else message
  }

  /** The value of the loop `m := seed; for each x: if x > m then m := x`. */
  function MaxOf(seed: real, xs: seq<real>): (m: real)
    ensures m >= seed
    ensures forall k :: 0 <= k < |xs| ==> xs[k] <= m
    ensures m == seed || exists k :: 0 <= k < |xs| && xs[k] == m
  {
    if xs == [] then seed
    else
      var m0 := MaxOf(seed, xs[..|xs| - 1]);
      if xs[|xs| - 1] > m0 then xs[|xs| - 1] else m0
  }

  /** The value of the loop `m := seed; for each x: if x < m then m := x`. */
  function MinOf(seed: real, xs: seq<real>): (m: real)
    ensures m <= seed
    ensures forall k :: 0 <= k < |xs| ==> m <= xs[k]
    ensures m == seed || exists k :: 0 <= k < |xs| && xs[k] == m
  {
    if xs == [] then seed
    else
      var m0 := MinOf(seed, xs[..|xs| - 1]);
      if xs[|xs| - 1] < m0 then xs[|xs| - 1] else m0
  }

  /** New horizontal position of one obstacle in a pass whose pre-pass
      maximum is m and whose translation is t. */
  function ScrollX(x: real, m: real, t: real): real
  {
    (if x < LeftBound then m + ObstacleDistance else x) - t
  }

  function Scrolled(xs: seq<real>, m: real, t: real): (r: seq<real>)
    ensures |r| == |xs|
  {
    seq(|xs|, i requires 0 <= i < |xs| => ScrollX(xs[i], m, t))
  }

  /** Gap centres after a pass: a recycled obstacle takes its draw. */
  function Regapped(xs: seq<real>, ys: seq<real>, draws: seq<real>): (r: seq<real>)
    requires |xs| == |ys| == |draws|
    ensures |r| == |ys|
  {
    seq(|ys|, i requires 0 <= i < |ys| => if xs[i] < LeftBound then GapCentre(draws[i]) else ys[i])
  }

  /** What the checks of one pass accumulate: the score, the scoring timer,
      the message, and whether gameOverFun has been called. */
  datatype Pass = Pass(score: nat, timer: real, message: Message, hit: bool)

  /** The scoring check, then the collision check, of one obstacle at its
      moved position (ox, oy). */
  function CheckObstacle(p: Pass, cubeY: real, ox: real, oy: real): Pass
  {
    var scored := InScoringWindow(ox) && p.timer >= ScoringTimeInterval;
    var p1 := if scored then Pass(p.score + 1, 0.0, Milestone(p.score + 1, p.message), p.hit) else p;
    if Collides(cubeY, ox, oy) then p1.(message := Over, hit := true) else p1
  }

  /** The checks of obstacles 0 .. n-1, in order. */
  function CheckObstacles(p: Pass, cubeY: real, xs: seq<real>, ys: seq<real>, n: nat): (r: Pass)
    requires n <= |xs| && n <= |ys|
    ensures r.score >= p.score
  {
    if n == 0 then p
    else CheckObstacle(CheckObstacles(p, cubeY, xs, ys, n - 1), cubeY, xs[n - 1], ys[n - 1])
  }

  /** The distance every obstacle moves left in a frame. */
  function Translation(movingSpeed: real, dt: real): real
  {
    movingSpeed * dt
  }

  /** The pass of moveObstacles over the pool, for a pre-pass maximum m and
      a translation t: every obstacle is scrolled (recycled first if it is
      past the left bound), then scored and checked for collision. */
  function Sweep(s: GameState, m: real, t: real, draws: seq<real>): GameState
    requires |s.xs| == |s.ys| == |draws|
  {
    var xs := Scrolled(s.xs, m, t);
    var ys := Regapped(s.xs, s.ys, draws);
    var p := CheckObstacles(Pass(s.score, s.scoringTimer, s.message, false), s.cubeY, xs, ys, |xs|);
    var s1 := s.(xs := xs, ys := ys, score := p.score, scoringTimer := p.timer, message := p.message);
    if p.hit then EndGame(s1).(message := p.message) else s1
  }

  /** moveObstacles: the maximum x and the translation are taken before
      the pass, and the scoring timer advances by dt; so a collision does
      not stop the obstacles after it in the same pass. */
  function MoveObstacles(s: GameState, dt: real, draws: seq<real>): GameState
    requires |s.xs| == |s.ys| == |draws|
  {
    Sweep(s.(scoringTimer := s.scoringTimer + dt), MaxOf(MaxSeed, s.xs), Translation(s.movingSpeed, dt), draws)
  }

  /** The vertical speed after the flap input has been read. */
  function Flap(v: real, keyDown: bool): real
  {
    if keyDown then -CubeFlySpeedY else v
  }

  /** Height of the cube after one frame of gravity, before any clamping. */
  function Fallen(y: real, v: real, dt: real): real
  {
    y - Drop(dt, v) as real
  }

  /** cubeUpdate: flap, integrate, then clamp at the floor (which ends the
      game and kills the cube at once) and at the ceiling. */
  function CubeUpdate(s: GameState, dt: real, keyDown: bool): (r: GameState)
    ensures Floor <= r.cubeY <= Ceiling
  {
    var v0 := Flap(s.cubeSpeedY, keyDown);
    var s1 := s.(cubeY := Fallen(s.cubeY, v0, dt), cubeSpeedY := v0 + G * dt);
    var s2 := if s1.cubeY < Floor then EndGame(s1).(cubeDied := true, cubeY := Floor) else s1;
    if s2.cubeY > Ceiling then s2.(cubeY := Ceiling, cubeSpeedY := 0.0) else s2
  }

  /** The index of the first obstacle at or after i that the cube at
      height y lands on, if any. */
  function FirstLanding(xs: seq<real>, ys: seq<real>, y: real, i: nat): (r: Option<nat>)
    requires |xs| == |ys|
    decreases |xs| - i
    ensures r.Some? ==> i <= r.value < |xs| && LandsOn(y, xs[r.value], ys[r.value])
    ensures r.Some? ==> forall j :: i <= j < r.value ==> !LandsOn(y, xs[j], ys[j])
    ensures r.None? ==> forall j :: i <= j < |xs| ==> !LandsOn(y, xs[j], ys[j])
  {
    if i >= |xs| then None
    else if LandsOn(y, xs[i], ys[i]) then Some(i)
    else FirstLanding(xs, ys, y, i + 1)
  }

  datatype Option<T> = None | Some(value: T)

  /** cubeFall: gravity only, then rest on the floor or on the first
      lower column the cube has sunk into. */
  function CubeFall(s: GameState, dt: real): GameState
    requires |s.xs| == |s.ys|
  {
    var y1 := Fallen(s.cubeY, s.cubeSpeedY, dt);
    var s1 := s.(cubeY := y1, cubeSpeedY := s.cubeSpeedY + G * dt);
    var s2 := if y1 < Floor then s1.(cubeY := Floor, cubeDied := true) else s1;
    match FirstLanding(s.xs, s.ys, s2.cubeY, 0)
    case Some(k) => s2.(cubeY := LandingY(s.ys[k]), cubeDied := true)
    case None => s2
  }

  /** Every x moved by the same amount, so that m lands on 0. */
  function Normalised(xs: seq<real>, m: real): (r: seq<real>)
    ensures |r| == |xs|
  {
    seq(|xs|, i requires 0 <= i < |xs| => xs[i] + (0.0 - m))
  }

  /** waitReStart: on the flap key, reset the cube, shift the pool so that
      its leftmost obstacle is at x = 0, draw new gaps and reset speed,
      flags, score and message. */
  function WaitRestart(s: GameState, keyDown: bool, draws: seq<real>): GameState
  {
    if !keyDown then s
    else
      s.(cubeY := 0.0, tint := Firebrick,
         xs := Normalised(s.xs, MinOf(MinSeed, s.xs)), ys := Redrawn(draws),
         movingSpeed := InitialMovingSpeed, gameOver := false, cubeDied := false,
         score := 0, message := ComeOn)
  }

  /** draw: one frame; exactly one behaviour runs, chosen by the flags. */
  function Tick(s: GameState, dt: real, keyDown: bool, draws: seq<real>): GameState
    requires |s.xs| == |s.ys| == |draws|
  {
    if !s.gameStarted then WaitStart(s, keyDown)
    else if !s.gameOver then CubeUpdate(MoveObstacles(s, dt, draws), dt, keyDown)
    else if s.cubeDied then WaitRestart(s, keyDown, draws)
    else CubeFall(s, dt)
  }
}
