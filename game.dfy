/** The game loop as the page runs it: one object holding the cube, the
    flags, the score and the obstacle pool, updated in place once per
    frame. Every method is proved to do to the object what the function of
    the same name in module Rules does to a GameState value. */
module FlappyCube {
  import opened Field
  import opened Rules
  import Properties

  class Game {
    var gameStarted: bool
    var gameOver: bool
    var cubeDied: bool
    var cubeY: real
    var cubeSpeedY: real
    var movingSpeed: real
    var score: nat
    var scoringTimer: real
    var message: Message
    var tint: Tint
    /** Horizontal centres and gap centres of the obstacles. */
    const obstacleX: array<real>
    const obstacleY: array<real>

    /** The pool has its fixed size and its two arrays are distinct. */
    ghost predicate Shaped()
      reads this
    {
      obstacleX.Length == PoolSize && obstacleY.Length == PoolSize && obstacleX != obstacleY
    }

    /** The object's state as a value. */
    ghost function Model(): GameState
      reads this, obstacleX, obstacleY
    {
      GameState(gameStarted, gameOver, cubeDied, cubeY, cubeSpeedY, movingSpeed,
                score, scoringTimer, message, tint, obstacleX[..], obstacleY[..])
    }

    ghost predicate Valid()
      reads this, obstacleX, obstacleY
    {
      Shaped() && Inv(Model())
    }

    /** Load time: the global initialisers and initObstacles. */
    constructor (draws: seq<real>)
      requires ValidDraws(draws)
      ensures Valid() && fresh(obstacleX) && fresh(obstacleY)
      ensures Model() == Initial(draws)
    {
      var xs := new real[PoolSize];
      var ys := new real[PoolSize];
      var i := 0;
      while i < PoolSize
        invariant 0 <= i <= PoolSize
        invariant forall j :: 0 <= j < i ==> xs[j] == j as real * ObstacleDistance && ys[j] == GapCentre(draws[j])
      {
        xs[i] := i as real * ObstacleDistance;
        ys[i] := GapCentre(draws[i]);
        i := i + 1;
      }
      gameStarted, gameOver, cubeDied := false, false, false;
      cubeY, cubeSpeedY, movingSpeed := 0.0, InitialCubeSpeedY, InitialMovingSpeed;
      score, scoringTimer := 0, ScoringTimeInterval;
      message, tint := PageText, Firebrick;
      obstacleX, obstacleY := xs, ys;
      new;
      assert obstacleX[..] == Initial(draws).xs;
      assert obstacleY[..] == Initial(draws).ys;
    }

    /** draw: one frame, dispatched on the flags as they are at its start. */
    method Tick(dt: real, keyDown: bool, draws: seq<real>)
      requires Valid() && dt >= 0.0 && ValidDraws(draws)
      modifies this, obstacleX, obstacleY
      ensures Valid()
      ensures Model() == Rules.Tick(old(Model()), dt, keyDown, draws)
    {
      Properties.TickKeepsInv(Model(), dt, keyDown, draws);
      if !gameStarted {
        WaitStart(keyDown);
      } else if !gameOver {
        MoveObstacles(dt, draws);
        CubeUpdate(dt, keyDown);
      } else if cubeDied {
        WaitRestart(keyDown, draws);
      } else {
        CubeFall(dt);
      }
    }

    /** waitStart */
    method WaitStart(keyDown: bool)
      requires Shaped()
      modifies this
      ensures Shaped()
      ensures Model() == Rules.WaitStart(old(Model()), keyDown)
    {
      if keyDown {
        gameStarted := true;
      }
    }

    /** gameOverFun */
    method EndGame()
      requires Shaped()
      modifies this
      ensures Shaped()
      ensures gameOver && cubeSpeedY == 0.0 && movingSpeed == 0.0 && message == Over && tint == Grey
      ensures gameStarted == old(gameStarted) && cubeDied == old(cubeDied) && cubeY == old(cubeY)
      ensures score == old(score) && scoringTimer == old(scoringTimer)
    {
      gameOver := true;
      cubeSpeedY := 0.0;
      movingSpeed := 0.0;
      message := Over;
      tint := Grey;
    }

    /** The running maximum of moveObstacles over the obstacles' x, seeded
        with MaxSeed. */
    method MaxX() returns (m: real)
      ensures m == MaxOf(MaxSeed, obstacleX[..])
    {
      m := MaxSeed;
      var i := 0;
      while i < obstacleX.Length
        invariant 0 <= i <= obstacleX.Length
        invariant m == MaxOf(MaxSeed, obstacleX[..i])
      {
        assert obstacleX[..i + 1][..i] == obstacleX[..i];
        if obstacleX[i] > m {
          m := obstacleX[i];
        }
        i := i + 1;
      }
      assert obstacleX[..i] == obstacleX[..];
    }

    /** The running minimum of waitReStart over the obstacles' x, seeded
        with MinSeed. */
    method MinX() returns (m: real)
      ensures m == MinOf(MinSeed, obstacleX[..])
    {
      m := MinSeed;
      var i := 0;
      while i < obstacleX.Length
        invariant 0 <= i <= obstacleX.Length
        invariant m == MinOf(MinSeed, obstacleX[..i])
      {
        assert obstacleX[..i + 1][..i] == obstacleX[..i];
        if obstacleX[i] < m {
          m := obstacleX[i];
        }
        i := i + 1;
      }
      assert obstacleX[..i] == obstacleX[..];
    }

    /** What the scoring and collision checks of one pass have
        accumulated so far: the game is not over when the pass starts, so
        gameOver records whether gameOverFun has been called in it. */
    ghost function PassSoFar(): Pass
      reads this
    {
      Pass(score, scoringTimer, message, gameOver)
    }

    /** moveObstacles: find the rightmost obstacle, then move every obstacle
        (recycling those past the left bound), score and detect collisions.
        The frame dispatcher calls it only while the game is not over. */
    method MoveObstacles(dt: real, draws: seq<real>)
      requires Shaped() && |draws| == PoolSize && !gameOver
      modifies this, obstacleX, obstacleY
      ensures Shaped()
      ensures Model() == Rules.MoveObstacles(old(Model()), dt, draws)
    {
      ghost var s0 := Model();
      var translation := Translation(movingSpeed, dt);
      var maxX := MaxX();
      scoringTimer := scoringTimer + dt;
      assert Model() == s0.(scoringTimer := s0.scoringTimer + dt);
      assert maxX == MaxOf(MaxSeed, s0.xs) && translation == Translation(s0.movingSpeed, dt);
      assert Rules.MoveObstacles(s0, dt, draws) == Rules.Sweep(Model(), maxX, translation, draws);
      Sweep(maxX, translation, draws);
    }

    /** The loop of moveObstacles, for a pre-pass maximum maxX and a
        translation fixed before the pass: obstacle i is recycled if it is
        past the left bound, moved, then checked, before obstacle i + 1. */
    method Sweep(maxX: real, translation: real, draws: seq<real>)
      requires Shaped() && |draws| == PoolSize && !gameOver
      modifies this, obstacleX, obstacleY
      ensures Shaped()
      ensures Model() == Rules.Sweep(old(Model()), maxX, translation, draws)
    {
      ghost var xs0, ys0 := obstacleX[..], obstacleY[..];
      ghost var xs1 := Scrolled(xs0, maxX, translation);
      ghost var ys1 := Regapped(xs0, ys0, draws);
      ghost var p0 := PassSoFar();
      var i := 0;
      while i < obstacleX.Length
        invariant 0 <= i <= obstacleX.Length && Shaped()
        invariant forall j :: 0 <= j < i ==> obstacleX[j] == xs1[j] && obstacleY[j] == ys1[j]
        invariant forall j :: i <= j < obstacleX.Length ==> obstacleX[j] == xs0[j] && obstacleY[j] == ys0[j]
        invariant PassSoFar() == CheckObstacles(p0, cubeY, xs1, ys1, i)
        invariant gameOver ==> cubeSpeedY == 0.0 && movingSpeed == 0.0 && tint == Grey
        invariant !gameOver ==> cubeSpeedY == old(cubeSpeedY) && movingSpeed == old(movingSpeed) && tint == old(tint)
        invariant cubeY == old(cubeY) && gameStarted == old(gameStarted) && cubeDied == old(cubeDied)
      {
        if obstacleX[i] < LeftBound {
          obstacleX[i] := maxX + ObstacleDistance;
          obstacleY[i] := GapCentre(draws[i]);
        }
        obstacleX[i] := obstacleX[i] - translation;
        assert obstacleX[i] == xs1[i] && obstacleY[i] == ys1[i];
        CheckObstacle(i);
        i := i + 1;
      }
      assert obstacleX[..] == xs1 && obstacleY[..] == ys1;
    }

    /** The scoring check and the collision check that moveObstacles runs on
        obstacle i once it has been moved. */
    method CheckObstacle(i: nat)
      requires Shaped() && i < obstacleX.Length
      requires gameOver ==> cubeSpeedY == 0.0 && movingSpeed == 0.0 && tint == Grey
      modifies this
      ensures Shaped()
      ensures PassSoFar() == Rules.CheckObstacle(old(PassSoFar()), cubeY, obstacleX[i], obstacleY[i])
      ensures gameOver ==> cubeSpeedY == 0.0 && movingSpeed == 0.0 && tint == Grey
      ensures !gameOver ==> cubeSpeedY == old(cubeSpeedY) && movingSpeed == old(movingSpeed) && tint == old(tint)
      ensures cubeY == old(cubeY) && gameStarted == old(gameStarted) && cubeDied == old(cubeDied)
    {
      if InScoringWindow(obstacleX[i]) && scoringTimer >= ScoringTimeInterval {
        scoringTimer := 0.0;
        score := score + 1;
        message := Milestone(score, message);
      }
      if Collides(cubeY, obstacleX[i], obstacleY[i]) {
        EndGame();
      }
    }

    /** cubeUpdate */
    method CubeUpdate(dt: real, keyDown: bool)
      requires Shaped()
      modifies this
      ensures Shaped()
      ensures Model() == Rules.CubeUpdate(old(Model()), dt, keyDown)
    {
      if keyDown {
        cubeSpeedY := -CubeFlySpeedY;
      }
      cubeY := Fallen(cubeY, cubeSpeedY, dt);
      cubeSpeedY := cubeSpeedY + G * dt;
      if cubeY < Floor {
        EndGame();
        cubeDied := true;
        cubeY := Floor;
      }
      if cubeY > Ceiling {
        cubeY := Ceiling;
        cubeSpeedY := 0.0;
      }
    }

    /** cubeFall: the cube falls after the game is over and comes to rest on
        the floor or on the first lower column it sinks into. */
    method CubeFall(dt: real)
      requires Shaped()
      modifies this
      ensures Shaped()
      ensures Model() == Rules.CubeFall(old(Model()), dt)
    {
      cubeY := Fallen(cubeY, cubeSpeedY, dt);
      cubeSpeedY := cubeSpeedY + G * dt;
      if cubeY < Floor {
        cubeY := Floor;
        cubeDied := true;
      }
      var k := LandingIndex();
      if k < obstacleX.Length {
        cubeY := LandingY(obstacleY[k]);
        cubeDied := true;
      }
    }

    /** The loop of cubeFall: the first obstacle the cube at its current
        height has sunk into, or the pool size if there is none. */
    method LandingIndex() returns (k: nat)
      requires Shaped()
      ensures k <= obstacleX.Length
      ensures FirstLanding(obstacleX[..], obstacleY[..], cubeY, 0) == if k < obstacleX.Length then Some(k) else None
    {
      k := 0;
      while k < obstacleX.Length
        invariant k <= obstacleX.Length
        invariant FirstLanding(obstacleX[..], obstacleY[..], cubeY, k) == FirstLanding(obstacleX[..], obstacleY[..], cubeY, 0)
      {
        if LandsOn(cubeY, obstacleX[k], obstacleY[k]) {
          return;
        }
        k := k + 1;
      }
    }

    /** waitReStart: on the flap key, shift the pool so that its leftmost
        obstacle is at x = 0 and reset everything but the cube's speed and
        the scoring timer. */
    method WaitRestart(keyDown: bool, draws: seq<real>)
      requires Shaped() && |draws| == PoolSize
      modifies this, obstacleX, obstacleY
      ensures Shaped()
      ensures Model() == Rules.WaitRestart(old(Model()), keyDown, draws)
    {
      if keyDown {
        cubeY := 0.0;
        tint := Firebrick;
        var minX := MinX();
        Shift(minX, draws);
        movingSpeed := InitialMovingSpeed;
        gameOver := false;
        cubeDied := false;
        score := 0;
        message := ComeOn;
      }
    }

    /** The loop of waitReStart: every obstacle moved left by minX and
        given a new gap. */
    method Shift(minX: real, draws: seq<real>)
      requires Shaped() && |draws| == PoolSize
      modifies obstacleX, obstacleY
      ensures obstacleX[..] == Normalised(old(obstacleX[..]), minX)
      ensures obstacleY[..] == Redrawn(draws)
    {
      ghost var xs0 := obstacleX[..];
      var i := 0;
      while i < obstacleX.Length
        invariant 0 <= i <= obstacleX.Length
        invariant forall j :: 0 <= j < i ==> obstacleX[j] == xs0[j] + (0.0 - minX) && obstacleY[j] == GapCentre(draws[j])
        invariant forall j :: i <= j < obstacleX.Length ==> obstacleX[j] == xs0[j]
      {
        obstacleX[i] := obstacleX[i] + (0.0 - minX);
        obstacleY[i] := GapCentre(draws[i]);
        i := i + 1;
      }
      assert obstacleX[..] == Normalised(xs0, minX);
      assert obstacleY[..] == Redrawn(draws);
    }
  }
}
