/** What the rules of module Rules guarantee: the pass over the obstacle
    pool, the cube's motion, the restart, and the frame as a whole. */
module Properties {
  import opened Field
  import opened Rules

  // ----- The pool size -----

  /** Five slots is what the initialising loop `i < FieldWidth/ObstacleDistance + 1`
      produces: the last index taken, 4, passes the test and 5 does not. */
  lemma PoolSizeFromInitLoop()
    ensures (PoolSize - 1) as real < FieldWidth / ObstacleDistance + 1.0 <= PoolSize as real
  {
  }

  lemma InitialIsValid(draws: seq<real>)
    requires ValidDraws(draws)
    ensures Inv(Initial(draws)) && PhaseOf(Initial(draws)) == WaitingToStart
    ensures forall i :: 0 <= i < PoolSize ==> Initial(draws).xs[i] == i as real * ObstacleDistance
  {
  }

  // ----- The checks of one pass, obstacle by obstacle -----

  /** Some obstacle among the first n is in the scoring window. */
  predicate SomeScores(xs: seq<real>, n: nat)
    requires n <= |xs|
  {
    exists k :: 0 <= k < n && InScoringWindow(xs[k])
  }

  /** Some obstacle among the first n collides with the cube at height cubeY. */
  predicate SomeCollides(cubeY: real, xs: seq<real>, ys: seq<real>, n: nat)
    requires n <= |xs| && n <= |ys|
  {
    exists k :: 0 <= k < n && Collides(cubeY, xs[k], ys[k])
  }

  /** What the check of one obstacle does. */
  lemma CheckObstacleEffect(p: Pass, cubeY: real, ox: real, oy: real)
    ensures var r := CheckObstacle(p, cubeY, ox, oy);
      var sc := InScoringWindow(ox) && p.timer >= ScoringTimeInterval;
      var c := Collides(cubeY, ox, oy);
      && r.score == (if sc then p.score + 1 else p.score)
      && r.timer == (if sc then 0.0 else p.timer)
      && r.message == (if c then Over else if sc then Milestone(p.score + 1, p.message) else p.message)
      && r.hit == (p.hit || c)
  {
  }

  /** The pass scores once exactly when the timer has run out and some
      obstacle is in the window; scoring resets the timer, which blocks
      every later obstacle of the same pass. */
  lemma {:induction false} CheckObstaclesScore(p: Pass, cubeY: real, xs: seq<real>, ys: seq<real>, n: nat)
    requires n <= |xs| && n <= |ys|
    ensures var scored := p.timer >= ScoringTimeInterval && SomeScores(xs, n);
      && CheckObstacles(p, cubeY, xs, ys, n).score == p.score + (if scored then 1 else 0)
      && CheckObstacles(p, cubeY, xs, ys, n).timer == (if scored then 0.0 else p.timer)
  {
    if n > 0 {
      CheckObstaclesScore(p, cubeY, xs, ys, n - 1);
      CheckObstacleEffect(CheckObstacles(p, cubeY, xs, ys, n - 1), cubeY, xs[n - 1], ys[n - 1]);
      assert SomeScores(xs, n) <==> SomeScores(xs, n - 1) || InScoringWindow(xs[n - 1]);
    }
  }

  /** The pass calls gameOverFun exactly when some obstacle collides. */
  lemma {:induction false} CheckObstaclesHit(p: Pass, cubeY: real, xs: seq<real>, ys: seq<real>, n: nat)
    requires n <= |xs| && n <= |ys|
    ensures CheckObstacles(p, cubeY, xs, ys, n).hit == (p.hit || SomeCollides(cubeY, xs, ys, n))
  {
    if n > 0 {
      CheckObstaclesHit(p, cubeY, xs, ys, n - 1);
      CheckObstacleEffect(CheckObstacles(p, cubeY, xs, ys, n - 1), cubeY, xs[n - 1], ys[n - 1]);
      assert SomeCollides(cubeY, xs, ys, n) <==> SomeCollides(cubeY, xs, ys, n - 1) || Collides(cubeY, xs[n - 1], ys[n - 1]);
    }
  }

  /** Without a collision the message changes only by scoring, to the
      milestone of the new score. */
  lemma {:induction false} CheckObstaclesMessageAlive(p: Pass, cubeY: real, xs: seq<real>, ys: seq<real>, n: nat)
    requires n <= |xs| && n <= |ys|
    requires !SomeCollides(cubeY, xs, ys, n)
    ensures var scored := p.timer >= ScoringTimeInterval && SomeScores(xs, n);
      CheckObstacles(p, cubeY, xs, ys, n).message == if scored then Milestone(p.score + 1, p.message) else p.message
  {
    if n > 0 {
      assert !SomeCollides(cubeY, xs, ys, n - 1);
      CheckObstaclesMessageAlive(p, cubeY, xs, ys, n - 1);
      CheckObstaclesScore(p, cubeY, xs, ys, n - 1);
      CheckObstacleEffect(CheckObstacles(p, cubeY, xs, ys, n - 1), cubeY, xs[n - 1], ys[n - 1]);
      assert !Collides(cubeY, xs[n - 1], ys[n - 1]);
      assert SomeScores(xs, n) <==> SomeScores(xs, n - 1) || InScoringWindow(xs[n - 1]);
    }
  }

  /** With a collision and no score the message is the game-over one. */
  lemma {:induction false} CheckObstaclesMessageOver(p: Pass, cubeY: real, xs: seq<real>, ys: seq<real>, n: nat)
    requires n <= |xs| && n <= |ys|
    requires SomeCollides(cubeY, xs, ys, n)
    requires !(p.timer >= ScoringTimeInterval && SomeScores(xs, n))
    ensures CheckObstacles(p, cubeY, xs, ys, n).message == Over
  {
    CheckObstaclesScore(p, cubeY, xs, ys, n - 1);
    CheckObstacleEffect(CheckObstacles(p, cubeY, xs, ys, n - 1), cubeY, xs[n - 1], ys[n - 1]);
    assert !(p.timer >= ScoringTimeInterval && SomeScores(xs, n - 1));
    if !Collides(cubeY, xs[n - 1], ys[n - 1]) {
      assert SomeCollides(cubeY, xs, ys, n - 1);
      CheckObstaclesMessageOver(p, cubeY, xs, ys, n - 1);
    }
  }

  // ----- moveObstacles -----

  /** Every obstacle moves left by movingSpeed*dt; one that was past the
      left bound first jumps to the pre-pass maximum plus the obstacle
      distance and takes a fresh gap, and no other gap changes. */
  lemma MoveObstaclesPool(s: GameState, dt: real, draws: seq<real>)
    requires |s.xs| == |s.ys| == |draws|
    ensures var r := MoveObstacles(s, dt, draws);
      var m := MaxOf(MaxSeed, s.xs);
      var t := Translation(s.movingSpeed, dt);
      && |r.xs| == |s.xs| && |r.ys| == |s.ys|
      && (forall i :: 0 <= i < |s.xs| && s.xs[i] < LeftBound ==>
            r.xs[i] == m + ObstacleDistance - t && r.ys[i] == GapCentre(draws[i]))
      && (forall i :: 0 <= i < |s.xs| && !(s.xs[i] < LeftBound) ==>
            r.xs[i] == s.xs[i] - t && r.ys[i] == s.ys[i])
      && (ValidDraws(draws) ==> forall i :: 0 <= i < |s.ys| && s.xs[i] < LeftBound ==> InGapRange(r.ys[i]))
  {
  }

  /** The maximum the recycled obstacles are placed after is the largest x
      of the pool whenever some x is at least the loop's seed. */
  lemma MaxIsPoolMaximum(xs: seq<real>)
    requires exists k :: 0 <= k < |xs| && xs[k] >= MaxSeed
    ensures exists k :: 0 <= k < |xs| && xs[k] == MaxOf(MaxSeed, xs)
    ensures forall k :: 0 <= k < |xs| ==> xs[k] <= MaxOf(MaxSeed, xs)
  {
  }

  /** One pass scores at most one point: exactly one when the advanced
      timer has run out and some moved obstacle's scoring position lies in
      the cube's extent; the timer is then reset. */
  lemma MoveObstaclesScore(s: GameState, dt: real, draws: seq<real>)
    requires |s.xs| == |s.ys| == |draws|
    ensures var r := MoveObstacles(s, dt, draws);
      var scored := s.scoringTimer + dt >= ScoringTimeInterval && SomeScores(r.xs, |r.xs|);
      && r.score == s.score + (if scored then 1 else 0)
      && r.scoringTimer == (if scored then 0.0 else s.scoringTimer + dt)
  {
    var r := MoveObstacles(s, dt, draws);
    CheckObstaclesScore(Pass(s.score, s.scoringTimer + dt, s.message, false), s.cubeY, r.xs, r.ys, |r.xs|);
  }

  /** The pass ends the game iff the cube collides with some moved obstacle,
      and then stops the obstacles and the cube; the cube's height and the
      other flags are left alone. */
  lemma MoveObstaclesDeath(s: GameState, dt: real, draws: seq<real>)
    requires |s.xs| == |s.ys| == |draws|
    ensures var r := MoveObstacles(s, dt, draws);
      var hit := SomeCollides(s.cubeY, r.xs, r.ys, |r.xs|);
      && r.gameOver == (s.gameOver || hit)
      && (hit ==> r.cubeSpeedY == 0.0 && r.movingSpeed == 0.0 && r.tint == Grey)
      && (!hit ==> r.cubeSpeedY == s.cubeSpeedY && r.movingSpeed == s.movingSpeed && r.tint == s.tint)
      && r.cubeY == s.cubeY && r.cubeDied == s.cubeDied && r.gameStarted == s.gameStarted
  {
    var r := MoveObstacles(s, dt, draws);
    CheckObstaclesHit(Pass(s.score, s.scoringTimer + dt, s.message, false), s.cubeY, r.xs, r.ys, |r.xs|);
  }

  /** The message after a pass: the game-over text after a collision that no score
      accompanies, the milestone of the new score after a score without a
      collision, and otherwise unchanged. */
  lemma MoveObstaclesMessage(s: GameState, dt: real, draws: seq<real>)
    requires |s.xs| == |s.ys| == |draws|
    ensures var r := MoveObstacles(s, dt, draws);
      var hit := SomeCollides(s.cubeY, r.xs, r.ys, |r.xs|);
      var scored := s.scoringTimer + dt >= ScoringTimeInterval && SomeScores(r.xs, |r.xs|);
      && (hit && !scored ==> r.message == Over)
      && (!hit ==> r.message == if scored then Milestone(s.score + 1, s.message) else s.message)
  {
    var r := MoveObstacles(s, dt, draws);
    var p := Pass(s.score, s.scoringTimer + dt, s.message, false);
    if SomeCollides(s.cubeY, r.xs, r.ys, |r.xs|) {
      if !(p.timer >= ScoringTimeInterval && SomeScores(r.xs, |r.xs|)) {
        CheckObstaclesMessageOver(p, s.cubeY, r.xs, r.ys, |r.xs|);
      }
    } else {
      CheckObstaclesMessageAlive(p, s.cubeY, r.xs, r.ys, |r.xs|);
    }
  }

  // ----- Messages and the end of the game -----

  /** From ten points upwards the milestone message depends on the score
      alone; below ten the message is kept. */
  lemma MilestoneDependsOnScore(score: int, m1: Message, m2: Message)
    ensures score >= 10 ==> Milestone(score, m1) == Milestone(score, m2)
    ensures score >= 10 ==> Milestone(score, m1) in {NotBad, VeryGood, Excellent, Hero}
    ensures score < 10 ==> Milestone(score, m1) == m1
  {
  }

  lemma EndGameIdempotent(s: GameState)
    ensures EndGame(EndGame(s)) == EndGame(s)
  {
  }

  // ----- cubeUpdate -----

  /** The drop is dt*v + g*dt^2/2 rounded up to a whole unit. */
  lemma FallenSnapsUp(y: real, v: real, dt: real)
    ensures var d := y - Fallen(y, v, dt);
      dt * v + G * dt * dt / 2.0 <= d < dt * v + G * dt * dt / 2.0 + 1.0 && d == d.Floor as real
  {
  }

  /** Between floor and ceiling the cube simply integrates; the flap key
      has replaced its speed before. */
  lemma CubeUpdateFree(s: GameState, dt: real, keyDown: bool)
    requires var y1 := Fallen(s.cubeY, Flap(s.cubeSpeedY, keyDown), dt); Floor <= y1 <= Ceiling
    ensures CubeUpdate(s, dt, keyDown)
         == s.(cubeY := Fallen(s.cubeY, Flap(s.cubeSpeedY, keyDown), dt),
               cubeSpeedY := Flap(s.cubeSpeedY, keyDown) + G * dt)
    ensures keyDown ==> CubeUpdate(s, dt, keyDown).cubeSpeedY == -CubeFlySpeedY + G * dt
  {
  }

  /** A ceiling hit clamps the cube and stops it without ending the game. */
  lemma CubeUpdateCeiling(s: GameState, dt: real, keyDown: bool)
    requires Fallen(s.cubeY, Flap(s.cubeSpeedY, keyDown), dt) > Ceiling
    ensures var r := CubeUpdate(s, dt, keyDown);
      r == s.(cubeY := Ceiling, cubeSpeedY := 0.0)
  {
  }

  /** A floor hit ends the game and kills the cube in the same frame, with
      both speeds zeroed. */
  lemma CubeUpdateFloor(s: GameState, dt: real, keyDown: bool)
    requires Fallen(s.cubeY, Flap(s.cubeSpeedY, keyDown), dt) < Floor
    ensures var r := CubeUpdate(s, dt, keyDown);
      && r.cubeY == Floor && r.gameOver && r.cubeDied
      && r.cubeSpeedY == 0.0 && r.movingSpeed == 0.0
      && r.message == Over && r.tint == Grey
      && r.score == s.score && r.xs == s.xs && r.ys == s.ys
  {
  }

  /** The flap key overrides the speed: what the cube had before is irrelevant. */
  lemma FlapOverridesSpeed(s: GameState, dt: real, v: real)
    ensures CubeUpdate(s, dt, true) == CubeUpdate(s.(cubeSpeedY := v), dt, true)
  {
  }

  // ----- cubeFall -----

  /** After falling the cube is never below the floor, the game stays over
      and neither the pool nor the score changes. */
  lemma CubeFallAboveFloor(s: GameState, dt: real)
    requires |s.xs| == |s.ys|
    ensures var r := CubeFall(s, dt);
      && r.cubeY >= Floor
      && r.gameOver == s.gameOver && r.xs == s.xs && r.ys == s.ys && r.score == s.score
  {
  }

  /** The cube rests on the first obstacle it has sunk into, and is then
      dead. */
  lemma CubeFallLanding(s: GameState, dt: real, k: nat)
    requires |s.xs| == |s.ys| && k < |s.xs|
    requires var y1 := Fallen(s.cubeY, s.cubeSpeedY, dt);
      var y2 := if y1 < Floor then Floor else y1;
      && LandsOn(y2, s.xs[k], s.ys[k])
      && forall j :: 0 <= j < k ==> !LandsOn(y2, s.xs[j], s.ys[j])
    ensures var r := CubeFall(s, dt);
      && r.cubeY == LandingY(s.ys[k]) && r.cubeDied
      && r.cubeSpeedY == s.cubeSpeedY + G * dt
  {
  }

  /** With no obstacle to land on the cube stays where gravity and the
      floor put it, and it dies when it reaches the floor. */
  lemma CubeFallFree(s: GameState, dt: real)
    requires |s.xs| == |s.ys|
    requires var y1 := Fallen(s.cubeY, s.cubeSpeedY, dt);
      var y2 := if y1 < Floor then Floor else y1;
      forall k :: 0 <= k < |s.xs| ==> !LandsOn(y2, s.xs[k], s.ys[k])
    ensures var r := CubeFall(s, dt);
      var y1 := Fallen(s.cubeY, s.cubeSpeedY, dt);
      && r.cubeY == (if y1 < Floor then Floor else y1)
      && r.cubeDied == (s.cubeDied || y1 < Floor)
      && r.cubeSpeedY == s.cubeSpeedY + G * dt
  {
  }

  // ----- waitReStart -----

  /** With the key up, waiting for the restart changes nothing. */
  lemma WaitRestartKeyUp(s: GameState, draws: seq<real>)
    ensures WaitRestart(s, false, draws) == s
  {
  }

  /** The restart keeps the spacing of the pool and puts its leftmost
      obstacle at x = 0; it draws new gaps, resets the cube's height, the
      score, the speed and the flags, but keeps the cube's vertical speed
      and the scoring timer. */
  lemma WaitRestartResets(s: GameState, draws: seq<real>)
    requires ValidDraws(draws) && |s.xs| == PoolSize
    ensures var r := WaitRestart(s, true, draws);
      && |r.xs| == |s.xs| && |r.ys| == |draws|
      && (forall i, j :: 0 <= i < |s.xs| && 0 <= j < |s.xs| ==> r.xs[i] - r.xs[j] == s.xs[i] - s.xs[j])
      && (forall i :: 0 <= i < |r.ys| ==> InGapRange(r.ys[i]))
      && r.cubeY == 0.0 && r.score == 0 && r.movingSpeed == InitialMovingSpeed
      && !r.gameOver && !r.cubeDied && r.gameStarted == s.gameStarted && r.message == ComeOn
      && r.cubeSpeedY == s.cubeSpeedY && r.scoringTimer == s.scoringTimer
  {
  }

  /** After the restart the leftmost obstacle is at x = 0, unless every
      obstacle was beyond the loop's seed 10000. */
  lemma WaitRestartLeftmostAtZero(s: GameState, draws: seq<real>)
    requires exists k :: 0 <= k < |s.xs| && s.xs[k] <= MinSeed
    ensures var r := WaitRestart(s, true, draws);
      && (forall i :: 0 <= i < |r.xs| ==> r.xs[i] >= 0.0)
      && (exists i :: 0 <= i < |r.xs| && r.xs[i] == 0.0)
  {
    var m := MinOf(MinSeed, s.xs);
    var k: nat :| k < |s.xs| && (s.xs[k] == m || (m == MinSeed && s.xs[k] <= MinSeed));
    var r := WaitRestart(s, true, draws);
    assert r.xs[k] == 0.0;
  }

  // ----- draw -----

  /** Every frame keeps the invariant, whichever behaviour it runs. */
  lemma TickKeepsInv(s: GameState, dt: real, keyDown: bool, draws: seq<real>)
    requires Inv(s) && dt >= 0.0 && ValidDraws(draws)
    ensures Inv(Tick(s, dt, keyDown, draws))
  {
    match PhaseOf(s)
    case WaitingToStart =>
    case Playing =>
      MoveObstaclesKeepsInv(s, dt, draws);
    case Dying =>
      CubeFallAboveFloor(s, dt);
    case WaitingToRestart =>
  }

  /** A pass keeps the invariant: the gaps stay in range, the timer stays
      non-negative, and speed and tint follow whether a collision ended the
      game. */
  lemma MoveObstaclesKeepsInv(s: GameState, dt: real, draws: seq<real>)
    requires Inv(s) && s.gameStarted && !s.gameOver && dt >= 0.0 && ValidDraws(draws)
    ensures Inv(MoveObstacles(s, dt, draws))
  {
    MoveObstaclesPool(s, dt, draws);
    MoveObstaclesScore(s, dt, draws);
    MoveObstaclesDeath(s, dt, draws);
  }

  /** Exactly one behaviour per frame, and the transitions between them:
      only the flap key leaves the two waiting phases, play may end in the
      falling phase or directly in the wait for restart, and falling ends
      in the wait for restart. The game never returns to waiting for the
      start. */
  lemma TickPhases(s: GameState, dt: real, keyDown: bool, draws: seq<real>)
    requires Inv(s) && ValidDraws(draws)
    ensures var r := Tick(s, dt, keyDown, draws);
      && (PhaseOf(s) == WaitingToStart ==> PhaseOf(r) == (if keyDown then Playing else WaitingToStart))
      && (PhaseOf(s) == Playing ==> PhaseOf(r) != WaitingToStart)
      && (PhaseOf(s) == Dying ==> PhaseOf(r) == Dying || PhaseOf(r) == WaitingToRestart)
      && (PhaseOf(s) == WaitingToRestart ==> PhaseOf(r) == (if keyDown then Playing else WaitingToRestart))
      && (s.gameStarted ==> r.gameStarted)
  {
  }

  /** Outside the restart a frame adds at most one point. */
  lemma TickScoresAtMostOne(s: GameState, dt: real, keyDown: bool, draws: seq<real>)
    requires |s.xs| == |s.ys| == |draws|
    ensures var r := Tick(s, dt, keyDown, draws);
      r.score == s.score || r.score == s.score + 1
      || (r.score == 0 && PhaseOf(s) == WaitingToRestart && keyDown)
  {
    if PhaseOf(s) == Playing {
      MoveObstaclesScore(s, dt, draws);
    }
  }

  /** A floor hit while playing skips the falling phase. */
  lemma FloorDeathSkipsFalling(s: GameState, dt: real, keyDown: bool, draws: seq<real>)
    requires Inv(s) && ValidDraws(draws) && PhaseOf(s) == Playing
    requires var m := MoveObstacles(s, dt, draws);
      Fallen(m.cubeY, Flap(m.cubeSpeedY, keyDown), dt) < Floor
    ensures var r := Tick(s, dt, keyDown, draws);
      PhaseOf(r) == WaitingToRestart && r.cubeY == Floor
  {
  }

  /** A collision in the pass does not stop the cube update of the same
      frame: with the key held, the dead cube still takes the flap speed. */
  lemma CollisionStillFlaps(s: GameState, dt: real, draws: seq<real>)
    requires Inv(s) && ValidDraws(draws) && PhaseOf(s) == Playing
    requires MoveObstacles(s, dt, draws).gameOver
    requires var m := MoveObstacles(s, dt, draws);
      Floor <= Fallen(m.cubeY, -CubeFlySpeedY, dt) <= Ceiling
    ensures var r := Tick(s, dt, true, draws);
      PhaseOf(r) == Dying && r.cubeSpeedY == -CubeFlySpeedY + G * dt && r.movingSpeed == 0.0
  {
  }

  /** While the cube falls after a collision the pool and the score stay put. */
  lemma DyingFreezesPool(s: GameState, dt: real, keyDown: bool, draws: seq<real>)
    requires Inv(s) && ValidDraws(draws) && PhaseOf(s) == Dying
    ensures var r := Tick(s, dt, keyDown, draws);
      r.xs == s.xs && r.ys == s.ys && r.score == s.score && r.gameOver
  {
  }

  // ----- Worked examples -----

  /** A cube at the height of the gap centre passes; one 200 units higher hits. */
  lemma CollisionExamples()
    ensures !Collides(0.0, CubeX, 0.0)
    ensures Collides(200.0, CubeX, 0.0)
  {
  }

  /** An obstacle off-screen at x = -600 in a pool whose rightmost obstacle
      is at 300 is recycled to 600 (in a frame of zero length) with a gap in range. */
  lemma RecycleExample(s: GameState, draws: seq<real>)
    requires ValidDraws(draws) && |s.ys| == PoolSize
    requires s.xs == [-600.0, 300.0, 0.0, -100.0, 200.0]
    ensures var r := MoveObstacles(s, 0.0, draws);
      r.xs[0] == 600.0 && InGapRange(r.ys[0]) && r.xs[1] == 300.0
  {
  }

  /** The tenth point brings the first milestone message. */
  lemma TenthPoint(s: GameState, dt: real, draws: seq<real>)
    requires |s.xs| == |s.ys| == |draws|
    requires s.score == 9 && s.scoringTimer + dt >= ScoringTimeInterval
    requires var r := MoveObstacles(s, dt, draws);
      SomeScores(r.xs, |r.xs|) && !SomeCollides(s.cubeY, r.xs, r.ys, |r.xs|)
    ensures MoveObstacles(s, dt, draws).score == 10
    ensures MoveObstacles(s, dt, draws).message == NotBad
  {
    MoveObstaclesScore(s, dt, draws);
    MoveObstaclesMessage(s, dt, draws);
  }
}
