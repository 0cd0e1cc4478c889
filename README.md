# Flappy Cube — a verified model of the game loop

Flappy Cube is a browser game. A cube at a fixed horizontal position
falls under gravity. While the flap key is held it is pushed upwards.
A pool of five obstacles scrolls from right to left, and each obstacle
is a pair of columns with a gap. Passing an obstacle scores a point, and
touching a column or the floor ends the game. After a collision the cube
falls until it rests on the floor or on a lower column. The round restarts
in the first frame after that in which the key is down.

This project models the game logic of `scripts/game.js`: the frame
dispatcher `draw`, and the routines `moveObstacles`, `cubeUpdate`,
`cubeFall`, `waitStart`, `waitReStart`, `gameOverFun` and the position
set-up of `initObstacles`. It is split into four modules:

- `Field` (field.dfy) holds the constants of the game, the rounding up of
  the fall, the random gap centre and the geometric tests between the cube
  and one obstacle.
- `Rules` (rules.dfy) holds the whole game state as a value (`GameState`),
  with one function per routine that says what the routine does to it.
  The obstacle pass of moveObstacles is a fold (`CheckObstacles`) over the
  obstacles in index order.
- `Properties` (properties.dfy) holds the lemmas about those functions.
- `FlappyCube` (game.dfy) is the game as the page runs it. Class `Game`
  holds the global variables as fields and the obstacle positions in two
  arrays (`obstacleX`, `obstacleY`). Each method updates the object in
  place with the loops of the source. `Tick`, `WaitStart`,
  `MoveObstacles`, `CubeUpdate`, `CubeFall` and `WaitRestart` are proved
  to leave the object in the state that the function of the same name in
  `Rules` computes from the old state (`Model()`); `Sweep` likewise
  against `Rules.Sweep`. The loops and steps they are built from have
  their own contracts: `MaxX`, `MinX` and `LandingIndex` return
  `MaxOf`, `MinOf` and `FirstLanding` of the arrays; `Shift` leaves the
  arrays equal to `Normalised` and `Redrawn`; `CheckObstacle` advances
  the accumulated score, timer, message and hit flag (`PassSoFar()`) by
  `Rules.CheckObstacle`; `EndGame` states each field it writes and that
  the others are unchanged.

Inputs are parameters of each frame:
- `dt` is the time since the last frame, which the page reads from its
  clock;
- `keyDown` is whether the flap key is down;
- `draws` holds one value of `Math.random` in [0, 1) per obstacle slot.
  Slot i uses `draws[i]` whenever it needs a new gap.

The message line of the page is the `Message` datatype, and `Rules.Text`
gives its exact strings. The score shown is the `score` field.

Behaviour of game.js that the model keeps:
- cubeFall has no ceiling clamp, so after a collision a cube that still
  rises is not kept under the ceiling; the ceiling bound is proved only
  while the game is not over.
- waitStart and waitReStart test whether the key is down in a frame; the
  model takes that key state for each frame.
- The frame time is applied as given, whatever its sign. `TickKeepsInv`,
  `MoveObstaclesKeepsInv` and `Game.Tick` assume dt >= 0, as the clock
  guarantees, because the scoring timer must stay non-negative.
- The set-up loop runs while `i < 1000/300 + 1`, which creates five slots.
- `CollisionExamples` puts the obstacle at the cube's x = -1000/3.

## Model

| member | source | states |
|---|---|---|
| Field.Ceil | scripts/game.js:307 | Math.ceil: the result is the least integer not below the argument |
| Field.GapCentre | scripts/game.js:262 | a new gap centre drawn from a random value in [0,1) lies in [-0.9(H/2 - I/2), 0.9(H/2 - I/2)) |
| Rules.Initial | scripts/game.js:206-232 | the state at load: obstacle i at x = 300 i with a drawn gap, and the global variables at their initial values of lines 11-30 |
| Rules.WaitStart | scripts/game.js:325-329 | waitStart: the key down starts the game, otherwise nothing changes |
| Rules.EndGame | scripts/game.js:372-378 | gameOverFun: game over, both speeds zero, "Game Over", grey cube |
| Rules.Milestone | scripts/game.js:273-284 | the message for a new score: "Not Bad!" from 10, "Very good!" from 20, "Excellent!" from 50, "You are the hero!" from 100, and the old message below 10 |
| Rules.CheckObstacle | scripts/game.js:266-294 | the scoring check, then the collision check, of one moved obstacle on the accumulated score, timer, message and hit flag |
| Rules.Sweep | scripts/game.js:257-295 | the loop of moveObstacles: every obstacle recycled if past the left bound, moved by the translation, then checked, in index order |
| Rules.MoveObstacles | scripts/game.js:243-296 | moveObstacles: maximum and translation taken before the pass, timer advanced by dt, then the pass; a collision ends the game |
| Rules.CubeFall | scripts/game.js:383-404 | cubeFall: gravity, the floor clamp, then rest on the first obstacle sunk into |
| Rules.WaitRestart | scripts/game.js:334-368 | waitReStart: with the key down, the pool shifted so its minimum x is 0, new gaps, cube at y = 0 and red, moving speed 80, both flags cleared, score 0, "Come on!"; the cube's speed and the scoring timer are kept; with the key up nothing changes |
| Rules.Tick | scripts/game.js:165-180 | draw: waitStart before the start, moveObstacles then cubeUpdate while playing, waitReStart once the cube is dead, cubeFall otherwise |
| Field.Collides | scripts/game.js:288-291 | the cube overlaps the obstacle horizontally, edges included, and is not strictly inside the gap |
| Field.InScoringWindow | scripts/game.js:266-268 | the obstacle's right edge plus one cube size lies within the cube's horizontal extent |
| Field.LandsOn | scripts/game.js:396-398 | the cube's x is strictly within half an obstacle width plus a third of a cube size of the obstacle's x, and its y is below the height at which it rests on the lower column |
| Field.Drop | scripts/game.js:307 | the fall of one frame, dt v + g dt^2/2 rounded up |
| Rules.Redrawn | scripts/game.js:351-356 | one new gap per slot, and for valid draws every new gap is in range |
| Rules.MaxOf | scripts/game.js:248-255 | the running maximum seeded with -10000 is at least the seed, bounds every x, and is either the seed or one of the x's |
| Rules.MinOf | scripts/game.js:343-349 | the running minimum seeded with 10000 is at most the seed, below every x, and is either the seed or one of the x's |
| Rules.CheckObstacles | scripts/game.js:257-295 | the checks of a pass never lower the score |
| Rules.CubeUpdate | scripts/game.js:301-320 | after cubeUpdate the cube lies between floor and ceiling |
| Rules.FirstLanding | scripts/game.js:394-403 | the index found is the first obstacle the falling cube has sunk into; none found means it has sunk into none |
| FlappyCube.Game.constructor | scripts/game.js:206-232 | load time: five obstacles at x = 300 i with drawn gaps, global variables at their initial values, invariant established |
| FlappyCube.Game.Tick | scripts/game.js:165-180 | one frame updates the object exactly as Rules.Tick dispatches on the flags, and keeps the invariant |
| FlappyCube.Game.WaitStart | scripts/game.js:325-329 | waitStart in place equals Rules.WaitStart |
| FlappyCube.Game.EndGame | scripts/game.js:372-378 | gameOverFun sets game over, zeroes both speeds, shows "Game Over", greys the cube, and changes nothing else |
| FlappyCube.Game.MaxX | scripts/game.js:248-255 | the first loop of moveObstacles computes MaxOf(-10000, x's) and changes nothing |
| FlappyCube.Game.MinX | scripts/game.js:343-349 | the first loop of waitReStart computes MinOf(10000, x's) and changes nothing |
| FlappyCube.Game.MoveObstacles | scripts/game.js:243-296 | moveObstacles in place equals Rules.MoveObstacles on the old state |
| FlappyCube.Game.Sweep | scripts/game.js:257-295 | the second loop of moveObstacles leaves the arrays scrolled and regapped and the score, timer, message and flags as the fold of the checks gives them |
| FlappyCube.Game.CheckObstacle | scripts/game.js:266-294 | scoring and then collision checks of one moved obstacle, as Rules.CheckObstacle |
| FlappyCube.Game.CubeUpdate | scripts/game.js:301-320 | cubeUpdate in place equals Rules.CubeUpdate |
| FlappyCube.Game.CubeFall | scripts/game.js:383-404 | cubeFall in place equals Rules.CubeFall |
| FlappyCube.Game.LandingIndex | scripts/game.js:394-403 | the loop of cubeFall stops at the first obstacle the cube has sunk into (FirstLanding) or runs to the end |
| FlappyCube.Game.WaitRestart | scripts/game.js:334-368 | waitReStart in place equals Rules.WaitRestart |
| FlappyCube.Game.Shift | scripts/game.js:351-356 | the second loop of waitReStart subtracts the minimum from every x and draws every gap anew |
| Properties.PoolSizeFromInitLoop | scripts/game.js:206 | the set-up loop bound i < 1000/300 + 1 admits exactly the indices 0 .. 4 |
| Properties.InitialIsValid | scripts/game.js:206-232 | the loaded state satisfies the invariant, waits for the start, and has obstacle i at x = 300 i |
| Properties.CheckObstacleEffect | scripts/game.js:266-294 | one obstacle: scores iff in the window with the timer run out; a collision sets "Game Over" and the hit flag |
| Properties.CheckObstaclesScore | scripts/game.js:266-285 | a pass adds one point exactly when the timer has run out and some obstacle is in the window, and then resets the timer |
| Properties.CheckObstaclesHit | scripts/game.js:288-294 | a pass calls gameOverFun iff some obstacle collides |
| Properties.CheckObstaclesMessageAlive | scripts/game.js:273-284 | without a collision the message becomes the new score's milestone if the pass scored, and is kept otherwise |
| Properties.CheckObstaclesMessageOver | scripts/game.js:288-293 | with a collision and no score the message is "Game Over" |
| Properties.MoveObstaclesPool | scripts/game.js:257-264 | every obstacle moves left by movingSpeed dt; one past the left bound first goes to the pre-pass maximum plus 300 with a new gap; no other gap changes |
| Properties.MaxIsPoolMaximum | scripts/game.js:248-255 | when some x is at least -10000 the maximum is the largest x of the pool |
| Properties.MoveObstaclesScore | scripts/game.js:256-285 | the timer advances by dt, and the pass scores at most one point, scoring exactly when the advanced timer has run out and some moved obstacle is in the window |
| Properties.MoveObstaclesDeath | scripts/game.js:288-293 | the pass ends the game iff some moved obstacle collides, then zeroes both speeds and greys the cube; the cube's height and other flags stay |
| Properties.MoveObstaclesMessage | scripts/game.js:266-293 | the message after a pass: "Game Over" after a collision without a score, the milestone after a score without a collision, otherwise unchanged |
| Properties.MoveObstaclesKeepsInv | scripts/game.js:243-296 | a pass keeps the gaps in range, the timer non-negative, and speed and tint in step with game over |
| Properties.MilestoneDependsOnScore | scripts/game.js:273-284 | from 10 points on the message is one of the four milestones and depends on the score alone; below 10 it is kept |
| Properties.EndGameIdempotent | scripts/game.js:372-378 | gameOverFun twice is gameOverFun once |
| Properties.FallenSnapsUp | scripts/game.js:307 | the drop per frame is dt v + g dt^2/2 rounded up to a whole unit |
| Properties.CubeUpdateFree | scripts/game.js:303-308 | between floor and ceiling the cube only integrates, after the key has forced the speed to -270 |
| Properties.CubeUpdateCeiling | scripts/game.js:316-319 | a ceiling hit clamps the cube and zeroes its speed without ending the game |
| Properties.CubeUpdateFloor | scripts/game.js:310-314 | a floor hit ends the game and kills the cube in the same frame, clamped to the floor, leaving score and pool |
| Properties.FlapOverridesSpeed | scripts/game.js:303-305 | with the key down the cube's previous speed has no effect |
| Properties.CubeFallAboveFloor | scripts/game.js:383-404 | after falling the cube is not below the floor; game over, pool and score are unchanged |
| Properties.CubeFallLanding | scripts/game.js:394-402 | the cube rests on the first obstacle it has sunk into and is then dead |
| Properties.CubeFallFree | scripts/game.js:385-391 | with nothing to land on the cube is where gravity and the floor put it, dead only if at the floor |
| Properties.WaitRestartKeyUp | scripts/game.js:335 | without the key the restart changes nothing |
| Properties.WaitRestartResets | scripts/game.js:334-368 | with the key: spacing of the pool kept, new gaps in range, cube at 0, score 0, speed 80, flags reset, "Come on!"; cube speed and scoring timer kept |
| Properties.WaitRestartLeftmostAtZero | scripts/game.js:343-353 | after the restart no obstacle is left of x = 0 and one is at x = 0 |
| Properties.TickKeepsInv | scripts/game.js:165-180 | every frame keeps the invariant (cube above the floor, below the ceiling while playing, gaps in range, speed and tint in step with game over) |
| Properties.TickPhases | scripts/game.js:165-180 | exactly one behaviour per frame and the allowed transitions between waiting, playing, dying and waiting to restart |
| Properties.TickScoresAtMostOne | scripts/game.js:165-180 | a frame adds at most one point, and only the restart resets the score |
| Properties.FloorDeathSkipsFalling | scripts/game.js:168-174 | a floor hit while playing goes straight to waiting for the restart, with the cube on the floor |
| Properties.CollisionStillFlaps | scripts/game.js:168-171 | the cube update still runs in the frame of a collision: a held key gives the dead cube the flap speed |
| Properties.DyingFreezesPool | scripts/game.js:172-178 | while the cube falls the pool and score do not change and the game stays over |
| Properties.CollisionExamples | scripts/game.js:288-291 | a cube at the gap centre's height passes an obstacle at its x; one 200 higher hits it |
| Properties.RecycleExample | scripts/game.js:259-264 | an obstacle at -600 in a pool whose rightmost is at 300 is recycled to 600 with a gap in range |
| Properties.TenthPoint | scripts/game.js:269-274 | the tenth point brings "Not Bad!" |

## Left out

- Rendering, the scene and camera set-up, lights, materials and
  `requestAnimationFrame` are not modelled. They do not affect the game
  state.
- The clock (`clock.getDelta`), the keyboard (`Key.isDown`) and
  `Math.random` are parameters of each frame: `dt`, `keyDown` and `draws`.
  Which random values a frame actually consumes is not modelled. Every
  slot that needs a gap takes its own draw.
- Writing the score and the message into the page is modelled by the
  `score` and `message` fields. The page's own text before the first
  message is `PageText`, which is not part of this model.
- The cube's colours are the two tints firebrick and grey, not hex values.
- The game's numbers are JavaScript doubles. The model uses exact reals,
  so rounding errors of floating point are not modelled.
- The z coordinates and the columns' heights play no part in the game
  logic and are left out.
- cubeFlyHeight and fieldDepth are declared but never used by the game
  logic. They are left out.
- Properties.MoveObstaclesMessage: does not state the message when a
  collision and a score happen in the same pass. The message then depends
  on which obstacle the loop checks last.
- Properties.WaitRestartLeftmostAtZero: assumes some obstacle is at or left
  of x = 10000, the seed of the minimum loop; otherwise the pool is shifted
  by 10000.
- Properties.MaxIsPoolMaximum: assumes some obstacle is at or right of
  x = -10000, the seed of the maximum loop.
- Properties.TickKeepsInv: assumes dt >= 0, which the clock guarantees.
- Properties.MoveObstaclesKeepsInv: assumes dt >= 0, for the same reason.
