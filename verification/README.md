# Gesture runner: game-logic model

A Dafny model of the game logic of the gesture-controlled endless runner
(`cases/gesture-runner/script.js`). The player is a cube that moves between
three lanes. The lane follows the horizontal position of the palm, as
reported by a hand tracker. Cubes on the track come towards the player at a
speed that rises slightly for every cube that passes. A cube that reaches
the player's box, shrunk by 0.2 on every face, ends the game.

The model covers:

- **Lanes** (`lanes.dfy`): the palm position is mapped to a target lane.
  The tracker's x coordinate is mirrored. The player eases towards the
  target by a tenth of the remaining distance per frame.
- **Obstacles** (`obstacles.dfy`, `geometry.dfy`):
  - the start-up layout of ten cubes;
  - how a cube is created in a random lane;
  - the axis-aligned box test used for collisions, with the player's box
    shrunk by 0.2 on every face.
- **The obstacle tick** (`tick.dfy`): the backward walk over the obstacle
  list. It moves each cube and tests it for a collision. It removes a cube
  that has passed the player with `splice` and pushes a replacement at the
  back. A removal scores 10 and adds 0.005 to the speed, and does so in the
  middle of the walk. The walk is tied to an independent reference,
  `Partition`: the survivors keep their order and sit in front of the
  replacements, queued in the order they were created.
- **The loop** (`state.dfy`, `runner.dfy`):
  - the frame update, guarded by the playing and game-over flags;
  - the tracker callback, which starts the game and stores the mirrored
    palm position;
  - whole sessions as sequences of frames and tracker reports;
  - an invariant over every reachable state.

`Math.random` becomes a caller-supplied stream of lanes,
`rng: nat -> LaneIndex`. The world counts how many lanes it has drawn
(`draws`), so the `n`-th obstacle ever created takes lane `rng(n)`.
Coordinates and speed are `real`.

Facts of the code that the model keeps:

- ten obstacles are laid out at start-up (script.js:100);
- replacements appear at depth -100 (script.js:180);
- a passed obstacle is spliced out of the list and a new one is pushed at
  its end (script.js:170, 180);
- the easing factor is 0.1 (script.js:144);
- the walk over the obstacles goes on after `gameOver()` within the same
  tick, so obstacles visited after the hit still move, score and respawn
  (script.js:163-168);
- the speed raised by a removal already applies to the obstacles visited
  later in the same tick (script.js:153, 177).

Helpers that carry no row below: `Geometry.Abs` (absolute value, used to
state the collision test per axis), `Lanes.PowPositive` (powers of 0.9 are
positive), `Tick.AdvanceAll` and `Tick.AdvanceAllSnoc` (every obstacle moved
by one speed, used to state a tick without removals), `Tick.SpawnsAppend`,
`Tick.SpawnsChain` and `Tick.SuffixCons` (list algebra for the proof that
the walk matches the reference pass).

## Model

| member | source | states |
|---|---|---|
| Lanes.LaneOffset | cases/gesture-runner/script.js:110-112 | a lane index is placed at the centre of its lane, 4 apart: negative lanes left of the middle, positive lanes right of it |
| Lanes.TargetX | cases/gesture-runner/script.js:133-141 | the target is always a lane centre: the left lane exactly when the hand is below 0.4, the right lane exactly when it is above 0.6, the middle lane exactly when it lies in [0.4, 0.6] |
| Lanes.TargetMonotone | cases/gesture-runner/script.js:133-141 | moving the hand right never moves the target lane left |
| Lanes.TargetMirrorSymmetric | cases/gesture-runner/script.js:133-141 | the lane thresholds are symmetric about the centre: mirroring the hand position mirrors the target |
| Lanes.Mirror | cases/gesture-runner/script.js:239 | the mirrored coordinate stays in [0, 1], swaps the two halves of the frame and keeps the distance from the centre |
| Lanes.MirrorInvolution | cases/gesture-runner/script.js:239 | mirroring twice gives the original coordinate back |
| Lanes.Ease | cases/gesture-runner/script.js:144 | one easing step leaves nine tenths of the distance to the target, and stays between the old position and the target |
| Lanes.EaseShrinksDistance | cases/gesture-runner/script.js:144 | the absolute distance to the target shrinks by the factor 0.9 per step |
| Lanes.EaseTimesDistance | cases/gesture-runner/script.js:144 | after `n` frames towards a fixed target the distance left is 0.9^n times the starting distance |
| Lanes.EaseNeverArrives | cases/gesture-runner/script.js:144 | easing never reaches a target it did not start on |
| Lanes.EaseStaysOnTrack | cases/gesture-runner/script.js:133-144 | a player between the outer lane centres stays there after a step |
| Geometry.ShrunkBox | cases/gesture-runner/script.js:157-161 | shrinking a cube's box by a scalar gives the box of the same centre with the half-edge reduced by it |
| Geometry.CentredBoxesIntersect | cases/gesture-runner/script.js:163 | two centred boxes intersect exactly when, on every axis, the centre distance is at most the sum of the half-edges |
| Obstacles.Spawn | cases/gesture-runner/script.js:105-117 | a new obstacle sits at ground height, at the requested depth, at the centre of the drawn lane, on the side that the lane's sign says |
| Obstacles.InitialLayout | cases/gesture-runner/script.js:99-103 | ten obstacles on lane centres at depths -20, -50, ..., -290: strictly receding, pairwise distinct and none nearer than -20 |
| Obstacles.SpawnInitialObstacles | cases/gesture-runner/script.js:99-103 | the start-up loop of ten pushes builds exactly the start-up layout |
| Obstacles.Collides | cases/gesture-runner/script.js:157-165 | the box test with the shrunk player box hits exactly when the centres are within 1.8 on every axis |
| Obstacles.SameLaneSameDepthCollides | cases/gesture-runner/script.js:157-165 | a player at a lane centre hits an obstacle of that lane at the player's depth |
| Obstacles.OtherLaneNeverCollides | cases/gesture-runner/script.js:157-165 | a player at a lane centre never hits an obstacle of a different lane, whatever its depth |
| Obstacles.PassedNeverCollides | cases/gesture-runner/script.js:163-168 | an obstacle beyond the removal depth is out of reach of the player |
| State.InitialWorld | cases/gesture-runner/script.js:1-18 | start-up: not playing, not over, score 0, positive speed, ten well-placed obstacles, player in the middle lane, hand aimed at the middle lane |
| Tick.Visit | cases/gesture-runner/script.js:152-181 | one visit keeps the list length and the part not yet walked. It draws a lane exactly when the moved obstacle passes the removal depth, and then queues that lane's obstacle at the end. It raises score and speed in step with the draws, and latches the game-over flag exactly on a hit |
| Tick.SpliceLoop | cases/gesture-runner/script.js:151-182 | the walk keeps the list length and well-placedness, draws at most one lane per visit, raises score and speed together per draw, and never clears the game-over flag |
| Tick.UpdateObstacles | cases/gesture-runner/script.js:147-183 | a tick after game over changes nothing; otherwise the walk's guarantees hold for the whole list |
| Tick.Spawns | cases/gesture-runner/script.js:180 | `n` successive replacements are `n` obstacles long |
| Tick.SpawnsAt | cases/gesture-runner/script.js:105-117 | the `j`-th replacement of a run takes the `j`-th lane drawn and sits at depth -100, at ground height, on a lane centre |
| Tick.Partition | cases/gesture-runner/script.js:151-182 | the reference pass accounts for every obstacle (kept or replaced), draws at most one lane per obstacle, and never forgets a hit |
| Tick.StepFacts | cases/gesture-runner/script.js:153-181 | one step keeps the moved obstacle without drawing exactly when it stays within the removal depth, and otherwise queues one replacement |
| Tick.PartitionSpawns | cases/gesture-runner/script.js:168-181 | the replacements are queued in the order their lanes were drawn, all at the spawn depth |
| Tick.PartitionSurvivors | cases/gesture-runner/script.js:151-181 | the survivors go in front of the obstacles already kept, none beyond the removal depth |
| Tick.PartitionWithoutRemoval | cases/gesture-runner/script.js:151-153 | a pass that removes nothing moves every obstacle by the same speed |
| Tick.VisitIsStep | cases/gesture-runner/script.js:152-181 | one visit of the walk and one step of the reference pass agree on the walked part of the list, score, speed, flag and draws |
| Tick.SpliceLoopIsPartition | cases/gesture-runner/script.js:151-182 | the splice-and-push walk and the reference pass agree for every list, speed and lane stream |
| Tick.UpdateObstaclesShape | cases/gesture-runner/script.js:147-183 | after a tick in play the survivors come first, none beyond the removal depth, then one replacement per removal in creation order. With no removal, every obstacle has moved by the speed |
| Tick.ReplacementNotAdvanced | cases/gesture-runner/script.js:151-180 | a replacement pushed during a tick is still at the spawn depth after it, because the walk only visits indices below the length it started from |
| Tick.PartitionRemovesNone | cases/gesture-runner/script.js:153-168 | the reference pass draws no lane exactly when every obstacle, moved by the starting speed, stays within the removal depth |
| Tick.UpdateObstaclesRemovesNone | cases/gesture-runner/script.js:147-181 | a tick in play removes nothing exactly when every obstacle, moved by the speed at the start of the tick, stays within the removal depth |
| Tick.SpliceLoopIgnoresFlag | cases/gesture-runner/script.js:163-168 | the collision flag does not steer the walk: it moves, removes, scores and respawns the same with the flag raised |
| Runner.UpdatePlayerPosition | cases/gesture-runner/script.js:126-145 | only the player's x changes; it moves towards the target lane and keeps nine tenths of the distance |
| Runner.Animate | cases/gesture-runner/script.js:191-204 | a frame changes nothing unless the game is playing and not over. In play it eases the player, keeping nine tenths of the distance to the target lane, and a frame without removals moves every obstacle by the speed. In every case it keeps the obstacle count and well-placedness, raises score and speed together, never clears the game-over flag and keeps the player on the track |
| Runner.OnResults | cases/gesture-runner/script.js:210-241 | the first report with a hand starts the game, and nothing stops it. A hand with a palm landmark sets the mirrored palm x, anything else leaves it. Nothing else changes |
| Runner.Run | cases/gesture-runner/script.js:185-241 | over a session the obstacle count is kept, playing and game-over stay set once set, and score and speed never fall |
| Runner.InitialConsistent | cases/gesture-runner/script.js:1-18 | start-up satisfies the session invariant |
| Runner.ApplyKeepsConsistent | cases/gesture-runner/script.js:191-241 | every frame and every tracker report preserves the session invariant |
| Runner.RunKeepsConsistent | cases/gesture-runner/script.js:147-241 | every session from a consistent state ends consistent: ten obstacles, and a speed never below the initial 0.5 |
| Runner.ReachableConsistent | cases/gesture-runner/script.js:1-241 | every state reachable from start-up is consistent: ten well-placed obstacles, score and speed both fixed by the number of removals, player on the track, no game over before play starts |
| Runner.FrozenAfterGameOver | cases/gesture-runner/script.js:191-196 | after a game over no frame moves, scores or respawns anything |
| Runner.IdleUntilHandSeen | cases/gesture-runner/script.js:191-216 | until a report with a hand arrives, frames and empty reports leave the state untouched |
| Runner.LaterObstacleMovesAtRaisedSpeed | cases/gesture-runner/script.js:151-181 | in any list of well-placed obstacles, when the obstacle at index `k + 1` is removed, the speed rises by 0.005, and the obstacle at index `k`, visited next, moves by the raised speed; it stays at index `k` exactly when it has not passed the player too |
| Runner.WalkContinuesAfterCollision | cases/gesture-runner/script.js:163-181 | in any list, after the obstacle at index `k + 1` hits the player, the game-over flag is set and the obstacle at index `k` is still visited: if it stays within the removal depth it is advanced in place beside the hit one, otherwise it is removed, scored, sped up and replaced at the end of the list |

## Left out

- Rendering: the Three.js scene, camera, lights, ground, lane markers, materials, shadows and the resize handler. None of them affects the game logic.
- DOM writes: the score text, the game-over panel and the loading text.
- The frame scheduler and the render call. Each `requestAnimationFrame` callback is a `Frame` event.
- The camera and the tracker setup and their calls. Each tracker callback is a `Tracked` event with the reported landmarks.
- Obstacles.Spawn: `Math.random` is not modelled. The lane comes from the caller-supplied stream, which yields only -1, 0 or 1, as `floor(random * 3) - 1` does.
- Floating-point arithmetic: positions and speed are exact reals. Rounding of the repeated 0.005 speed steps and of the easing is not modelled.
- Obstacles.Collides: covers only cube-shaped boxes centred on the objects, which is what `setFromObject` yields for these unrotated 2x2x2 meshes. Touching faces count as intersecting. The lemmas about collisions hold either way, because they never use a boundary case.
- Object identity and disposal: destroying a mesh and creating a new one is modelled as removing a value and appending a new value.
- Runner.OnResults: does not model the exception a reported hand with fewer than ten landmarks raises. The model keeps the state that exists at that point: play started, hand position unchanged.
