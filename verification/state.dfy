/** The game's mutable globals, gathered into one immutable record. */
module State {

  import opened Lanes
  import opened Obstacles

  const InitialSpeed: real := 0.5
  /** The hand position before any hand has been seen: the centre. */
  const InitialHandX: real := 0.5
  /** Points scored for every obstacle that passes the player. */
  const ScoreStep: int := 10
  /** Speed added for every obstacle that passes the player. */
  const SpeedStep: real := 0.005

  datatype GameState = GameState(score: int, speed: real, isGameOver: bool, isPlaying: bool)

  /** Everything the game logic reads or writes. `draws` counts the lanes
      taken so far from the random source, so that the `n`-th random lane is
      `rng(n)` for a caller-supplied `rng`. */
  datatype World = World(game: GameState, playerX: real, handX: real, obstacles: seq<Obstacle>, draws: nat)

  /** Every obstacle sits on a lane centre at ground height and none is
      beyond the removal depth. */
  predicate WellPlaced(obs: seq<Obstacle>)
  {
    forall j :: 0 <= j < |obs| ==> obs[j].y == GroundY && IsLaneX(obs[j].x) && obs[j].z <= RemoveDepth
  }

  /** The state after start-up, before any hand has been seen. */
  function InitialWorld(rng: nat -> LaneIndex): (w: World)
    ensures !w.game.isPlaying && !w.game.isGameOver
    ensures w.game.score == 0 && w.game.speed > 0.0
    ensures |w.obstacles| == ObstacleCount && WellPlaced(w.obstacles)
    ensures w.draws == |w.obstacles|
    ensures w.playerX == 0.0 && TargetX(w.handX) == 0.0
  {
    World(GameState(0, InitialSpeed, false, false), 0.0, InitialHandX, InitialLayout(rng), ObstacleCount)
  }
}
