/** The game loop around the obstacle tick: the per-frame update guarded by
    the playing and game-over flags, and the hand-tracking callback that
    starts the game and stores the mirrored hand position. */
module Runner {

  import opened Geometry
  import opened Lanes
  import opened Obstacles
  import opened State
  import opened Tick

  /** One tick of player movement towards the lane the hand points at. */
  function UpdatePlayerPosition(w: World): (w': World)
    ensures w' == w.(playerX := w'.playerX)
    ensures Abs(TargetX(w.handX) - w'.playerX) == (1.0 - Easing) * Abs(TargetX(w.handX) - w.playerX)
    ensures w.playerX <= TargetX(w.handX) ==> w.playerX <= w'.playerX <= TargetX(w.handX)
    ensures TargetX(w.handX) <= w.playerX ==> TargetX(w.handX) <= w'.playerX <= w.playerX
  {
    EaseShrinksDistance(w.playerX, TargetX(w.handX));
    w.(playerX := Ease(w.playerX, TargetX(w.handX)))
  }

  /** One animation frame. */
  function Animate(w: World, rng: nat -> LaneIndex): (w': World)
    ensures !w.game.isPlaying || w.game.isGameOver ==> w' == w
    ensures |w'.obstacles| == |w.obstacles|
    ensures w.draws <= w'.draws <= w.draws + |w.obstacles|
    ensures w'.game.score == w.game.score + ScoreStep * (w'.draws - w.draws)
    ensures w'.game.speed == w.game.speed + SpeedStep * (w'.draws - w.draws) as real
    ensures w.game.isGameOver ==> w'.game.isGameOver
    ensures w'.game.isPlaying == w.game.isPlaying && w'.handX == w.handX
    ensures WellPlaced(w.obstacles) ==> WellPlaced(w'.obstacles)
    ensures -LaneWidth <= w.playerX <= LaneWidth ==> -LaneWidth <= w'.playerX <= LaneWidth
    ensures w.game.isPlaying && !w.game.isGameOver ==>
              Abs(TargetX(w.handX) - w'.playerX) == (1.0 - Easing) * Abs(TargetX(w.handX) - w.playerX)
    ensures w.game.isPlaying && !w.game.isGameOver && w'.draws == w.draws ==>
              w'.obstacles == AdvanceAll(w.obstacles, w.game.speed)
  {
    if !w.game.isGameOver && w.game.isPlaying then
      var moved := UpdatePlayerPosition(w);
      UpdateObstaclesShape(moved, rng);
      UpdateObstacles(moved, rng)
    else
      w
  }

  datatype Landmark = Landmark(x: real, y: real, z: real)

  /** The landmarks of one detected hand, in the tracker's numbering. */
  type Hand = seq<Landmark>

  /** What the tracker reports for one video frame: either no landmark list
      at all, or a (possibly empty) list of hands. */
  datatype HandResults = NoLandmarks | Hands(hands: seq<Hand>)

  /** The landmark read as the palm centre (the middle finger's knuckle). */
  const PalmLandmark: nat := 9

  /** The tracker callback. A first hand starts the game. A hand reported
      with too few landmarks makes the read of the palm landmark fail after
      the game has been started, so the hand position keeps its old value. */
  function OnResults(w: World, results: HandResults): (w': World)
    ensures w'.game.isPlaying <==> w.game.isPlaying || (results.Hands? && |results.hands| > 0)
    ensures results.Hands? && |results.hands| > 0 && |results.hands[0]| > PalmLandmark ==>
              w'.handX == Mirror(results.hands[0][PalmLandmark].x)
    ensures !(results.Hands? && |results.hands| > 0 && |results.hands[0]| > PalmLandmark) ==>
              w'.handX == w.handX
    ensures w' == w.(game := w.game.(isPlaying := w'.game.isPlaying), handX := w'.handX)
  {
    match results
    case NoLandmarks => w
    case Hands(hands) =>
      var started := w.(game := w.game.(isPlaying := w.game.isPlaying || |hands| > 0));
      if |hands| == 0 || |hands[0]| <= PalmLandmark then started
      else started.(handX := Mirror(hands[0][PalmLandmark].x))
  }

  /** What can happen between two states: a frame is drawn, or the tracker reports. */
  datatype Event = Frame | Tracked(results: HandResults)

  function Apply(w: World, e: Event, rng: nat -> LaneIndex): World
  {
    match e
    case Frame => Animate(w, rng)
    case Tracked(results) => OnResults(w, results)
  }

  /** A session: the events applied in order, the random lanes drawn from `rng`. */
  function Run(w: World, events: seq<Event>, rng: nat -> LaneIndex): (w': World)
    ensures |w'.obstacles| == |w.obstacles|
    ensures w.game.isPlaying ==> w'.game.isPlaying
    ensures w.game.isGameOver ==> w'.game.isGameOver
    ensures w.game.score <= w'.game.score && w.game.speed <= w'.game.speed
    decreases |events|
  {
    if |events| == 0 then w else Run(Apply(w, events[0], rng), events[1..], rng)
  }

  /** What holds of every state a session can reach: ten obstacles, all on
      lane centres and none past the removal depth; score and speed raised
      only together, once per random lane drawn after start-up; the player
      between the outer lanes; and no game over before play started. */
  predicate Consistent(w: World)
  {
    && |w.obstacles| == ObstacleCount
    && WellPlaced(w.obstacles)
    && w.draws >= ObstacleCount
    && w.game.score == ScoreStep * (w.draws - ObstacleCount)
    && w.game.speed == InitialSpeed + SpeedStep * (w.draws - ObstacleCount) as real
    && -LaneWidth <= w.playerX <= LaneWidth
    && (w.game.isGameOver ==> w.game.isPlaying)
  }

  lemma InitialConsistent(rng: nat -> LaneIndex)
    ensures Consistent(InitialWorld(rng))
  {
  }

  lemma ApplyKeepsConsistent(w: World, e: Event, rng: nat -> LaneIndex)
    requires Consistent(w)
    ensures Consistent(Apply(w, e, rng))
  {
    match e
    case Frame =>
      var w' := Animate(w, rng);
      assert w'.draws - ObstacleCount == (w.draws - ObstacleCount) + (w'.draws - w.draws);
    case Tracked(results) =>
  }

  /** Every state reachable from start-up is consistent; in particular the
      obstacle count stays ten and the speed stays positive. */
  lemma {:induction false} RunKeepsConsistent(w: World, events: seq<Event>, rng: nat -> LaneIndex)
    requires Consistent(w)
    ensures var w' := Run(w, events, rng);
            Consistent(w') && |w'.obstacles| == ObstacleCount && w'.game.speed >= InitialSpeed
    decreases |events|
  {
    if |events| > 0 {
      ApplyKeepsConsistent(w, events[0], rng);
      RunKeepsConsistent(Apply(w, events[0], rng), events[1..], rng);
    }
  }

  lemma ReachableConsistent(events: seq<Event>, rng: nat -> LaneIndex)
    ensures Consistent(Run(InitialWorld(rng), events, rng))
  {
    InitialConsistent(rng);
    RunKeepsConsistent(InitialWorld(rng), events, rng);
  }

  /** After a game over nothing moves or scores any more, whatever happens. */
  lemma {:induction false} FrozenAfterGameOver(w: World, events: seq<Event>, rng: nat -> LaneIndex)
    requires w.game.isGameOver
    ensures var w' := Run(w, events, rng);
            && w'.game.isGameOver
            && w'.game.score == w.game.score && w'.game.speed == w.game.speed
            && w'.obstacles == w.obstacles && w'.playerX == w.playerX && w'.draws == w.draws
    decreases |events|
  {
    if |events| > 0 {
      FrozenAfterGameOver(Apply(w, events[0], rng), events[1..], rng);
    }
  }

  /** Before the first hand is seen nothing moves either. */
  lemma {:induction false} IdleUntilHandSeen(w: World, events: seq<Event>, rng: nat -> LaneIndex)
    requires !w.game.isPlaying
    requires forall j :: 0 <= j < |events| ==> events[j] == Frame || events[j] == Tracked(NoLandmarks) || events[j] == Tracked(Hands([]))
    ensures Run(w, events, rng) == w
    decreases |events|
  {
    if |events| > 0 {
      IdleUntilHandSeen(Apply(w, events[0], rng), events[1..], rng);
    }
  }

  /** Speed raised in the middle of a tick: when the obstacle at index
      `k + 1` passes the player and is removed, the obstacle at index `k`,
      visited next, moves by the raised speed, and stays at index `k`
      exactly when it has not passed the player as well. */
  lemma LaterObstacleMovesAtRaisedSpeed(w: World, k: nat, rng: nat -> LaneIndex)
    requires k + 1 < |w.obstacles| && WellPlaced(w.obstacles)
    requires Advance(w.obstacles[k + 1], w.game.speed).z > RemoveDepth
    ensures var v := Visit(w, k + 1, rng);
            && v.game.speed == w.game.speed + SpeedStep
            && (Visit(v, k, rng).obstacles[k] == Advance(w.obstacles[k], w.game.speed + SpeedStep)
                <==> Advance(w.obstacles[k], w.game.speed + SpeedStep).z <= RemoveDepth)
  {
  }

  /** A collision does not end the walk: after the obstacle at index `k + 1`
      hits the player, the obstacle at index `k` is still visited. If it
      stays within the removal depth it is advanced in place; otherwise it
      is removed, scored and replaced at the end of the list. */
  lemma WalkContinuesAfterCollision(w: World, k: nat, rng: nat -> LaneIndex)
    requires k + 1 < |w.obstacles|
    requires Collides(w.playerX, Advance(w.obstacles[k + 1], w.game.speed))
    ensures var u := Visit(Visit(w, k + 1, rng), k, rng);
            && u.game.isGameOver
            && (Advance(w.obstacles[k], w.game.speed).z <= RemoveDepth ==>
                  && u.draws == w.draws
                  && u.obstacles[k] == Advance(w.obstacles[k], w.game.speed)
                  && u.obstacles[k + 1] == Advance(w.obstacles[k + 1], w.game.speed))
            && (Advance(w.obstacles[k], w.game.speed).z > RemoveDepth ==>
                  && u.draws == w.draws + 1
                  && u.game.score == w.game.score + ScoreStep
                  && u.game.speed == w.game.speed + SpeedStep
                  && u.obstacles[k] == Advance(w.obstacles[k + 1], w.game.speed)
                  && u.obstacles[|w.obstacles| - 1] == Spawn(rng(w.draws), SpawnDepth))
  {
  }
}
