/** The obstacle tick. The list is walked from its last index down to 0;
    each obstacle is advanced by the current speed and tested against the
    player, and one that has passed the removal depth is spliced out, scored,
    and replaced by a new obstacle pushed at the end of the list. The walk
    goes on after a collision, and the speed raised by one removal already
    applies to the obstacles visited after it. */
module Tick {

  import opened Lanes
  import opened Obstacles
  import opened State

  function Advance(o: Obstacle, speed: real): Obstacle
  {
    o.(z := o.z + speed)
  }

  /** The body of the walk for index `k`. */
  function Visit(w: World, k: nat, rng: nat -> LaneIndex): (w': World)
    requires k < |w.obstacles|
    ensures |w'.obstacles| == |w.obstacles|
    ensures w'.obstacles[..k] == w.obstacles[..k]
    ensures w.draws <= w'.draws <= w.draws + 1
    ensures w'.draws == w.draws + 1 <==> Advance(w.obstacles[k], w.game.speed).z > RemoveDepth
    ensures w'.draws == w.draws + 1 ==> w'.obstacles[|w'.obstacles| - 1] == Spawn(rng(w.draws), SpawnDepth)
    ensures w'.game.score == w.game.score + ScoreStep * (w'.draws - w.draws)
    ensures w'.game.speed == w.game.speed + SpeedStep * (w'.draws - w.draws) as real
    ensures w'.game.isGameOver <==> w.game.isGameOver || Collides(w.playerX, Advance(w.obstacles[k], w.game.speed))
    ensures w'.game.isPlaying == w.game.isPlaying && w'.playerX == w.playerX && w'.handX == w.handX
    ensures WellPlaced(w.obstacles) ==> WellPlaced(w'.obstacles)
  {
    var moved := Advance(w.obstacles[k], w.game.speed);
    var over := w.game.isGameOver || Collides(w.playerX, moved);
    if moved.z > RemoveDepth then
      w.(obstacles := w.obstacles[..k] + w.obstacles[k + 1..] + [Spawn(rng(w.draws), SpawnDepth)],
         game := w.game.(isGameOver := over, score := w.game.score + ScoreStep, speed := w.game.speed + SpeedStep),
         draws := w.draws + 1)
    else
      w.(obstacles := w.obstacles[k := moved], game := w.game.(isGameOver := over))
  }

  /** The walk over indices `i - 1` down to 0. */
  function SpliceLoop(w: World, i: nat, rng: nat -> LaneIndex): (w': World)
    requires i <= |w.obstacles|
    ensures |w'.obstacles| == |w.obstacles|
    ensures w.draws <= w'.draws <= w.draws + i
    ensures w'.game.score == w.game.score + ScoreStep * (w'.draws - w.draws)
    ensures w'.game.speed == w.game.speed + SpeedStep * (w'.draws - w.draws) as real
    ensures w.game.isGameOver ==> w'.game.isGameOver
    ensures w'.game.isPlaying == w.game.isPlaying && w'.playerX == w.playerX && w'.handX == w.handX
    ensures WellPlaced(w.obstacles) ==> WellPlaced(w'.obstacles)
    decreases i
  {
    if i == 0 then w else SpliceLoop(Visit(w, i - 1, rng), i - 1, rng)
  }

  /** The obstacle tick: nothing at all happens once the game is over. */
  function UpdateObstacles(w: World, rng: nat -> LaneIndex): (w': World)
    ensures w.game.isGameOver ==> w' == w
    ensures |w'.obstacles| == |w.obstacles|
    ensures w.draws <= w'.draws <= w.draws + |w.obstacles|
    ensures w'.game.score == w.game.score + ScoreStep * (w'.draws - w.draws)
    ensures w'.game.speed == w.game.speed + SpeedStep * (w'.draws - w.draws) as real
    ensures w.game.isGameOver ==> w'.game.isGameOver
    ensures w'.game.isPlaying == w.game.isPlaying && w'.playerX == w.playerX && w'.handX == w.handX
    ensures WellPlaced(w.obstacles) ==> WellPlaced(w'.obstacles)
  {
    if w.game.isGameOver then w else SpliceLoop(w, |w.obstacles|, rng)
  }

  // An independent description of the tick, without index shuffling: take
  // the obstacles from the back, keep the survivors in their order at the
  // front and queue the replacements behind them.

  datatype Pass = Pass(kept: seq<Obstacle>, spawned: seq<Obstacle>, score: int, speed: real, hit: bool, draws: nat)

  /** The `n` obstacles created from random lanes `from`, `from + 1`, ... */
  function Spawns(rng: nat -> LaneIndex, from: nat, n: nat): (s: seq<Obstacle>)
    ensures |s| == n
    decreases n
  {
    if n == 0 then [] else [Spawn(rng(from), SpawnDepth)] + Spawns(rng, from + 1, n - 1)
  }

  /** The `j`-th replacement takes the `j`-th lane drawn and is still at the
      spawn depth, at ground height and on a lane centre. */
  lemma {:induction false} SpawnsAt(rng: nat -> LaneIndex, from: nat, n: nat, j: nat)
    requires j < n
    ensures Spawns(rng, from, n)[j] == Spawn(rng(from + j), SpawnDepth)
    ensures Spawns(rng, from, n)[j].z == SpawnDepth && Spawns(rng, from, n)[j].y == GroundY
    ensures IsLaneX(Spawns(rng, from, n)[j].x)
    decreases n
  {
    if j > 0 {
      SpawnsAt(rng, from + 1, n - 1, j - 1);
    }
  }

  /** Every obstacle of `obs` moved forward by `speed`. */
  function AdvanceAll(obs: seq<Obstacle>, speed: real): (moved: seq<Obstacle>)
    ensures |moved| == |obs|
  {
    seq(|obs|, j requires 0 <= j < |obs| => Advance(obs[j], speed))
  }

  lemma AdvanceAllSnoc(obs: seq<Obstacle>, speed: real)
    requires |obs| > 0
    ensures AdvanceAll(obs, speed) == AdvanceAll(obs[..|obs| - 1], speed) + [Advance(obs[|obs| - 1], speed)]
  {
  }

  function PartitionStep(playerX: real, o: Obstacle, p: Pass, rng: nat -> LaneIndex): Pass
  {
    var moved := Advance(o, p.speed);
    var hit := p.hit || Collides(playerX, moved);
    if moved.z > RemoveDepth then
      Pass(p.kept, p.spawned + [Spawn(rng(p.draws), SpawnDepth)], p.score + ScoreStep, p.speed + SpeedStep, hit, p.draws + 1)
    else
      Pass([moved] + p.kept, p.spawned, p.score, p.speed, hit, p.draws)
  }

  /** Sorts the `pending` obstacles, last first, into survivors and replacements. */
  function Partition(playerX: real, pending: seq<Obstacle>, p: Pass, rng: nat -> LaneIndex): (r: Pass)
    ensures |r.kept| + |r.spawned| == |pending| + |p.kept| + |p.spawned|
    ensures p.draws <= r.draws <= p.draws + |pending|
    ensures p.hit ==> r.hit
    decreases |pending|
  {
    if |pending| == 0 then p
    else
      var last := |pending| - 1;
      Partition(playerX, pending[..last], PartitionStep(playerX, pending[last], p, rng), rng)
  }

  lemma {:induction false} SpawnsAppend(rng: nat -> LaneIndex, from: nat, m: nat, n: nat)
    ensures Spawns(rng, from, m) + Spawns(rng, from + m, n) == Spawns(rng, from, m + n)
    decreases m
  {
    if m > 0 {
      SpawnsAppend(rng, from + 1, m - 1, n);
    }
  }

  lemma SpawnsChain(rng: nat -> LaneIndex, s: seq<Obstacle>, from: nat, m: nat, n: nat)
    ensures (s + Spawns(rng, from, m)) + Spawns(rng, from + m, n) == s + Spawns(rng, from, m + n)
  {
    SpawnsAppend(rng, from, m, n);
  }

  /** One step of the partition either keeps the advanced obstacle at the
      front or queues one replacement, never both. */
  lemma StepFacts(playerX: real, o: Obstacle, p: Pass, rng: nat -> LaneIndex)
    ensures var p' := PartitionStep(playerX, o, p, rng);
            && p.draws <= p'.draws <= p.draws + 1
            && (p'.draws == p.draws <==> Advance(o, p.speed).z <= RemoveDepth)
            && p'.spawned == p.spawned + Spawns(rng, p.draws, p'.draws - p.draws)
            && (p'.draws == p.draws ==> p'.kept == [Advance(o, p.speed)] + p.kept && p'.speed == p.speed)
            && (p'.draws != p.draws ==> p'.kept == p.kept)
  {
  }

  /** The replacements are queued in the order of their random lanes, all
      at the spawn depth. */
  lemma {:induction false} PartitionSpawns(playerX: real, pending: seq<Obstacle>, p: Pass, rng: nat -> LaneIndex)
    ensures var r := Partition(playerX, pending, p, rng);
            r.spawned == p.spawned + Spawns(rng, p.draws, r.draws - p.draws)
    decreases |pending|
  {
    if |pending| > 0 {
      var last := |pending| - 1;
      var p' := PartitionStep(playerX, pending[last], p, rng);
      StepFacts(playerX, pending[last], p, rng);
      PartitionSpawns(playerX, pending[..last], p', rng);
      var r := Partition(playerX, pending[..last], p', rng);
      assert r == Partition(playerX, pending, p, rng);
      SpawnsChain(rng, p.spawned, p.draws, p'.draws - p.draws, r.draws - p'.draws);
    }
  }

  lemma SuffixCons(s: seq<Obstacle>, at: nat, o: Obstacle, rest: seq<Obstacle>)
    requires at <= |s| && s[at..] == [o] + rest
    ensures s[at] == o && s[at + 1..] == rest
  {
  }

  /** The survivors are placed in front of those already kept, none of them
      past the removal depth. */
  lemma {:induction false} PartitionSurvivors(playerX: real, pending: seq<Obstacle>, p: Pass, rng: nat -> LaneIndex)
    ensures var r := Partition(playerX, pending, p, rng);
            && |p.kept| <= |r.kept| && r.kept[|r.kept| - |p.kept|..] == p.kept
            && (forall j :: 0 <= j < |r.kept| - |p.kept| ==> r.kept[j].z <= RemoveDepth)
    decreases |pending|
  {
    if |pending| > 0 {
      var last := |pending| - 1;
      var p' := PartitionStep(playerX, pending[last], p, rng);
      StepFacts(playerX, pending[last], p, rng);
      PartitionSurvivors(playerX, pending[..last], p', rng);
      var r := Partition(playerX, pending[..last], p', rng);
      assert r == Partition(playerX, pending, p, rng);
      if p'.draws == p.draws {
        SuffixCons(r.kept, |r.kept| - |p'.kept|, Advance(pending[last], p.speed), p.kept);
      }
    }
  }

  /** A pass without removals moves every obstacle by exactly the speed. */
  lemma {:induction false} PartitionWithoutRemoval(playerX: real, pending: seq<Obstacle>, p: Pass, rng: nat -> LaneIndex)
    ensures var r := Partition(playerX, pending, p, rng);
            r.draws == p.draws ==> r.kept == AdvanceAll(pending, p.speed) + p.kept
    decreases |pending|
  {
    if |pending| > 0 {
      var last := |pending| - 1;
      var p' := PartitionStep(playerX, pending[last], p, rng);
      StepFacts(playerX, pending[last], p, rng);
      PartitionWithoutRemoval(playerX, pending[..last], p', rng);
      var r := Partition(playerX, pending[..last], p', rng);
      if r.draws == p.draws {
        AdvanceAllSnoc(pending, p.speed);
        assert r.kept == AdvanceAll(pending[..last], p.speed) + ([Advance(pending[last], p.speed)] + p.kept);
      }
    }
  }

  /** A pass draws no lane exactly when every pending obstacle, moved by the
      starting speed, stays within the removal depth. */
  lemma {:induction false} PartitionRemovesNone(playerX: real, pending: seq<Obstacle>, p: Pass, rng: nat -> LaneIndex)
    ensures Partition(playerX, pending, p, rng).draws == p.draws
            <==> forall j :: 0 <= j < |pending| ==> Advance(pending[j], p.speed).z <= RemoveDepth
    decreases |pending|
  {
    if |pending| > 0 {
      var last := |pending| - 1;
      var p' := PartitionStep(playerX, pending[last], p, rng);
      StepFacts(playerX, pending[last], p, rng);
      PartitionRemovesNone(playerX, pending[..last], p', rng);
      assert Partition(playerX, pending, p, rng) == Partition(playerX, pending[..last], p', rng);
      assert forall j :: 0 <= j < last ==> pending[..last][j] == pending[j];
    }
  }

  /** One visit of the walk and one step of the partition do the same thing
      to the part of the list already walked. */
  lemma VisitIsStep(w: World, k: nat, p: Pass, rng: nat -> LaneIndex)
    requires k < |w.obstacles|
    requires w.obstacles[k + 1..] == p.kept + p.spawned
    requires w.game.score == p.score && w.game.speed == p.speed
    requires w.game.isGameOver == p.hit && w.draws == p.draws
    ensures var v := Visit(w, k, rng);
            var p' := PartitionStep(w.playerX, w.obstacles[k], p, rng);
            && v.obstacles[k..] == p'.kept + p'.spawned
            && v.obstacles[..k] == w.obstacles[..k]
            && v.game.score == p'.score && v.game.speed == p'.speed
            && v.game.isGameOver == p'.hit && v.draws == p'.draws
            && v.playerX == w.playerX
  {
  }

  /** The splice-and-push walk agrees with the partition, whatever the
      obstacles, the speed and the random lanes. */
  lemma {:induction false} SpliceLoopIsPartition(w: World, i: nat, p: Pass, rng: nat -> LaneIndex)
    requires i <= |w.obstacles|
    requires w.obstacles[i..] == p.kept + p.spawned
    requires w.game.score == p.score && w.game.speed == p.speed
    requires w.game.isGameOver == p.hit && w.draws == p.draws
    ensures var r := Partition(w.playerX, w.obstacles[..i], p, rng);
            var w' := SpliceLoop(w, i, rng);
            && w'.obstacles == r.kept + r.spawned
            && w'.game.score == r.score && w'.game.speed == r.speed
            && w'.game.isGameOver == r.hit && w'.draws == r.draws
    decreases i
  {
    if i > 0 {
      var k := i - 1;
      var v := Visit(w, k, rng);
      var p' := PartitionStep(w.playerX, w.obstacles[k], p, rng);
      VisitIsStep(w, k, p, rng);
      SpliceLoopIsPartition(v, k, p', rng);
      assert w.obstacles[..i][..k] == w.obstacles[..k];
      assert Partition(w.playerX, w.obstacles[..i], p, rng) == Partition(w.playerX, v.obstacles[..k], p', rng);
    }
  }

  /** The shape of the list after a tick in play: survivors first, none of
      them past the removal depth, then one replacement per removal in the
      order they were created, each still at the spawn depth because the
      walk never reaches the indices it pushes to. */
  lemma UpdateObstaclesShape(w: World, rng: nat -> LaneIndex)
    requires !w.game.isGameOver
    ensures var w' := UpdateObstacles(w, rng);
            var removed := w'.draws - w.draws;
            var n := |w.obstacles|;
            && 0 <= removed <= n
            && w'.obstacles[n - removed..] == Spawns(rng, w.draws, removed)
            && (forall j :: 0 <= j < n - removed ==> w'.obstacles[j].z <= RemoveDepth)
            && (removed == 0 ==> w'.obstacles == AdvanceAll(w.obstacles, w.game.speed))
  {
    var n := |w.obstacles|;
    var p := Pass([], [], w.game.score, w.game.speed, false, w.draws);
    assert w.obstacles[n..] == p.kept + p.spawned;
    assert w.obstacles[..n] == w.obstacles;
    SpliceLoopIsPartition(w, n, p, rng);
    PartitionSpawns(w.playerX, w.obstacles, p, rng);
    PartitionSurvivors(w.playerX, w.obstacles, p, rng);
    PartitionWithoutRemoval(w.playerX, w.obstacles, p, rng);
  }

  /** The obstacle `j` places from the end of the list after a tick that
      removed `removed > j` obstacles is a replacement created in that tick,
      still at the spawn depth: the walk did not advance it. */
  lemma ReplacementNotAdvanced(w: World, rng: nat -> LaneIndex, j: nat)
    requires !w.game.isGameOver
    requires j < UpdateObstacles(w, rng).draws - w.draws
    ensures var w' := UpdateObstacles(w, rng);
            var removed := w'.draws - w.draws;
            var at := |w.obstacles| - removed + j;
            && 0 <= at < |w'.obstacles|
            && w'.obstacles[at] == Spawn(rng(w.draws + j), SpawnDepth)
            && w'.obstacles[at].z == SpawnDepth
  {
    var w' := UpdateObstacles(w, rng);
    var removed := w'.draws - w.draws;
    var n := |w.obstacles|;
    UpdateObstaclesShape(w, rng);
    SpawnsAt(rng, w.draws, removed, j);
    assert w'.obstacles[n - removed + j] == w'.obstacles[n - removed..][j];
  }

  /** A tick in play removes nothing exactly when every obstacle, moved by
      the speed at the start of the tick, stays within the removal depth. */
  lemma UpdateObstaclesRemovesNone(w: World, rng: nat -> LaneIndex)
    requires !w.game.isGameOver
    ensures UpdateObstacles(w, rng).draws == w.draws
            <==> forall j :: 0 <= j < |w.obstacles| ==> Advance(w.obstacles[j], w.game.speed).z <= RemoveDepth
  {
    var n := |w.obstacles|;
    var p := Pass([], [], w.game.score, w.game.speed, false, w.draws);
    assert w.obstacles[n..] == p.kept + p.spawned;
    assert w.obstacles[..n] == w.obstacles;
    SpliceLoopIsPartition(w, n, p, rng);
    PartitionRemovesNone(w.playerX, w.obstacles, p, rng);
  }

  /** The collision flag does not steer the walk: a tick that starts with
      the flag raised moves, removes, scores and respawns exactly as one
      that starts with it lowered. */
  lemma {:induction false} SpliceLoopIgnoresFlag(w: World, i: nat, rng: nat -> LaneIndex)
    requires i <= |w.obstacles|
    ensures var a := SpliceLoop(w, i, rng);
            var b := SpliceLoop(w.(game := w.game.(isGameOver := true)), i, rng);
            && a.obstacles == b.obstacles && a.draws == b.draws
            && a.game.score == b.game.score && a.game.speed == b.game.speed
            && b.game.isGameOver
    decreases i
  {
    if i > 0 {
      var v := Visit(w, i - 1, rng);
      var u := Visit(w.(game := w.game.(isGameOver := true)), i - 1, rng);
      assert u == v.(game := v.game.(isGameOver := true));
      SpliceLoopIgnoresFlag(v, i - 1, rng);
    }
  }
}
