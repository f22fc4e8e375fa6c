/** Obstacles: where they are created, where they start, and when one
    collides with the player. Each obstacle and the player are 2x2x2 cubes;
    the player's box is shrunk by a forgiveness margin before the test. */
module Obstacles {

  import opened Geometry
  import opened Lanes

  /** Number of obstacles laid out at start-up. */
  const ObstacleCount: nat := 10
  /** Depth of the nearest initial obstacle. */
  const FirstDepth: real := -20.0
  /** Depth gap between consecutive initial obstacles. */
  const Spacing: real := 30.0
  /** Depth at which a replacement obstacle is created. */
  const SpawnDepth: real := -100.0
  /** An obstacle whose depth exceeds this has passed the player. */
  const RemoveDepth: real := 10.0
  /** Height of the centre of the player and of every obstacle. */
  const GroundY: real := 1.0
  /** Depth of the player, which never moves along the track. */
  const PlayerZ: real := 0.0
  /** Half the edge of every cube. */
  const HalfExtent: real := 1.0
  /** How far each face of the player's box is pulled in before testing. */
  const Forgiveness: real := 0.2
  /** Largest centre distance, per axis, at which the two boxes still meet. */
  const Reach: real := (HalfExtent - Forgiveness) + HalfExtent

  datatype Obstacle = Obstacle(x: real, y: real, z: real)

  /** A new obstacle at depth `z` in the given lane. */
  function Spawn(lane: LaneIndex, z: real): (o: Obstacle)
    ensures o.y == GroundY && o.z == z
    ensures IsLaneX(o.x)
    ensures o.x < 0.0 <==> lane < 0
    ensures o.x > 0.0 <==> lane > 0
  {
    Obstacle(LaneOffset(lane), GroundY, z)
  }

  function InitialDepth(i: nat): real
  {
    FirstDepth - (i as real) * Spacing
  }

  /** The start-up layout, the `i`-th obstacle taking the `i`-th random lane. */
  function InitialLayout(rng: nat -> LaneIndex): (obs: seq<Obstacle>)
    ensures |obs| == ObstacleCount
    ensures forall i :: 0 <= i < |obs| ==> obs[i].y == GroundY && IsLaneX(obs[i].x)
    ensures forall i :: 0 <= i < |obs| ==> obs[i].z == -20.0 - 30.0 * (i as real)
    ensures forall i, j :: 0 <= i < j < |obs| ==> obs[j].z < obs[i].z
    ensures forall i, j :: 0 <= i < |obs| && 0 <= j < |obs| && i != j ==> obs[i].z != obs[j].z
    ensures forall i :: 0 <= i < |obs| ==> obs[i].z <= FirstDepth
  {
    var obs := seq(ObstacleCount, i requires 0 <= i => Spawn(rng(i), InitialDepth(i)));
    assert forall i :: 0 <= i < |obs| ==> obs[i] == Spawn(rng(i), InitialDepth(i));
    obs
  }

  /** The start-up loop: ten successive spawns, each pushed at the end. */
  method SpawnInitialObstacles(rng: nat -> LaneIndex) returns (obs: seq<Obstacle>)
    ensures obs == InitialLayout(rng)
  {
    obs := [];
    var i: nat := 0;
    while i < ObstacleCount
      invariant i <= ObstacleCount
      invariant |obs| == i
      invariant forall j :: 0 <= j < i ==> obs[j] == Spawn(rng(j), InitialDepth(j))
    {
      obs := obs + [Spawn(rng(i), InitialDepth(i))];
      i := i + 1;
    }
  }

  function PlayerBox(playerX: real): Box3
  {
    ExpandByScalar(BoxAround(Vec3(playerX, GroundY, PlayerZ), HalfExtent), -Forgiveness)
  }

  function ObstacleBox(o: Obstacle): Box3
  {
    BoxAround(Vec3(o.x, o.y, o.z), HalfExtent)
  }

  /** The per-obstacle collision test of the obstacle tick. */
  function Collides(playerX: real, o: Obstacle): (hit: bool)
    ensures hit <==> && Abs(playerX - o.x) <= Reach
                     && Abs(GroundY - o.y) <= Reach
                     && Abs(PlayerZ - o.z) <= Reach
  {
    ShrunkBox(Vec3(playerX, GroundY, PlayerZ), HalfExtent, Forgiveness);
    CentredBoxesIntersect(Vec3(playerX, GroundY, PlayerZ), HalfExtent - Forgiveness, Vec3(o.x, o.y, o.z), HalfExtent);
    IntersectsBox(PlayerBox(playerX), ObstacleBox(o))
  }

  /** A player at a lane centre hits an obstacle of the same lane level with it. */
  lemma SameLaneSameDepthCollides(lane: LaneIndex)
    ensures Collides(LaneOffset(lane), Spawn(lane, PlayerZ))
  {
    var x := LaneOffset(lane);
    assert Spawn(lane, PlayerZ) == Obstacle(x, GroundY, PlayerZ);
    assert Abs(x - x) == 0.0 && Abs(GroundY - GroundY) == 0.0 && Reach == 1.8;
  }

  /** A player at a lane centre never hits an obstacle of another lane:
      the lanes are 4 apart and the boxes reach only 1.8. */
  lemma OtherLaneNeverCollides(lane: LaneIndex, other: LaneIndex, z: real)
    requires lane != other
    ensures !Collides(LaneOffset(lane), Spawn(other, z))
  {
  }

  /** An obstacle that has passed the removal depth is out of reach. */
  lemma PassedNeverCollides(playerX: real, o: Obstacle)
    requires o.z > RemoveDepth
    ensures !Collides(playerX, o)
  {
  }
}
