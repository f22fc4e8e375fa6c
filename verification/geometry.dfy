/** Axis-aligned boxes as the scene library builds and compares them.
    A box is its two corners; `ExpandByScalar` moves every face outwards by
    the same amount (inwards for a negative amount); two boxes intersect
    unless some axis separates them. Touching faces count as intersecting,
    which is the library's convention; nothing proved elsewhere depends on it. */
module Geometry {

  datatype Vec3 = Vec3(x: real, y: real, z: real)

  datatype Box3 = Box3(min: Vec3, max: Vec3)

  function Abs(r: real): (a: real)
    ensures a >= 0.0
    ensures a == r || a == -r
  {
    if r < 0.0 then -r else r
  }

  /** The world-space box of a mesh whose geometry is a cube of half-extent
      `half`, placed without rotation at `c`. */
  function BoxAround(c: Vec3, half: real): Box3
  {
    Box3(Vec3(c.x - half, c.y - half, c.z - half), Vec3(c.x + half, c.y + half, c.z + half))
  }

  function ExpandByScalar(b: Box3, s: real): Box3
  {
    Box3(Vec3(b.min.x - s, b.min.y - s, b.min.z - s), Vec3(b.max.x + s, b.max.y + s, b.max.z + s))
  }

  /** The interval [lo2, hi2] lies wholly on one side of [lo1, hi1]. */
  predicate Separated(lo1: real, hi1: real, lo2: real, hi2: real)
  {
    hi2 < lo1 || lo2 > hi1
  }

  predicate IntersectsBox(a: Box3, b: Box3)
  {
    !(|| Separated(a.min.x, a.max.x, b.min.x, b.max.x)
      || Separated(a.min.y, a.max.y, b.min.y, b.max.y)
      || Separated(a.min.z, a.max.z, b.min.z, b.max.z))
  }

  /** Shrinking a centred cube by `s` gives the centred cube of half-extent `half - s`. */
  lemma ShrunkBox(c: Vec3, half: real, s: real)
    ensures ExpandByScalar(BoxAround(c, half), -s) == BoxAround(c, half - s)
  {
  }

  /** Two centred boxes intersect exactly when, on every axis, their centres
      are no further apart than the sum of their half-extents. */
  lemma CentredBoxesIntersect(c1: Vec3, h1: real, c2: Vec3, h2: real)
    ensures IntersectsBox(BoxAround(c1, h1), BoxAround(c2, h2)) <==>
              && Abs(c1.x - c2.x) <= h1 + h2
              && Abs(c1.y - c2.y) <= h1 + h2
              && Abs(c1.z - c2.z) <= h1 + h2
  {
  }
}
