/** Small value types shared by the 2D and 3D simulations: vectors over the
    reals, the squared-distance test that stands for `glm::length(a - b) <= r`,
    and `std::round` (round half away from zero). */
module Geometry {

  datatype Vec2 = Vec2(x: real, y: real)
  datatype Vec3 = Vec3(x: real, y: real, z: real)

  function Add2(a: Vec2, b: Vec2): Vec2 { Vec2(a.x + b.x, a.y + b.y) }
  function Scale2(k: real, a: Vec2): Vec2 { Vec2(k * a.x, k * a.y) }
  function Add3(a: Vec3, b: Vec3): Vec3 { Vec3(a.x + b.x, a.y + b.y, a.z + b.z) }
  function Scale3(k: real, a: Vec3): Vec3 { Vec3(k * a.x, k * a.y, k * a.z) }

  function Sq(v: real): real { v * v }

  /** Squared Euclidean distance in the plane. */
  function DistSq2(a: Vec2, b: Vec2): real { Sq(a.x - b.x) + Sq(a.y - b.y) }

  /** Squared Euclidean distance in space. */
  function DistSq3(a: Vec3, b: Vec3): real { Sq(a.x - b.x) + Sq(a.y - b.y) + Sq(a.z - b.z) }

  /** `glm::length(a - b) <= r` for a non-negative radius r, without the square root. */
  predicate Within2(a: Vec2, b: Vec2, r: real) { DistSq2(a, b) <= r * r }

  predicate Within3(a: Vec3, b: Vec3, r: real) { DistSq3(a, b) <= r * r }

  /** `std::round`: the nearest integer, halves rounded away from zero. */
  function Round(x: real): (r: int)
    ensures x >= 0.0 ==> r as real <= x + 0.5 < r as real + 1.0
    ensures x < 0.0 ==> r as real - 1.0 < x - 0.5 <= r as real
  {
    if x >= 0.0 then (x + 0.5).Floor else -((-x + 0.5).Floor)
  }

  /** Rounding moves a value by at most one half, and is symmetric about zero. */
  lemma RoundIsNearest(x: real)
    ensures -0.5 <= Round(x) as real - x <= 0.5
    ensures Round(-x) == -Round(x)
  {
  }

  /** Rounding leaves integers where they are. */
  lemma RoundOfInteger(k: int)
    ensures Round(k as real) == k
  {
  }

  /** Halves go away from zero: 0.5 becomes 1 and -0.5 becomes -1. */
  lemma RoundHalfAwayFromZero(k: nat)
    ensures Round(k as real + 0.5) == k + 1
    ensures Round(-(k as real) - 0.5) == -(k + 1)
  {
  }
}
