/**
 * VRageMath's Vector3D (doubles, modelled as reals) and Vector3I (32-bit integers,
 * modelled as unbounded ints), with the operations the mod uses on them.
 */
module Vectors {

  datatype Vec3 = Vec3(x: real, y: real, z: real)

  datatype Vec3i = Vec3i(x: int, y: int, z: int)

  function Add(a: Vec3, b: Vec3): Vec3
  {
    Vec3(a.x + b.x, a.y + b.y, a.z + b.z)
  }

  function Sub(a: Vec3, b: Vec3): Vec3
  {
    Vec3(a.x - b.x, a.y - b.y, a.z - b.z)
  }

  function ToVec3(v: Vec3i): Vec3
  {
    Vec3(v.x as real, v.y as real, v.z as real)
  }

  /** Vector3D.One, used to widen a point into a box. */
  const One: Vec3 := Vec3(1.0, 1.0, 1.0)

  function Square(r: real): (s: real)
    ensures s >= 0.0
  {
    if r < 0.0 then (-r) * (-r) else r * r
  }

  /** Vector3D.DistanceSquared. */
  function DistanceSquared(a: Vec3, b: Vec3): (d: real)
    ensures d >= 0.0
    ensures a == b ==> d == 0.0
  {
    Square(a.x - b.x) + Square(a.y - b.y) + Square(a.z - b.z)
  }

  /** Vector3D.IsInsideInclusive(min, max): inside the closed box [lo, hi]. */
  predicate InsideInclusive(p: Vec3, lo: Vec3, hi: Vec3)
  {
    lo.x <= p.x <= hi.x && lo.y <= p.y <= hi.y && lo.z <= p.z <= hi.z
  }

  /** BoundingBoxD(lo, hi).Center: the midpoint of the two corners, which lies in the
      box whenever the box is not inverted. */
  function Center(lo: Vec3, hi: Vec3): (c: Vec3)
    ensures lo.x <= hi.x && lo.y <= hi.y && lo.z <= hi.z ==> InsideInclusive(c, lo, hi)
    ensures Add(Sub(c, lo), Sub(c, hi)) == Vec3(0.0, 0.0, 0.0)
  {
    Vec3((lo.x + hi.x) / 2.0, (lo.y + hi.y) / 2.0, (lo.z + hi.z) / 2.0)
  }

  function Abs(n: int): nat
  {
    if n < 0 then -n else n
  }

  function Max(a: int, b: int): int
  {
    if a < b then b else a
  }

  function Min(a: int, b: int): int
  {
    if a < b then a else b
  }

  /** Vector3I.AbsMax(): the largest absolute value among the three components. */
  function AbsMax(v: Vec3i): (m: nat)
    ensures m == Abs(v.x) || m == Abs(v.y) || m == Abs(v.z)
    ensures Abs(v.x) <= m && Abs(v.y) <= m && Abs(v.z) <= m
  {
    Max(Max(Abs(v.x), Abs(v.y)), Abs(v.z))
  }

  /** C# integer division, which truncates toward zero (Dafny's `/` rounds toward
      negative infinity for a positive divisor). */
  function DivTrunc(a: int, b: int): (q: int)
    requires b != 0
    ensures a >= 0 && b > 0 ==> q == a / b
  {
    var q := Abs(a) / Abs(b);
    if (a < 0) == (b < 0) then q else -q
  }

  /** Vector3I / int. */
  function DivScalar(v: Vec3i, s: int): Vec3i
    requires s != 0
  {
    Vec3i(DivTrunc(v.x, s), DivTrunc(v.y, s), DivTrunc(v.z, s))
  }

  /** Vector3I * int. */
  function MulScalar(v: Vec3i, s: int): Vec3i
  {
    Vec3i(v.x * s, v.y * s, v.z * s)
  }

  /** Vector3I.Min: the component-wise minimum. */
  function MinI(a: Vec3i, b: Vec3i): Vec3i
  {
    Vec3i(Min(a.x, b.x), Min(a.y, b.y), Min(a.z, b.z))
  }

  /** Vector3I.Max: the component-wise maximum. */
  function MaxI(a: Vec3i, b: Vec3i): Vec3i
  {
    Vec3i(Max(a.x, b.x), Max(a.y, b.y), Max(a.z, b.z))
  }
}
