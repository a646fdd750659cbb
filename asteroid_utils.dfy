/**
 * Utils.cs: what the mod derives from an asteroid. The radius and strength of its
 * field scale with the asteroid's size; the center is the middle of the tight box
 * around its occupied voxels, found by reading the voxel storage at a level of
 * detail coarse enough that the scanned grid is at most about 1024 cells across.
 * NaturalGravity.cs carries an identical copy of the size formulas and the scan.
 */
module AsteroidUtils {
  import opened Wrappers
  import opened Vectors
  import opened Strings
  import opened Settings
  import opened GravityPoints

  /**
   * A voxel map as the mod sees it: its storage name, the world position of its
   * corner, its storage size in voxels, its physics flags, and `voxels`, the content
   * of its storage at the level of detail the scan reads (what ReadRange copies into
   * the cache). Cell (x, y, z) of the cache is `voxels[x, y, z]`.
   */
  datatype Asteroid = Asteroid(storageName: string, corner: Vec3, size: Vec3i,
                               hasPhysics: bool, physicsEnabled: bool, isPhantom: bool,
                               voxels: array3<byte>)

  /** The far corner of the asteroid's box: the corner plus the storage size. */
  function FarCorner(a: Asteroid): Vec3
  {
    Add(a.corner, ToVec3(a.size))
  }

  /** The point lies in the asteroid's closed box. */
  predicate InAsteroid(a: Asteroid, p: Vec3)
  {
    InsideInclusive(p, a.corner, FarCorner(a))
  }

  // ---------------------------------------------------------------- size formulas

  /** Math.Round: to the nearest integer, halves to the even neighbour. */
  function RoundHalfEven(x: real): (n: int)
    ensures n as real - 0.5 <= x <= n as real + 0.5
    ensures x - x.Floor as real == 0.5 ==> n % 2 == 0
  {
    var f := x.Floor;
    var frac := x - f as real;
    if frac < 0.5 then f
    else if frac > 0.5 then f + 1
    else if f % 2 == 0 then f else f + 1
  }

  lemma RoundWhole(n: int)
    ensures RoundHalfEven(n as real) == n
  {
  }

  /**
   * `(int)Math.Round(size / maxsize * radiusMax)`. A zero `maxsize` makes the
   * double quotient infinite or NaN, and a rounded value outside the 32-bit range
   * does not convert; the cast of both yields int.MinValue on .NET Framework on x86
   * and x64, the runtime the game uses (later .NET runtimes saturate instead).
   */
  function ScaledRadius(size: nat, maxsize: int, radiusMax: int): int
  {
    if maxsize == 0 then INT32_MIN
    else
      var n := RoundHalfEven(size as real / maxsize as real * radiusMax as real);
      if INT32_MIN <= n <= INT32_MAX then n else INT32_MIN
  }

  /** CalculateAsteroidRadius: the asteroid's share of `asteroid_maxsize` times
      `radius_max`, limited to [radius_min, radius_max]. */
  function CalculateAsteroidRadius(size: Vec3i, c: Config): (r: int)
    ensures r <= c.radiusMax
    ensures c.radiusMin <= c.radiusMax ==> c.radiusMin <= r
  {
    Min(Max(ScaledRadius(AbsMax(size), c.asteroidMaxsize, c.radiusMax), c.radiusMin), c.radiusMax)
  }

  /** An asteroid exactly `asteroid_maxsize` across gets `radius_max`. */
  lemma FullSizeGetsRadiusMax(size: Vec3i, c: Config)
    requires c.asteroidMaxsize > 0 && AbsMax(size) == c.asteroidMaxsize
    requires c.radiusMin <= c.radiusMax <= INT32_MAX && INT32_MIN <= c.radiusMax
    ensures CalculateAsteroidRadius(size, c) == c.radiusMax
  {
    var m := c.asteroidMaxsize as real;
    assert AbsMax(size) as real / m == 1.0;
    RoundWhole(c.radiusMax);
  }

  /**
   * The strength formula has a number: the double quotient is finite, or it is
   * +infinity (a zero `asteroid_maxsize` and a non-empty storage) and `strength_max`
   * is not 0. An empty storage over a zero maximum (0 / 0), or infinity times a zero
   * `strength_max`, is NaN.
   */
  predicate StrengthDefined(size: Vec3i, c: Config)
  {
    c.asteroidMaxsize != 0 || (AbsMax(size) > 0 && c.strengthMax != 0.0)
  }

  /**
   * CalculateAsteroidStrength: the asteroid's share of `asteroid_maxsize` times
   * `strength_max`, limited to [strength_min, strength_max]. Over a zero maximum the
   * share is +infinity, so the product is infinite with the sign of `strength_max`:
   * Math.Max then gives +infinity (and Math.Min `strength_max`) or `strength_min`.
   */
  function CalculateAsteroidStrength(size: Vec3i, c: Config): (s: real)
    requires StrengthDefined(size, c)
    ensures s <= c.strengthMax
    ensures c.strengthMin <= c.strengthMax ==> c.strengthMin <= s
    ensures c.asteroidMaxsize == 0 && c.strengthMax > 0.0 ==> s == c.strengthMax
  {
    if c.asteroidMaxsize == 0 then
      if c.strengthMax > 0.0 then c.strengthMax
      else if c.strengthMin < c.strengthMax then c.strengthMin else c.strengthMax
    else
      var scaled := AbsMax(size) as real / c.asteroidMaxsize as real * c.strengthMax;
      var atLeast := if scaled < c.strengthMin then c.strengthMin else scaled;
      if atLeast < c.strengthMax then atLeast else c.strengthMax
  }

  /** An asteroid exactly `asteroid_maxsize` across gets `strength_max`. */
  lemma FullSizeGetsStrengthMax(size: Vec3i, c: Config)
    requires c.asteroidMaxsize > 0 && AbsMax(size) == c.asteroidMaxsize
    requires c.strengthMin <= c.strengthMax
    ensures CalculateAsteroidStrength(size, c) == c.strengthMax
  {
    var m := c.asteroidMaxsize as real;
    assert AbsMax(size) as real / m == 1.0;
  }

  // ---------------------------------------------------------------- level of detail

  /** `Math.Max((int)Math.Pow(lod, 2), 1)`: the voxels per cell along each axis at a
      level of detail. */
  function Scale(lod: int): (s: int)
    ensures s >= 1
  {
    if lod * lod < 1 then 1 else lod * lod
  }

  /** `Storage.Size / scale`: the size of the grid scanned at a level of detail. */
  function LodSize(size: Vec3i, lod: int): Vec3i
  {
    DivScalar(size, Scale(lod))
  }

  lemma DivTruncShrinks(a: int, s: int)
    requires s >= 1
    ensures Abs(DivTrunc(a, s)) * s <= Abs(a)
  {
    var q := Abs(a) / s;
    assert q * s <= Abs(a);
  }

  /** Coarsening shrinks the grid at least by the scale: AbsMax(size / s) * s never
      exceeds AbsMax(size). */
  lemma LodSizeShrinks(size: Vec3i, lod: int)
    ensures AbsMax(LodSize(size, lod)) * Scale(lod) <= AbsMax(size)
  {
    var s := Scale(lod);
    var m := LodSize(size, lod);
    DivTruncShrinks(size.x, s);
    DivTruncShrinks(size.y, s);
    DivTruncShrinks(size.z, s);
    if AbsMax(m) == Abs(m.x) {
      assert AbsMax(m) * s <= Abs(size.x);
    } else if AbsMax(m) == Abs(m.y) {
      assert AbsMax(m) * s <= Abs(size.y);
    } else {
      assert AbsMax(m) * s <= Abs(size.z);
    }
  }

  /** While the grid is over 1023 cells across, the level of detail is far below the
      storage size, which bounds the recursion. */
  lemma MulGrows(m: int, a: int, b: int)
    requires m >= 0 && a <= b
    ensures m * a <= m * b
  {
  }

  lemma CoarseningArithmetic(m: int, lod: int, total: int)
    requires lod >= 1 && m / 512 > 1 && m * (lod * lod) <= total
    ensures lod + m / 512 <= total
  {
    MulGrows(lod, 1, lod);
    MulGrows(m, lod, lod * lod);
    MulGrows(m - 1, 1, lod);
  }

  /** While the grid is over 1023 cells across, the level of detail is far below the
      storage size, which bounds the recursion. */
  lemma CoarseningBounded(size: Vec3i, lod: int)
    requires lod >= 1 && AbsMax(LodSize(size, lod)) / 512 > 1
    ensures lod + AbsMax(LodSize(size, lod)) / 512 <= AbsMax(size)
  {
    LodSizeShrinks(size, lod);
    MulGrows(lod, 1, lod);
    assert Scale(lod) == lod * lod;
    CoarseningArithmetic(AbsMax(LodSize(size, lod)), lod, AbsMax(size));
  }

  /**
   * The recursion of GetAsteroidData: while the grid at `lod` is over 1023 cells
   * across, move to `lod + diff` with `diff = AbsMax / 512 >= 2`. The level found is
   * at least the one started from, and its grid passes the size test.
   */
  function ChooseLod(size: Vec3i, lod: int): (r: int)
    requires lod >= 1
    ensures r >= lod
    ensures AbsMax(LodSize(size, r)) / 512 <= 1
    decreases AbsMax(size) - lod
  {
    var diff := AbsMax(LodSize(size, lod)) / 512;
    if diff > 1 then
      CoarseningBounded(size, lod);
      ChooseLod(size, lod + diff)
    else lod
  }

  /** The level of detail GetAsteroidData(asteroid) settles on, starting from 2. */
  function AsteroidLod(a: Asteroid): (lod: int)
    ensures lod >= 2
  {
    ChooseLod(a.size, 2)
  }

  // ---------------------------------------------------------------- voxel scan

  const MAX_CELL: Vec3i := Vec3i(INT32_MAX, INT32_MAX, INT32_MAX)
  const MIN_CELL: Vec3i := Vec3i(INT32_MIN, INT32_MIN, INT32_MIN)

  /** The cache cell lies in the grid and holds some content. */
  ghost predicate Occupied(v: array3<byte>, x: int, y: int, z: int)
    reads v
  {
    0 <= x < v.Length0 && 0 <= y < v.Length1 && 0 <= z < v.Length2 && v[x, y, z] > 0
  }

  /** Every occupied cell lies in the half-open box [lo, hi). */
  ghost predicate Encloses(v: array3<byte>, lo: Vec3i, hi: Vec3i)
    reads v
  {
    forall x, y, z | Occupied(v, x, y, z) ::
      lo.x <= x < hi.x && lo.y <= y < hi.y && lo.z <= z < hi.z
  }

  /** Some occupied cell lies in the plane of the given x, y or z. */
  ghost predicate OnPlaneX(v: array3<byte>, x: int) reads v { exists y, z :: Occupied(v, x, y, z) }
  ghost predicate OnPlaneY(v: array3<byte>, y: int) reads v { exists x, z :: Occupied(v, x, y, z) }
  ghost predicate OnPlaneZ(v: array3<byte>, z: int) reads v { exists x, y :: Occupied(v, x, y, z) }

  /** Each face of the box touches an occupied cell: no smaller box encloses them. */
  ghost predicate Tight(v: array3<byte>, lo: Vec3i, hi: Vec3i)
    reads v
  {
    OnPlaneX(v, lo.x) && OnPlaneX(v, hi.x - 1)
    && OnPlaneY(v, lo.y) && OnPlaneY(v, hi.y - 1)
    && OnPlaneZ(v, lo.z) && OnPlaneZ(v, hi.z - 1)
  }

  /** Cell (a, b, c) comes before cell (x, y, z) in the scan's z, y, x order. */
  predicate Before(a: int, b: int, c: int, x: int, y: int, z: int)
  {
    c < z || (c == z && (b < y || (b == y && a < x)))
  }

  /** The grid fits Vector3I, and some cell holds content. */
  ghost predicate Scannable(v: array3<byte>)
    reads v
  {
    v.Length0 <= INT32_MAX && v.Length1 <= INT32_MAX && v.Length2 <= INT32_MAX
    && exists x, y, z :: Occupied(v, x, y, z)
  }

  /** The scan's state when it reaches cell (x, y, z): before any occupied cell the
      box is the empty starting one; after, it is tight around the occupied cells
      visited so far. */
  ghost predicate ScanState(v: array3<byte>, lo: Vec3i, hi: Vec3i, seen: bool, x: int, y: int, z: int)
    reads v
  {
    (!seen ==> lo == MAX_CELL && hi == MIN_CELL)
    && (seen ==> Tight(v, lo, hi))
    && forall a, b, c | Occupied(v, a, b, c) && Before(a, b, c, x, y, z) ::
         lo.x <= a < hi.x && lo.y <= b < hi.y && lo.z <= c < hi.z
  }

  /** Visiting one cell: an occupied one grows the box to take it in. */
  lemma VisitCell(v: array3<byte>, lo: Vec3i, hi: Vec3i, seen: bool, x: int, y: int, z: int)
    requires 0 <= x < v.Length0 <= INT32_MAX && 0 <= y < v.Length1 <= INT32_MAX
    requires 0 <= z < v.Length2 <= INT32_MAX
    requires ScanState(v, lo, hi, seen, x, y, z)
    ensures v[x, y, z] > 0 ==>
              ScanState(v, MinI(lo, Vec3i(x, y, z)), MaxI(hi, Vec3i(x + 1, y + 1, z + 1)), true, x + 1, y, z)
    ensures !(v[x, y, z] > 0) ==> ScanState(v, lo, hi, seen, x + 1, y, z)
  {
    if v[x, y, z] > 0 {
      assert Occupied(v, x, y, z);
      assert OnPlaneX(v, x) && OnPlaneY(v, y) && OnPlaneZ(v, z);
    }
  }

  /** Finishing a row moves on to the start of the next one. */
  lemma NextRow(v: array3<byte>, lo: Vec3i, hi: Vec3i, seen: bool, y: int, z: int)
    requires ScanState(v, lo, hi, seen, v.Length0, y, z)
    ensures ScanState(v, lo, hi, seen, 0, y + 1, z)
  {
  }

  /** Finishing a layer moves on to the start of the next one. */
  lemma NextLayer(v: array3<byte>, lo: Vec3i, hi: Vec3i, seen: bool, z: int)
    requires ScanState(v, lo, hi, seen, 0, v.Length1, z)
    ensures ScanState(v, lo, hi, seen, 0, 0, z + 1)
  {
  }

  /**
   * The triple loop of GetAsteroidData: visits every cell once, z outermost, and
   * grows the box [lo, hi) around each occupied one. The box ends up tight around
   * the occupied cells.
   */
  method ScanVoxels(v: array3<byte>) returns (lo: Vec3i, hi: Vec3i)
    requires Scannable(v)
    ensures Encloses(v, lo, hi)
    ensures Tight(v, lo, hi)
  {
    lo := MAX_CELL;
    hi := MIN_CELL;
    ghost var seen := false;
    var z := 0;
    while z < v.Length2
      invariant 0 <= z <= v.Length2
      invariant ScanState(v, lo, hi, seen, 0, 0, z)
    {
      var y := 0;
      while y < v.Length1
        invariant 0 <= y <= v.Length1
        invariant ScanState(v, lo, hi, seen, 0, y, z)
      {
        var x := 0;
        while x < v.Length0
          invariant 0 <= x <= v.Length0
          invariant ScanState(v, lo, hi, seen, x, y, z)
        {
          VisitCell(v, lo, hi, seen, x, y, z);
          if v[x, y, z] > 0 {
            lo := MinI(lo, Vec3i(x, y, z));
            hi := MaxI(hi, Vec3i(x + 1, y + 1, z + 1));
            seen := true;
          }
          x := x + 1;
        }
        NextRow(v, lo, hi, seen, y, z);
        y := y + 1;
      }
      NextLayer(v, lo, hi, seen, z);
      z := z + 1;
    }
  }

  // ---------------------------------------------------------------- asteroid data

  /** The cache holds the storage read at `lod`: its grid is `Storage.Size / scale`. */
  predicate CacheFits(a: Asteroid, lod: int)
  {
    var m := LodSize(a.size, lod);
    a.voxels.Length0 == m.x && a.voxels.Length1 == m.y && a.voxels.Length2 == m.z
  }

  /** The center of the box [lo, hi) of cache cells, scaled back to voxels and placed
      at the asteroid's corner. */
  function ScaledCenter(a: Asteroid, lod: int, lo: Vec3i, hi: Vec3i): Vec3
  {
    var s := Scale(lod);
    Center(Add(a.corner, ToVec3(MulScalar(lo, s))), Add(a.corner, ToVec3(MulScalar(hi, s))))
  }

  lemma AxisWithin(lo: int, hi: int, n: int, s: int, size: int)
    requires 0 <= lo < hi <= n && s >= 1 && n == DivTrunc(size, s)
    ensures 0 <= lo * s <= hi * s <= size
  {
    DivTruncShrinks(size, s);
    MulGrows(s, lo, hi);
    MulGrows(s, hi, n);
  }

  /** A tight box of occupied cache cells, scaled back, has its center inside the
      asteroid. */
  lemma CenterInside(a: Asteroid, lod: int, lo: Vec3i, hi: Vec3i)
    requires CacheFits(a, lod) && Encloses(a.voxels, lo, hi) && Tight(a.voxels, lo, hi)
    ensures InAsteroid(a, ScaledCenter(a, lod, lo, hi))
  {
    var v := a.voxels;
    var s := Scale(lod);
    var m := LodSize(a.size, lod);
    var y0, z0 :| Occupied(v, lo.x, y0, z0);
    var y1, z1 :| Occupied(v, hi.x - 1, y1, z1);
    AxisWithin(lo.x, hi.x, m.x, s, a.size.x);
    var x2, z2 :| Occupied(v, x2, lo.y, z2);
    var x3, z3 :| Occupied(v, x3, hi.y - 1, z3);
    AxisWithin(lo.y, hi.y, m.y, s, a.size.y);
    var x4, y4 :| Occupied(v, x4, y4, lo.z);
    var x5, y5 :| Occupied(v, x5, y5, hi.z - 1);
    AxisWithin(lo.z, hi.z, m.z, s, a.size.z);
  }

  /**
   * GetAsteroidData(asteroid, lod): coarsens the level of detail until the grid is
   * at most about 1024 cells across, scans the cache read at that level for the
   * tight box around the occupied cells, and returns the box's center scaled back to
   * world space. The radius and strength depend on the storage size and the
   * settings alone. The center lies inside the asteroid.
   */
  method GetAsteroidDataAt(a: Asteroid, lod: int, c: Config)
    returns (center: Vec3, radius: int, strength: real)
    requires lod >= 1 && StrengthDefined(a.size, c)
    requires CacheFits(a, ChooseLod(a.size, lod)) && Scannable(a.voxels)
    ensures exists lo, hi :: Encloses(a.voxels, lo, hi) && Tight(a.voxels, lo, hi)
                             && center == ScaledCenter(a, ChooseLod(a.size, lod), lo, hi)
    ensures InAsteroid(a, center)
    ensures radius == CalculateAsteroidRadius(a.size, c)
    ensures strength == CalculateAsteroidStrength(a.size, c)
    decreases AbsMax(a.size) - lod
  {
    var scale := Scale(lod);
    var maxSize := DivScalar(a.size, scale);
    var diff := AbsMax(maxSize) / 512;
    if diff > 1 {
      CoarseningBounded(a.size, lod);
      center, radius, strength := GetAsteroidDataAt(a, lod + diff, c);
      return;
    }
    var lo, hi := ScanVoxels(a.voxels);
    CenterInside(a, lod, lo, hi);
    center := Center(Add(a.corner, ToVec3(MulScalar(lo, scale))), Add(a.corner, ToVec3(MulScalar(hi, scale))));
    radius := CalculateAsteroidRadius(a.size, c);
    strength := CalculateAsteroidStrength(a.size, c);
  }

  /** GetAsteroidData(asteroid): the same, starting from level of detail 2. */
  method GetAsteroidData(a: Asteroid, c: Config) returns (center: Vec3, radius: int, strength: real)
    requires StrengthDefined(a.size, c)
    requires CacheFits(a, AsteroidLod(a)) && Scannable(a.voxels)
    ensures exists lo, hi :: Encloses(a.voxels, lo, hi) && Tight(a.voxels, lo, hi)
                             && center == ScaledCenter(a, AsteroidLod(a), lo, hi)
    ensures InAsteroid(a, center)
    ensures radius == CalculateAsteroidRadius(a.size, c)
    ensures strength == CalculateAsteroidStrength(a.size, c)
  {
    center, radius, strength := GetAsteroidDataAt(a, 2, c);
  }

  /**
   * GetGravityInAsteroid: some registered field whose center lies in the asteroid's
   * box, or null when none does. The dictionary's enumeration order is not
   * specified, so which of several such fields is returned is left open.
   */
  method GetGravityInAsteroid(reg: Registry, a: Asteroid) returns (g: GravityPoint?)
    ensures g != null ==> g in reg.points.Values && InAsteroid(a, g.center)
    ensures g == null <==> forall id | id in reg.points :: !InAsteroid(a, reg.points[id].center)
  {
    var min := a.corner;
    var max := Add(min, ToVec3(a.size));
    var keys: set<int> := reg.points.Keys;
    while keys != {}
      invariant keys <= reg.points.Keys
      invariant forall id | id in reg.points && id !in keys :: !InAsteroid(a, reg.points[id].center)
      decreases keys
    {
      assert exists x :: x in keys by {
        if forall x :: x !in keys {
          assert false;
        }
      }
      var id: int :| id in keys;
      var gravity := reg.points[id];
      if InsideInclusive(gravity.center, min, max) {
        return gravity;
      }
      keys := keys - {id};
    }
    return null;
  }
}
