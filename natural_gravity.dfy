/**
 * NaturalGravity.cs: the session component of the first, list-based design. It
 * keeps the list of fields, rebuilds their member lists every tenth tick, scans
 * the asteroids every thirtieth rebuild (spawning a field for each prefixed asteroid
 * that has none, then closing fields that share a center with an earlier one), and
 * applies the messages of the position-based sync.
 */
module NaturalGravity {
  import opened Wrappers
  import opened Vectors
  import opened Strings
  import opened FieldRules
  import opened Settings
  import opened FieldPass
  import opened GravityFields
  import opened LegacySync
  import opened AsteroidUtils

  const SKIP_TICKS: int := 10
  const SKIP_EXTRA_TICKS: int := 30

  // ---------------------------------------------------------------- tick scheduler

  /** The two wrapping counters of UpdateBeforeSimulation. */
  datatype Counters = Counters(tick: int, extraTick: int)

  /** `tick` starts at SKIP_TICKS so that the first call rebuilds at once. */
  const START: Counters := Counters(SKIP_TICKS, 0)

  /** One call's outcome: the new counters, whether a ten-tick round ends (`refresh`:
      the member lists are then rebuilt when affect_ships is on and some field exists)
      and whether the asteroids are scanned (every thirtieth round). */
  datatype Step = Step(next: Counters, refresh: bool, scan: bool)

  function Advance(c: Counters): (s: Step)
    ensures s.scan ==> s.refresh
  {
    var t := c.tick + 1;
    if t >= SKIP_TICKS then
      var e := c.extraTick + 1;
      if e >= SKIP_EXTRA_TICKS then Step(Counters(0, 0), true, true)
      else Step(Counters(0, e), true, false)
    else Step(Counters(t, c.extraTick), false, false)
  }

  /** The counters after `n` calls that passed the init guard. */
  function After(n: nat): Counters
  {
    if n == 0 then START else Advance(After(n - 1)).next
  }

  /** Counting up by one: the last decimal digit wraps to 0 and carries. */
  lemma CarryTen(a: nat)
    ensures a % 10 < 9 ==> (a + 1) % 10 == a % 10 + 1 && (a + 1) / 10 == a / 10
    ensures a % 10 == 9 ==> (a + 1) % 10 == 0 && (a + 1) / 10 == a / 10 + 1
  {
  }

  /** Counting up by one modulo 30. */
  lemma CarryThirty(a: nat)
    ensures a % 30 < 29 ==> (a + 1) % 30 == a % 30 + 1
    ensures a % 30 == 29 ==> (a + 1) % 30 == 0
  {
  }

  lemma {:induction false} AfterClosedForm(n: nat)
    requires n > 0
    ensures After(n) == Counters((n - 1) % 10, ((n - 1) / 10 + 1) % 30)
  {
    if n > 1 {
      AfterClosedForm(n - 1);
      var m := n - 2;
      CarryTen(m);
      CarryThirty(m / 10 + 1);
    }
  }

  /**
   * The schedule: call n + 1 ends a ten-tick round exactly when n is a multiple of 10
   * (so on the first call and every tenth after it) and scans the asteroids exactly
   * on every thirtieth round; afterwards both counters are in range. Whether a round
   * also rebuilds the member lists depends on affect_ships and the fields (Scheduled).
   */
  lemma Schedule(n: nat)
    ensures Advance(After(n)).refresh <==> n % 10 == 0
    ensures Advance(After(n)).scan <==> n % 10 == 0 && (n / 10 + 1) % 30 == 0
    ensures 0 <= After(n + 1).tick < SKIP_TICKS && 0 <= After(n + 1).extraTick < SKIP_EXTRA_TICKS
  {
    AfterClosedForm(n + 1);
    if n > 0 {
      AfterClosedForm(n);
      if n % 10 == 0 {
        assert (n - 1) % 10 == 9 && (n - 1) / 10 == n / 10 - 1;
      }
    }
  }

  // ---------------------------------------------------------------- lookups

  function Centers(fields: seq<Gravity>): (cs: seq<Vec3>)
    ensures |cs| == |fields| && forall i | 0 <= i < |fields| :: cs[i] == fields[i].center
  {
    seq(|fields|, i requires 0 <= i < |fields| => fields[i].center)
  }

  /** The first index, in list order, whose center lies in the closed box [lo, hi]. */
  function FirstInBox(centers: seq<Vec3>, lo: Vec3, hi: Vec3): (r: Option<nat>)
    ensures r.Some? ==> r.value < |centers| && InsideInclusive(centers[r.value], lo, hi)
    ensures r.Some? ==> forall j | 0 <= j < r.value :: !InsideInclusive(centers[j], lo, hi)
    ensures r.None? <==> forall j | 0 <= j < |centers| :: !InsideInclusive(centers[j], lo, hi)
  {
    if centers == [] then None
    else if InsideInclusive(centers[0], lo, hi) then Some(0)
    else match FirstInBox(centers[1..], lo, hi)
      case None => None
      case Some(k) => Some(k + 1)
  }

  /** The center equals the center of an earlier field in the list. */
  predicate SeenBefore(centers: seq<Vec3>, i: int)
    requires 0 <= i < |centers|
  {
    exists j | 0 <= j < i :: centers[j] == centers[i]
  }

  /** The first field at each center is never a duplicate: every center has an index
      at or before any of its occurrences that the sweep keeps. */
  lemma {:induction false} FirstAtCenterSurvives(centers: seq<Vec3>, i: int)
    requires 0 <= i < |centers|
    ensures exists j | 0 <= j <= i :: centers[j] == centers[i] && !SeenBefore(centers, j)
    decreases i
  {
    if SeenBefore(centers, i) {
      var k :| 0 <= k < i && centers[k] == centers[i];
      FirstAtCenterSurvives(centers, k);
    } else {
      assert centers[i] == centers[i] && !SeenBefore(centers, i);
    }
  }

  /** The list of fields without those on the given generator, in order. */
  function Without(fields: seq<Gravity>, generator: Generator): seq<Gravity>
  {
    if fields == [] then []
    else
      var last := fields[|fields| - 1];
      Without(fields[..|fields| - 1], generator) + (if last.generator == generator then [] else [last])
  }

  /** No field is listed twice. */
  predicate Distinct(fields: seq<Gravity>)
  {
    forall i, j | 0 <= i < j < |fields| :: fields[i] != fields[j]
  }

  /** RemoveAll keeps exactly the fields on other generators, and a list without
      repeats stays without repeats. */
  lemma {:induction false} WithoutExactly(fields: seq<Gravity>, generator: Generator)
    ensures forall g :: g in Without(fields, generator) <==> g in fields && g.generator != generator
    ensures Distinct(fields) ==> Distinct(Without(fields, generator))
  {
    if fields != [] {
      var init := fields[..|fields| - 1];
      var last := fields[|fields| - 1];
      assert fields == init + [last];
      WithoutExactly(init, generator);
      if Distinct(fields) {
        assert Distinct(init);
        assert last !in init;
      }
    }
  }

  // ---------------------------------------------------------------- prefabs

  /** The create commands announcing the prefabs, in order. */
  function Announce(prefabs: seq<Prefab>): (msgs: seq<LegacyCommand>)
    ensures |msgs| == |prefabs|
    ensures forall k | 0 <= k < |prefabs| ::
              msgs[k] == Created(prefabs[k].position, prefabs[k].radius, prefabs[k].strength)
  {
    if prefabs == [] then []
    else
      var last := prefabs[|prefabs| - 1];
      Announce(prefabs[..|prefabs| - 1]) + [Created(last.position, last.radius, last.strength)]
  }

  lemma AnnounceAppend(prefabs: seq<Prefab>, p: Prefab)
    ensures Announce(prefabs + [p]) == Announce(prefabs) + [Created(p.position, p.radius, p.strength)]
  {
    assert (prefabs + [p])[..|prefabs|] == prefabs;
  }

  /** One prefab per wanted asteroid, in order, each at the center of its content. */
  ghost predicate PrefabsFor(prefabs: seq<Prefab>, wanted: seq<Asteroid>, c: Config)
    reads set a | a in wanted :: a.voxels
  {
    |prefabs| == |wanted|
    && forall k {:trigger PrefabFor(prefabs[k], wanted[k], c)} | 0 <= k < |wanted| :: PrefabFor(prefabs[k], wanted[k], c)
  }

  lemma PrefabsAppend(prefabs: seq<Prefab>, wanted: seq<Asteroid>, c: Config, a: Asteroid, p: Prefab)
    requires PrefabsFor(prefabs, wanted, c)
    requires PrefabsFor([p], [a], c)
    ensures PrefabsFor(prefabs + [p], wanted + [a], c)
  {
    assert PrefabFor([p][0], [a][0], c);
    forall k | 0 <= k < |wanted| + 1
      ensures PrefabFor((prefabs + [p])[k], (wanted + [a])[k], c)
    {
      if k < |wanted| {
        assert PrefabFor(prefabs[k], wanted[k], c);
      }
    }
  }

  /** The voxel map's physics is present, enabled and not phantom. */
  predicate Physical(a: Asteroid)
  {
    a.hasPhysics && a.physicsEnabled && !a.isPhantom
  }

  /** The storage name starts with one of the prefixes, ignoring case. */
  predicate Prefixed(name: string, prefixes: seq<string>)
  {
    exists p | p in prefixes :: StartsWithIgnoreCase(name, p)
  }

  /** Some field's center lies in the asteroid's box. */
  predicate HasField(a: Asteroid, centers: seq<Vec3>)
  {
    exists i | 0 <= i < |centers| :: InAsteroid(a, centers[i])
  }

  /** The asteroids the scan spawns a field for, in order. */
  function Wanted(asteroids: seq<Asteroid>, prefixes: seq<string>, centers: seq<Vec3>): seq<Asteroid>
  {
    if asteroids == [] then []
    else
      var a := asteroids[|asteroids| - 1];
      Wanted(asteroids[..|asteroids| - 1], prefixes, centers)
        + (if Physical(a) && Prefixed(a.storageName, prefixes) && !HasField(a, centers) then [a] else [])
  }

  lemma WantedAppend(asteroids: seq<Asteroid>, a: Asteroid, prefixes: seq<string>, centers: seq<Vec3>)
    ensures Wanted(asteroids + [a], prefixes, centers)
            == Wanted(asteroids, prefixes, centers)
               + (if Physical(a) && Prefixed(a.storageName, prefixes) && !HasField(a, centers) then [a] else [])
  {
    assert (asteroids + [a])[..|asteroids|] == asteroids;
  }

  /** A field is spawned for an asteroid exactly when it is physical, its name carries
      a prefix and no field lies in its box. */
  lemma {:induction false} WantedExactly(asteroids: seq<Asteroid>, prefixes: seq<string>, centers: seq<Vec3>)
    ensures forall a :: a in Wanted(asteroids, prefixes, centers)
              <==> a in asteroids && Physical(a) && Prefixed(a.storageName, prefixes) && !HasField(a, centers)
  {
    if asteroids != [] {
      assert asteroids == asteroids[..|asteroids| - 1] + [asteroids[|asteroids| - 1]];
      WantedExactly(asteroids[..|asteroids| - 1], prefixes, centers);
    }
  }

  /** What GetAsteroidData needs to measure the asteroid: a strength formula that is a
      number, a cache read that fits the level of detail it settles on, and some cell
      holding content. */
  ghost predicate Measurable(a: Asteroid, c: Config)
    reads a.voxels
  {
    StrengthDefined(a.size, c) && CacheFits(a, AsteroidLod(a)) && Scannable(a.voxels)
  }

  /** The prefab spawned for the asteroid: at the center of the tight box around its
      content, with the radius and strength its size calls for. */
  ghost predicate PrefabFor(p: Prefab, a: Asteroid, c: Config)
    reads a.voxels
  {
    StrengthDefined(a.size, c)
    && p.radius == CalculateAsteroidRadius(a.size, c)
    && p.strength == CalculateAsteroidStrength(a.size, c)
    && InAsteroid(a, p.position)
    && exists lo, hi :: Encloses(a.voxels, lo, hi) && Tight(a.voxels, lo, hi)
                        && p.position == ScaledCenter(a, AsteroidLod(a), lo, hi)
  }

  /**
   * The prefix test of CheckAsteroids: the loop over the prefixes stops at the
   * first that the name starts with, ignoring case.
   */
  method MatchesPrefix(name: string, prefixes: seq<string>) returns (matched: bool)
    ensures matched <==> Prefixed(name, prefixes)
  {
    matched := false;
    var i := 0;
    while i < |prefixes|
      invariant 0 <= i <= |prefixes|
      invariant forall k | 0 <= k < i :: !StartsWithIgnoreCase(name, prefixes[k])
    {
      if StartsWithIgnoreCase(name, prefixes[i]) {
        matched := true;
        return;
      }
      i := i + 1;
    }
  }

  /** GetNearbyAsteroid: the first voxel map, in enumeration order, whose closed box
      holds the position. */
  method GetNearbyAsteroid(asteroids: seq<Asteroid>, pos: Vec3) returns (r: Option<nat>)
    ensures r.Some? ==> r.value < |asteroids| && InAsteroid(asteroids[r.value], pos)
    ensures r.Some? ==> forall j | 0 <= j < r.value :: !InAsteroid(asteroids[j], pos)
    ensures r.None? <==> forall j | 0 <= j < |asteroids| :: !InAsteroid(asteroids[j], pos)
  {
    var i := 0;
    while i < |asteroids|
      invariant 0 <= i <= |asteroids|
      invariant forall j | 0 <= j < i :: !InAsteroid(asteroids[j], pos)
    {
      var min := asteroids[i].corner;
      var max := Add(min, ToVec3(asteroids[i].size));
      if min.x <= pos.x && pos.x <= max.x && min.y <= pos.y && pos.y <= max.y && min.z <= pos.z && pos.z <= max.z {
        return Some(i);
      }
      i := i + 1;
    }
    return None;
  }

  // ---------------------------------------------------------------- the session

  class Session {
    var init: bool
    var tick: int
    var extraTick: int
    var gravityPoints: seq<Gravity>
    /** Prefab grids created so far. */
    var spawned: seq<Prefab>
    /** Messages sent to the other players, as the commands they carry; each travels
        as `LegacySync.Encode(fmt, command)`. */
    var outbox: seq<LegacyCommand>
    const fmt: RealFormat
    const isDedicated: bool
    /** The prefab definition exists, holds a grid, and the engine creates it. */
    const prefabOk: bool

    constructor (fmt: RealFormat, isDedicated: bool, prefabOk: bool)
      ensures !init && Counters(tick, extraTick) == START
      ensures gravityPoints == [] && spawned == [] && outbox == []
      ensures this.fmt == fmt && this.isDedicated == isDedicated && this.prefabOk == prefabOk
    {
      init := false;
      tick := SKIP_TICKS;
      extraTick := 0;
      gravityPoints := [];
      spawned := [];
      outbox := [];
      this.fmt := fmt;
      this.isDedicated := isDedicated;
      this.prefabOk := prefabOk;
    }

    predicate Valid()
      reads this
    {
      Distinct(gravityPoints)
    }

    function Fields(): set<Gravity>
      reads this
    {
      set g | g in gravityPoints
    }

    function Generators(): set<Generator>
      reads this
    {
      set g | g in gravityPoints :: g.generator
    }

    /** AddGravityPoint: appends a field; a null one is refused (the source throws). */
    method AddGravityPoint(gravity: Gravity?) returns (ok: bool)
      modifies this`gravityPoints
      ensures ok <==> gravity != null
      ensures gravityPoints == old(gravityPoints) + (if ok then [gravity] else [])
      ensures old(Valid()) && gravity !in old(gravityPoints) ==> Valid()
    {
      if gravity == null {
        return false;
      }
      gravityPoints := gravityPoints + [gravity];
      return true;
    }

    /** RemoveGravityPoint: drops every field on the generator, keeping the order of
        the others. */
    method RemoveGravityPoint(generator: Generator)
      modifies this`gravityPoints
      ensures gravityPoints == Without(old(gravityPoints), generator)
      ensures forall g :: g in gravityPoints <==> g in old(gravityPoints) && g.generator != generator
      ensures old(Valid()) ==> Valid()
    {
      WithoutExactly(gravityPoints, generator);
      gravityPoints := Without(gravityPoints, generator);
    }

    /** GravityPointsClearEnities: empties every member list. */
    method ClearEntities()
      modifies Fields()`entities
      ensures forall g | g in gravityPoints :: g.entities == []
    {
      var i := 0;
      while i < |gravityPoints|
        invariant 0 <= i <= |gravityPoints|
        invariant forall j | 0 <= j < i :: gravityPoints[j].entities == []
      {
        gravityPoints[i].entities := [];
        i := i + 1;
      }
    }

    /** GravityPointsAddInRange: every field whose radius holds the body appends it. */
    method AddInRangeAll(b: Body)
      requires Valid()
      modifies Fields()`entities
      ensures forall g | g in gravityPoints ::
                g.entities == old(g.entities) + (if g.InRadius(b.pos) then [b.id] else [])
    {
      var i := 0;
      while i < |gravityPoints|
        invariant 0 <= i <= |gravityPoints|
        invariant forall j | 0 <= j < i ::
                    gravityPoints[j].entities
                    == old(gravityPoints[j].entities) + (if gravityPoints[j].InRadius(b.pos) then [b.id] else [])
        invariant forall j | i <= j < |gravityPoints| :: gravityPoints[j].entities == old(gravityPoints[j].entities)
      {
        var _ := gravityPoints[i].AddInRange(b);
        i := i + 1;
      }
    }

    /** GravityPointsChangeEntity: every field whose radius holds the body appends it,
        or removes its first occurrence. */
    method ChangeEntity(b: Body, add: bool)
      requires Valid()
      modifies Fields()`entities
      ensures forall g | g in gravityPoints ::
                g.entities == if !g.InRadius(b.pos) then old(g.entities)
                              else if add then old(g.entities) + [b.id]
                              else RemoveFirst(old(g.entities), b.id)
    {
      var i := 0;
      while i < |gravityPoints|
        invariant 0 <= i <= |gravityPoints|
        invariant forall j | 0 <= j < i ::
                    gravityPoints[j].entities
                    == if !gravityPoints[j].InRadius(b.pos) then old(gravityPoints[j].entities)
                       else if add then old(gravityPoints[j].entities) + [b.id]
                       else RemoveFirst(old(gravityPoints[j].entities), b.id)
        invariant forall j | i <= j < |gravityPoints| :: gravityPoints[j].entities == old(gravityPoints[j].entities)
      {
        var g := gravityPoints[i];
        if g.InRadius(b.pos) {
          if add {
            g.entities := g.entities + [b.id];
          } else {
            g.entities := RemoveFirst(g.entities, b.id);
          }
        }
        i := i + 1;
      }
    }

    /** EventEntityAdded and EventEntityRemoved: an eligible grid joins, or leaves, the
        fields whose radius holds it; any other entity changes nothing. */
    method EntityEvent(b: Body, add: bool)
      requires Valid()
      modifies Fields()`entities
      ensures !Eligible(b) ==> forall g | g in gravityPoints :: g.entities == old(g.entities)
      ensures Eligible(b) ==>
                forall g | g in gravityPoints ::
                  g.entities == if !g.InRadius(b.pos) then old(g.entities)
                                else if add then old(g.entities) + [b.id]
                                else RemoveFirst(old(g.entities), b.id)
    {
      if b.isGrid && b.hasPhysics && !b.isStatic && b.physicsEnabled && !b.isPhantom {
        ChangeEntity(b, add);
      }
    }

    /**
     * The rebuild of UpdateBeforeSimulation: the eligible entities are gathered,
     * every member list is emptied, and each eligible entity joins every field whose
     * radius holds it. Each list ends up exactly the eligible entities in radius.
     */
    method Refresh(all: seq<Body>)
      requires Valid()
      modifies Fields()`entities
      ensures forall g | g in gravityPoints ::
                g.entities == InField(g.center, g.generator.radius, Select(all, Eligible))
    {
      var eligible := Select(all, Eligible);
      ClearEntities();
      var i := 0;
      while i < |eligible|
        invariant 0 <= i <= |eligible|
        invariant forall g | g in gravityPoints :: g.entities == InField(g.center, g.generator.radius, eligible[..i])
      {
        var ent := eligible[i];
        assert eligible[..i + 1] == eligible[..i] + [ent];
        forall g | g in gravityPoints
          ensures InField(g.center, g.generator.radius, eligible[..i + 1])
                  == InField(g.center, g.generator.radius, eligible[..i])
                     + (if FieldRules.InRadius(g.center, g.generator.radius, ent.pos) then [ent.id] else [])
        {
          InFieldAppend(g.center, g.generator.radius, eligible[..i], ent);
        }
        AddInRangeAll(ent);
        i := i + 1;
      }
      assert eligible[..|eligible|] == eligible;
    }

    /** The player as the fields see it: known only off the dedicated server, when
        notifications or the jetpack boost are on. */
    function PlayerView(c: Config, player: Option<Player>): (v: Option<Player>)
      ensures v.Some? <==> !isDedicated && (c.notify || c.jetpack > 0) && player.Some?
      ensures v.Some? ==> v == player
    {
      if !isDedicated && (c.notify || c.jetpack > 0) then player else None
    }

    /** Runs every field's tick in list order. */
    method UpdateFields(c: Config, world: map<int, Body>, player: Option<Player>) returns (effects: seq<Effect>)
      requires Valid()
      modifies Fields()`notified
      ensures |effects| == |gravityPoints|
      ensures forall k | 0 <= k < |gravityPoints| ::
                effects[k] == gravityPoints[k].UpdateEffect(c, init, world, PlayerView(c, player), old(gravityPoints[k].notified))
      ensures forall k | 0 <= k < |gravityPoints| :: gravityPoints[k].notified == effects[k].notified
      ensures forall g | g in gravityPoints :: g.entities == old(g.entities)
      ensures forall gen | gen in Generators() :: gen.markedForClose == old(gen.markedForClose)
    {
      var view := PlayerView(c, player);
      effects := [];
      var i := 0;
      while i < |gravityPoints|
        invariant 0 <= i <= |gravityPoints| && |effects| == i
        invariant forall k | 0 <= k < i ::
                    effects[k] == gravityPoints[k].UpdateEffect(c, init, world, view, old(gravityPoints[k].notified))
                    && gravityPoints[k].notified == effects[k].notified
        invariant forall k | i <= k < |gravityPoints| :: gravityPoints[k].notified == old(gravityPoints[k].notified)
      {
        var e := gravityPoints[i].Update(c, init, world, view);
        effects := effects + [e];
        i := i + 1;
      }
    }

    /** AddGravityPrefab: asks the engine for the prefab grid and, with `sync`,
        announces it to the other players. */
    method AddGravityPrefab(position: Vec3, radius: int, strength: real, sync: bool)
      modifies this`spawned, this`outbox
      ensures spawned == old(spawned) + (if prefabOk then [Prefab(position, radius, strength)] else [])
      ensures outbox == old(outbox) + (if prefabOk && sync then [Created(position, radius, strength)] else [])
    {
      if !prefabOk {
        return;
      }
      spawned := spawned + [Prefab(position, radius, strength)];
      if sync {
        outbox := outbox + [Created(position, radius, strength)];
      }
    }

    /** GetGravityInAsteroid: the first field, in list order, whose center lies in the
        asteroid's closed box, or null. */
    method GetGravityInAsteroid(a: Asteroid) returns (g: Gravity?)
      ensures g == null <==> FirstInBox(Centers(gravityPoints), a.corner, FarCorner(a)).None?
      ensures g != null ==> g == gravityPoints[FirstInBox(Centers(gravityPoints), a.corner, FarCorner(a)).value]
      ensures g == null <==> !HasField(a, Centers(gravityPoints))
    {
      var min := a.corner;
      var max := Add(min, ToVec3(a.size));
      var i := 0;
      while i < |gravityPoints|
        invariant 0 <= i <= |gravityPoints|
        invariant forall j | 0 <= j < i :: !InsideInclusive(gravityPoints[j].center, min, max)
      {
        if InsideInclusive(gravityPoints[i].center, min, max) {
          FirstInBoxAt(Centers(gravityPoints), min, max, i);
          return gravityPoints[i];
        }
        i := i + 1;
      }
      return null;
    }

    /** GetAsteroidData for the asteroid at index i, as the prefab it describes. */
    method AsteroidPrefab(c: Config, prefixes: seq<string>, asteroids: seq<Asteroid>, i: int) returns (p: Prefab)
      requires forall a {:trigger Measurable(a, c)} | a in asteroids && Physical(a) && Prefixed(a.storageName, prefixes)
                          && !HasField(a, Centers(gravityPoints)) ::
                 Measurable(a, c)
      requires 0 <= i < |asteroids|
      requires Physical(asteroids[i]) && Prefixed(asteroids[i].storageName, prefixes)
      requires !HasField(asteroids[i], Centers(gravityPoints))
      ensures PrefabsFor([p], [asteroids[i]], c)
    {
      assert Measurable(asteroids[i], c);
      var center, radius, strength := GetAsteroidData(asteroids[i], c);
      p := Prefab(center, radius, strength);
      assert PrefabFor([p][0], [asteroids[i]][0], c);
    }

    /** One step of the scan: the prefab for the asteroid at index i, if it is wanted. */
    method ScanStep(c: Config, prefixes: seq<string>, asteroids: seq<Asteroid>, i: int, prefabs: seq<Prefab>)
      returns (next: seq<Prefab>)
      requires forall a {:trigger Measurable(a, c)} | a in asteroids && Physical(a) && Prefixed(a.storageName, prefixes)
                          && !HasField(a, Centers(gravityPoints)) ::
                 Measurable(a, c)
      requires 0 <= i < |asteroids|
      requires PrefabsFor(prefabs, Wanted(asteroids[..i], prefixes, Centers(gravityPoints)), c)
      ensures PrefabsFor(next, Wanted(asteroids[..i + 1], prefixes, Centers(gravityPoints)), c)
    {
      var a := asteroids[i];
      ghost var centers := Centers(gravityPoints);
      assert asteroids[..i + 1] == asteroids[..i] + [a];
      WantedAppend(asteroids[..i], a, prefixes, centers);
      ghost var before := Wanted(asteroids[..i], prefixes, centers);
      // The wanted asteroids come from the list, so their caches are allocated and
      // the calls below leave them alone.
      WantedExactly(asteroids[..i], prefixes, centers);
      forall b | b in before
        ensures b in asteroids
      {
        assert Physical(b);
        assert b in asteroids[..i];
      }
      next := prefabs;
      if a.hasPhysics && a.physicsEnabled && !a.isPhantom {
        var matched := MatchesPrefix(a.storageName, prefixes);
        if matched {
          var existing := GetGravityInAsteroid(a);
          if existing == null {
            var p := AsteroidPrefab(c, prefixes, asteroids, i);
            PrefabsAppend(prefabs, before, c, a, p);
            next := prefabs + [p];
            return;
          }
        }
      }
      assert before + [] == before;
    }

    /**
     * The scan of CheckAsteroids: for each physical asteroid whose name carries a
     * prefix and whose box holds no field, in order, the prefab GetAsteroidData
     * describes. Nothing changes: a spawned prefab joins the field list only when its
     * generator block registers, so choosing first and spawning after agrees with
     * spawning inside the scan.
     */
    method WantedPrefabs(c: Config, prefixes: seq<string>, asteroids: seq<Asteroid>) returns (prefabs: seq<Prefab>)
      requires forall a {:trigger Measurable(a, c)} | a in asteroids && Physical(a) && Prefixed(a.storageName, prefixes)
                          && !HasField(a, Centers(gravityPoints)) ::
                 Measurable(a, c)
      ensures PrefabsFor(prefabs, Wanted(asteroids, prefixes, Centers(gravityPoints)), c)
    {
      prefabs := [];
      var i := 0;
      while i < |asteroids|
        invariant 0 <= i <= |asteroids|
        invariant PrefabsFor(prefabs, Wanted(asteroids[..i], prefixes, Centers(gravityPoints)), c)
      {
        prefabs := ScanStep(c, prefixes, asteroids, i, prefabs);
        i := i + 1;
      }
      assert asteroids[..|asteroids|] == asteroids;
    }

    /** AddGravityPrefab for each prefab in turn, each announced. */
    method SpawnAll(prefabs: seq<Prefab>)
      modifies this`spawned, this`outbox
      ensures spawned == old(spawned) + (if prefabOk then prefabs else [])
      ensures outbox == old(outbox) + (if prefabOk then Announce(prefabs) else [])
    {
      var j := 0;
      while j < |prefabs|
        invariant 0 <= j <= |prefabs|
        invariant spawned == old(spawned) + (if prefabOk then prefabs[..j] else [])
        invariant outbox == old(outbox) + (if prefabOk then Announce(prefabs[..j]) else [])
      {
        var p := prefabs[j];
        assert prefabs[..j + 1] == prefabs[..j] + [p];
        AnnounceAppend(prefabs[..j], p);
        AddGravityPrefab(p.position, p.radius, p.strength, true);
        j := j + 1;
      }
      assert prefabs[..|prefabs|] == prefabs;
    }

    /**
     * CheckAsteroids: with the prefix list switched off nothing happens. Otherwise
     * every physical asteroid whose name carries a prefix and whose box holds no
     * field gets a prefab at the center of its content, announced to the other
     * players; then fields sharing a center with an earlier one are closed.
     */
    method CheckAsteroids(c: Config, asteroids: seq<Asteroid>)
      requires c.asteroidPrefix.Some? ==>
                 forall a {:trigger Measurable(a, c)} | a in asteroids && Physical(a) && Prefixed(a.storageName, c.asteroidPrefix.value)
                            && !HasField(a, Centers(gravityPoints)) ::
                   Measurable(a, c)
      modifies this`spawned, this`outbox, Generators()`markedForClose
      ensures c.asteroidPrefix.None? ==>
                spawned == old(spawned) && outbox == old(outbox)
                && forall gen | gen in Generators() :: gen.markedForClose == old(gen.markedForClose)
      ensures c.asteroidPrefix.Some? && !prefabOk ==> spawned == old(spawned) && outbox == old(outbox)
      ensures c.asteroidPrefix.Some? && prefabOk ==>
                |spawned| >= |old(spawned)| && spawned[..|old(spawned)|] == old(spawned)
                && PrefabsFor(spawned[|old(spawned)|..], Wanted(asteroids, c.asteroidPrefix.value, Centers(gravityPoints)), c)
                && outbox == old(outbox) + Announce(spawned[|old(spawned)|..])
      ensures c.asteroidPrefix.Some? ==>
                forall gen | gen in Generators() ::
                  gen.markedForClose == (old(gen.markedForClose)
                                         || exists i | 0 <= i < |gravityPoints| ::
                                              gravityPoints[i].generator == gen && SeenBefore(Centers(gravityPoints), i))
    {
      if c.asteroidPrefix.None? {
        return;
      }
      SpawnWanted(c, c.asteroidPrefix.value, asteroids);
      ghost var wanted := Wanted(asteroids, c.asteroidPrefix.value, Centers(gravityPoints));
      WantedExactly(asteroids, c.asteroidPrefix.value, Centers(gravityPoints));
      forall b | b in wanted
        ensures b in asteroids
      {
        assert Physical(b);
      }
      RemoveDuplicates();
    }

    /** The first part of CheckAsteroids: a prefab, announced, for every wanted asteroid. */
    method SpawnWanted(c: Config, prefixes: seq<string>, asteroids: seq<Asteroid>)
      requires forall a {:trigger Measurable(a, c)} | a in asteroids && Physical(a) && Prefixed(a.storageName, prefixes)
                          && !HasField(a, Centers(gravityPoints)) ::
                 Measurable(a, c)
      modifies this`spawned, this`outbox
      ensures !prefabOk ==> spawned == old(spawned) && outbox == old(outbox)
      ensures prefabOk ==>
                |spawned| >= |old(spawned)| && spawned[..|old(spawned)|] == old(spawned)
                && PrefabsFor(spawned[|old(spawned)|..], Wanted(asteroids, prefixes, Centers(gravityPoints)), c)
                && outbox == old(outbox) + Announce(spawned[|old(spawned)|..])
    {
      var prefabs := WantedPrefabs(c, prefixes, asteroids);
      ghost var wanted := Wanted(asteroids, prefixes, Centers(gravityPoints));
      WantedExactly(asteroids, prefixes, Centers(gravityPoints));
      forall b | b in wanted
        ensures b in asteroids
      {
        assert Physical(b);
      }
      SpawnAll(prefabs);
      if prefabOk {
        assert spawned[|old(spawned)|..] == prefabs;
      }
    }

    /** SyncRemoved after decoding: closes, without telling anyone, the first field in
        list order whose center lies within one unit of the position on every axis. */
    method SyncRemoved(position: Vec3)
      modifies Generators()`markedForClose
      ensures var first := FirstInBox(Centers(gravityPoints), Sub(position, One), Add(position, One));
              forall gen | gen in Generators() ::
                gen.markedForClose == (old(gen.markedForClose)
                                       || (first.Some? && gen == gravityPoints[first.value].generator))
    {
      var min := Sub(position, One);
      var max := Add(position, One);
      var i := 0;
      while i < |gravityPoints|
        invariant 0 <= i <= |gravityPoints|
        invariant forall j | 0 <= j < i :: !InsideInclusive(gravityPoints[j].center, min, max)
      {
        var g := gravityPoints[i];
        if InsideInclusive(g.center, min, max) {
          FirstInBoxAt(Centers(gravityPoints), min, max, i);
          assert g.generator in Generators();
          var _ := g.Remove(false, fmt);
          return;
        }
        i := i + 1;
      }
    }

    /**
     * ReceivedSyncPacket: decodes the message and applies it. A create spawns the
     * prefab without announcing it again; a remove closes the field near the
     * position; a dropped message changes nothing.
     */
    method ReceivedSyncPacket(data: string) returns (r: Option<LegacyCommand>)
      modifies this`spawned, this`outbox, Generators()`markedForClose
      ensures r == ReceivedSync(fmt, data)
      ensures outbox == old(outbox)
      ensures r.None? || r.value.Created? ==>
                forall gen | gen in Generators() :: gen.markedForClose == old(gen.markedForClose)
      ensures r.None? || r.value.Removed? ==> spawned == old(spawned)
      ensures r.Some? && r.value.Created? ==>
                spawned == old(spawned)
                           + (if prefabOk then [Prefab(r.value.position, r.value.radius, r.value.strength)] else [])
      ensures r.Some? && r.value.Removed? ==>
                var first := FirstInBox(Centers(gravityPoints), Sub(r.value.position, One), Add(r.value.position, One));
                forall gen | gen in Generators() ::
                  gen.markedForClose == (old(gen.markedForClose)
                                         || (first.Some? && gen == gravityPoints[first.value].generator))
    {
      r := ReceivedSync(fmt, data);
      if r.Some? {
        match r.value
        case Created(position, radius, strength) =>
          AddGravityPrefab(position, radius, strength, false);
        case Removed(position) =>
          SyncRemoved(position);
      }
    }

    /**
     * UpdateBeforeSimulation: initialises the session once the engine session
     * exists, advances the counters, runs the asteroid scan and the member-list
     * rebuild when they are due, and then every field's tick. Before the session
     * exists nothing changes; the scan is the only step that spawns, sends or
     * closes, and the rebuild the only step that changes member lists.
     */
    method UpdateBeforeSimulation(c: Config, sessionReady: bool, all: seq<Body>, world: map<int, Body>,
                                  player: Option<Player>, asteroids: seq<Asteroid>)
      returns (step: Option<Step>, effects: seq<Effect>)
      requires Valid()
      requires Advance(Counters(tick, extraTick)).scan && c.asteroidPrefix.Some? ==>
                 forall a {:trigger Measurable(a, c)} | a in asteroids && Physical(a) && Prefixed(a.storageName, c.asteroidPrefix.value)
                            && !HasField(a, Centers(gravityPoints)) ::
                   Measurable(a, c)
      modifies this`init, this`tick, this`extraTick, this`spawned, this`outbox
      modifies Fields()`entities, Fields()`notified, Generators()`markedForClose
      ensures !old(init) && !sessionReady ==>
                step.None? && effects == [] && !init && tick == old(tick) && extraTick == old(extraTick)
                && forall g | g in gravityPoints :: g.notified == old(g.notified)
      ensures old(init) || sessionReady ==>
                init && step == Some(Advance(old(Counters(tick, extraTick))))
                && Counters(tick, extraTick) == step.value.next
      ensures !(step.Some? && step.value.scan) ==>
                spawned == old(spawned) && outbox == old(outbox)
                && forall gen | gen in Generators() :: gen.markedForClose == old(gen.markedForClose)
      ensures step.Some? && step.value.scan && c.asteroidPrefix.None? ==>
                spawned == old(spawned) && outbox == old(outbox)
                && forall gen | gen in Generators() :: gen.markedForClose == old(gen.markedForClose)
      ensures step.Some? && step.value.scan && c.asteroidPrefix.Some? && !prefabOk ==> spawned == old(spawned) && outbox == old(outbox)
      ensures step.Some? && step.value.scan && c.asteroidPrefix.Some? && prefabOk ==>
                |spawned| >= |old(spawned)| && spawned[..|old(spawned)|] == old(spawned)
                && PrefabsFor(spawned[|old(spawned)|..], Wanted(asteroids, c.asteroidPrefix.value, Centers(gravityPoints)), c)
                && outbox == old(outbox) + Announce(spawned[|old(spawned)|..])
      ensures step.Some? && step.value.scan && c.asteroidPrefix.Some? ==>
                forall gen | gen in Generators() ::
                  gen.markedForClose == (old(gen.markedForClose)
                                         || exists i | 0 <= i < |gravityPoints| ::
                                              gravityPoints[i].generator == gen && SeenBefore(Centers(gravityPoints), i))
      ensures step.Some? && step.value.refresh && c.affectShips && |gravityPoints| > 0 ==>
                forall g | g in gravityPoints :: g.entities == InField(g.center, g.generator.radius, Select(all, Eligible))
      ensures !(step.Some? && step.value.refresh && c.affectShips) ==>
                forall g | g in gravityPoints :: g.entities == old(g.entities)
      ensures |effects| == if step.Some? then |gravityPoints| else 0
      ensures forall k | 0 <= k < |effects| ::
                effects[k] == gravityPoints[k].UpdateEffect(c, true, world, PlayerView(c, player),
                                                            old(gravityPoints[k].notified))
                && gravityPoints[k].notified == effects[k].notified
    {
      effects := [];
      if !init {
        if !sessionReady {
          return None, [];
        }
        init := true;
      }
      var s := Tick();
      step := Some(s);
      effects := RunStep(c, s, all, world, player, asteroids);
    }

    /** The counters' step in UpdateBeforeSimulation: one tick, and the round count every SKIP_TICKS ticks. */
    method Tick() returns (s: Step)
      modifies this`tick, this`extraTick
      ensures s == Advance(old(Counters(tick, extraTick))) && Counters(tick, extraTick) == s.next
    {
      s := Advance(Counters(tick, extraTick));
      tick := tick + 1;
      if tick >= SKIP_TICKS {
        tick := 0;
        extraTick := extraTick + 1;
        if extraTick >= SKIP_EXTRA_TICKS {
          extraTick := 0;
        }
      }
    }

    /**
     * The work of UpdateBeforeSimulation on one step of the counters: the asteroid
     * scan once every SKIP_EXTRA_TICKS rounds, the member-list rebuild once a round
     * when ships are affected and some field exists, then every field's tick.
     */
    method RunStep(c: Config, s: Step, all: seq<Body>, world: map<int, Body>, player: Option<Player>,
                   asteroids: seq<Asteroid>)
      returns (effects: seq<Effect>)
      requires Valid() && init
      requires s.scan ==> s.refresh
      requires s.scan && c.asteroidPrefix.Some? ==>
                 forall a {:trigger Measurable(a, c)} | a in asteroids && Physical(a) && Prefixed(a.storageName, c.asteroidPrefix.value)
                            && !HasField(a, Centers(gravityPoints)) ::
                   Measurable(a, c)
      modifies this`spawned, this`outbox, Fields()`entities, Fields()`notified, Generators()`markedForClose
      ensures !s.scan ==>
                spawned == old(spawned) && outbox == old(outbox)
                && forall gen | gen in Generators() :: gen.markedForClose == old(gen.markedForClose)
      ensures s.scan && c.asteroidPrefix.None? ==>
                spawned == old(spawned) && outbox == old(outbox)
                && forall gen | gen in Generators() :: gen.markedForClose == old(gen.markedForClose)
      ensures s.scan && c.asteroidPrefix.Some? && !prefabOk ==> spawned == old(spawned) && outbox == old(outbox)
      ensures s.scan && c.asteroidPrefix.Some? && prefabOk ==>
                |spawned| >= |old(spawned)| && spawned[..|old(spawned)|] == old(spawned)
                && PrefabsFor(spawned[|old(spawned)|..], Wanted(asteroids, c.asteroidPrefix.value, Centers(gravityPoints)), c)
                && outbox == old(outbox) + Announce(spawned[|old(spawned)|..])
      ensures s.scan && c.asteroidPrefix.Some? ==>
                forall gen | gen in Generators() ::
                  gen.markedForClose == (old(gen.markedForClose)
                                         || exists i | 0 <= i < |gravityPoints| ::
                                              gravityPoints[i].generator == gen && SeenBefore(Centers(gravityPoints), i))
      ensures s.refresh && c.affectShips && |gravityPoints| > 0 ==>
                forall g | g in gravityPoints :: g.entities == InField(g.center, g.generator.radius, Select(all, Eligible))
      ensures !(s.refresh && c.affectShips) ==> forall g | g in gravityPoints :: g.entities == old(g.entities)
      ensures |effects| == |gravityPoints|
      ensures forall k | 0 <= k < |effects| ::
                effects[k] == gravityPoints[k].UpdateEffect(c, true, world, PlayerView(c, player),
                                                            old(gravityPoints[k].notified))
                && gravityPoints[k].notified == effects[k].notified
    {
      Scheduled(c, s, all, asteroids);
      effects := [];
      if |gravityPoints| > 0 {
        ghost var scanned := spawned[|old(spawned)|..];
        ghost var wanted := if c.asteroidPrefix.Some? then Wanted(asteroids, c.asteroidPrefix.value, Centers(gravityPoints)) else [];
        ghost var found := PrefabsFor(scanned, wanted, c);
        assert forall a | a in wanted :: a.voxels as object !in Fields();
        effects := UpdateFields(c, world, player);
        assert found == PrefabsFor(scanned, wanted, c);
      }
    }

    /**
     * The work due on a step of UpdateBeforeSimulation: the asteroid scan once every
     * SKIP_EXTRA_TICKS rounds, and the member-list rebuild once a round when ships are
     * affected and some field exists.
     */
    method Scheduled(c: Config, s: Step, all: seq<Body>, asteroids: seq<Asteroid>)
      requires Valid()
      requires s.scan ==> s.refresh
      requires s.scan && c.asteroidPrefix.Some? ==>
                 forall a {:trigger Measurable(a, c)} | a in asteroids && Physical(a) && Prefixed(a.storageName, c.asteroidPrefix.value)
                            && !HasField(a, Centers(gravityPoints)) ::
                   Measurable(a, c)
      modifies this`spawned, this`outbox, Fields()`entities, Generators()`markedForClose
      ensures !s.scan ==>
                spawned == old(spawned) && outbox == old(outbox)
                && forall gen | gen in Generators() :: gen.markedForClose == old(gen.markedForClose)
      ensures s.scan && c.asteroidPrefix.None? ==>
                spawned == old(spawned) && outbox == old(outbox)
                && forall gen | gen in Generators() :: gen.markedForClose == old(gen.markedForClose)
      ensures s.scan && c.asteroidPrefix.Some? && !prefabOk ==> spawned == old(spawned) && outbox == old(outbox)
      ensures s.scan && c.asteroidPrefix.Some? && prefabOk ==>
                |spawned| >= |old(spawned)| && spawned[..|old(spawned)|] == old(spawned)
                && PrefabsFor(spawned[|old(spawned)|..], Wanted(asteroids, c.asteroidPrefix.value, Centers(gravityPoints)), c)
                && outbox == old(outbox) + Announce(spawned[|old(spawned)|..])
      ensures s.scan && c.asteroidPrefix.Some? ==>
                forall gen | gen in Generators() ::
                  gen.markedForClose == (old(gen.markedForClose)
                                         || exists i | 0 <= i < |gravityPoints| ::
                                              gravityPoints[i].generator == gen && SeenBefore(Centers(gravityPoints), i))
      ensures s.refresh && c.affectShips && |gravityPoints| > 0 ==>
                forall g | g in gravityPoints :: g.entities == InField(g.center, g.generator.radius, Select(all, Eligible))
      ensures !(s.refresh && c.affectShips) ==> forall g | g in gravityPoints :: g.entities == old(g.entities)
      ensures forall g | g in gravityPoints :: g.notified == old(g.notified)
    {
      if s.scan {
        CheckAsteroids(c, asteroids);
      }
      if s.refresh && c.affectShips && |gravityPoints| > 0 {
        ghost var scanned := spawned[|old(spawned)|..];
        ghost var wanted := if c.asteroidPrefix.Some? then Wanted(asteroids, c.asteroidPrefix.value, Centers(gravityPoints)) else [];
        ghost var found := PrefabsFor(scanned, wanted, c);
        assert forall a | a in wanted :: a.voxels as object !in Fields();
        Refresh(all);
        assert found == PrefabsFor(scanned, wanted, c);
      }
    }

    /**
     * The duplicate sweep that ends CheckAsteroids: walks the list remembering the
     * centers seen, and closes (without telling anyone) each field whose center was
     * seen at an earlier field. Exactly those generators are marked.
     */
    method RemoveDuplicates()
      modifies Generators()`markedForClose
      ensures forall gen | gen in Generators() ::
                gen.markedForClose == (old(gen.markedForClose)
                                       || exists i | 0 <= i < |gravityPoints| ::
                                            gravityPoints[i].generator == gen && SeenBefore(Centers(gravityPoints), i))
    {
      var centers := Centers(gravityPoints);
      var existing: set<Vec3> := {};
      var i := 0;
      while i < |gravityPoints|
        invariant 0 <= i <= |gravityPoints|
        invariant forall p :: p in existing <==> exists j | 0 <= j < i :: centers[j] == p
        invariant forall gen | gen in Generators() ::
                    gen.markedForClose == (old(gen.markedForClose)
                                           || exists k | 0 <= k < i ::
                                                gravityPoints[k].generator == gen && SeenBefore(centers, k))
      {
        var g := gravityPoints[i];
        assert g.generator in Generators();
        if g.center in existing {
          var _ := g.Remove(false, fmt);
        } else {
          existing := existing + {g.center};
        }
        i := i + 1;
      }
    }
  }

  /** `r` is `ids` without its element at `k`, which is the first occurrence of `id`. */
  predicate RemovedAt(ids: seq<int>, id: int, r: seq<int>, k: int)
  {
    0 <= k < |ids| && ids[k] == id && id !in ids[..k] && r == ids[..k] + ids[k + 1..]
  }

  /** Removes the first occurrence of the id, as List.Remove does. */
  function RemoveFirst(ids: seq<int>, id: int): (r: seq<int>)
    ensures id !in ids ==> r == ids
    ensures id in ids ==> |r| == |ids| - 1 && multiset(r) == multiset(ids) - multiset{id}
  {
    if ids == [] then []
    else
      assert ids == [ids[0]] + ids[1..];
      if ids[0] == id then ids[1..]
      else [ids[0]] + RemoveFirst(ids[1..], id)
  }

  /** The occurrence RemoveFirst drops is the first one, and the other ids keep their
      order. */
  lemma {:induction false} RemoveFirstDropsFirst(ids: seq<int>, id: int)
    ensures id in ids ==> exists k :: RemovedAt(ids, id, RemoveFirst(ids, id), k)
    decreases |ids|
  {
    if ids != [] {
      if ids[0] == id {
        assert RemoveFirst(ids, id) == ids[..0] + ids[1..];
        assert RemovedAt(ids, id, RemoveFirst(ids, id), 0);
      } else {
        RemoveFirstDropsFirst(ids[1..], id);
        ConsKeepsFirst(ids, id, RemoveFirst(ids[1..], id));
      }
    }
  }

  /** Putting back a head that differs from `id` moves the removed occurrence one
      place to the right and keeps it the first one. */
  lemma ConsKeepsFirst(ids: seq<int>, id: int, rest: seq<int>)
    requires ids != [] && ids[0] != id
    requires id in ids[1..] ==> exists k :: RemovedAt(ids[1..], id, rest, k)
    ensures id in ids ==> exists k :: RemovedAt(ids, id, [ids[0]] + rest, k)
  {
    if id in ids {
      assert ids == [ids[0]] + ids[1..];
      var tail := ids[1..];
      var k :| RemovedAt(tail, id, rest, k);
      assert ids[..k + 1] == [ids[0]] + tail[..k];
      assert ids[k + 2..] == tail[k + 1..];
      assert RemovedAt(ids, id, [ids[0]] + rest, k + 1);
    }
  }

  lemma FirstInBoxAt(centers: seq<Vec3>, lo: Vec3, hi: Vec3, i: int)
    requires 0 <= i < |centers| && InsideInclusive(centers[i], lo, hi)
    requires forall j | 0 <= j < i :: !InsideInclusive(centers[j], lo, hi)
    ensures FirstInBox(centers, lo, hi) == Some(i)
  {
    var r := FirstInBox(centers, lo, hi);
    assert r.Some?;
    if r.value < i {
    } else if r.value > i {
    }
  }
}
