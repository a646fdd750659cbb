/**
 * The rules a gravity field applies, shared by the two field classes of the mod
 * (`Gravity` in Gravity.cs and `GravityPoint` in GravityPoint.cs): the engine's
 * generator block, the entity snapshot the mod reads, the radius test, the radius
 * and strength clamps, the effective-mass formula, the jetpack gate and the
 * edge-triggered enter/leave notice.
 */
module FieldRules {
  import opened Wrappers
  import opened Vectors

  const RADIUS_MIN: int := 1
  const RADIUS_MAX: int := 999999999
  const STRENGTH_MIN: real := 0.0
  const STRENGTH_MAX: real := 1.0
  /** Standard gravity: the acceleration of a field at full strength, in m/s². */
  const G: real := 9.80665
  /** The generator block's own maximum gravity value. */
  const GG_MAX_GRAVITY: real := 9.81
  /** The length of one simulation tick in seconds. */
  const TICK_SECONDS: real := 0.0166666666666667

  /**
   * The spherical gravity generator block a field is built on, reduced to what the
   * mod reads and writes. Closing the grid it sits on marks it for close.
   */
  class Generator {
    /** EntityId of the grid the block sits on. */
    const gridId: int
    /** World position of that grid. */
    const gridPosition: Vec3
    /** World position of the block itself. */
    const position: Vec3
    /** World position of the block's grid cell. */
    const cellPosition: Vec3
    var radius: int
    var gravity: real
    var enabled: bool
    var closed: bool
    var markedForClose: bool

    constructor (gridId: int, gridPosition: Vec3, position: Vec3, cellPosition: Vec3,
                 radius: int, gravity: real)
      ensures this.gridId == gridId && this.gridPosition == gridPosition
      ensures this.position == position && this.cellPosition == cellPosition
      ensures this.radius == radius && this.gravity == gravity
      ensures enabled && !closed && !markedForClose
    {
      this.gridId := gridId;
      this.gridPosition := gridPosition;
      this.position := position;
      this.cellPosition := cellPosition;
      this.radius := radius;
      this.gravity := gravity;
      enabled := true;
      closed := false;
      markedForClose := false;
    }
  }

  /** A prefab grid the mod asks the engine to create: its generator gets the radius
      and `strength * G` as its acceleration. */
  datatype Prefab = Prefab(position: Vec3, radius: int, strength: real)

  /** What the mod reads of an entity at one moment. */
  datatype Body = Body(id: int, pos: Vec3, mass: real, isGrid: bool, hasPhysics: bool,
                       isStatic: bool, physicsEnabled: bool, isPhantom: bool,
                       closed: bool, markedForClose: bool)

  /** A grid whose physics is present, dynamic, enabled and not phantom: the entities
      a field may pull on. */
  predicate Eligible(b: Body)
  {
    b.isGrid && b.hasPhysics && !b.isStatic && b.physicsEnabled && !b.isPhantom
  }

  /** The player's controlled entity, as far as the jetpack rule needs it. */
  datatype Player = Player(pos: Vec3, isCharacter: bool, jetpackOn: bool, dampenersOn: bool)

  // ---------------------------------------------------------------- radius test

  /** The squared distance from the center is at most the squared radius. */
  predicate InRadius(center: Vec3, radius: int, pos: Vec3)
  {
    DistanceSquared(center, pos) <= (radius * radius) as real
  }

  lemma SquaresOrdered(a: int, b: int)
    requires 0 <= a && 0 <= b
    ensures a <= b <==> a * a <= b * b
  {
    if a <= b {
      assert a * a <= a * b <= b * b;
    } else {
      assert b * b <= b * a < a * a;
    }
  }

  /** Along an axis through the center, the whole-metre offsets in radius are exactly
      those at most `radius` away: the sphere's surface belongs to the field. */
  lemma InRadiusAlongAxis(center: Vec3, radius: int, t: int)
    requires radius >= 0
    ensures InRadius(center, radius, Vec3(center.x + t as real, center.y, center.z))
            <==> -radius <= t <= radius
  {
    var p := Vec3(center.x + t as real, center.y, center.z);
    var a := Abs(t);
    assert (a * a) as real == (a as real) * (a as real);
    assert DistanceSquared(center, p) == (a * a) as real;
    SquaresOrdered(a, radius);
  }

  /** A larger radius keeps every point a smaller one holds. */
  lemma InRadiusGrows(center: Vec3, r1: int, r2: int, pos: Vec3)
    requires 0 <= r1 <= r2
    requires InRadius(center, r1, pos)
    ensures InRadius(center, r2, pos)
  {
    assert r1 * r1 <= r1 * r2 <= r2 * r2;
  }

  /** The bodies of a list that satisfy `keep`, in list order: the filter the engine's
      entity enumeration applies, and the static test of GravityPoint.SlowUpdate. */
  function Select(bodies: seq<Body>, keep: Body -> bool): seq<Body>
  {
    if bodies == [] then []
    else
      var last := bodies[|bodies| - 1];
      Select(bodies[..|bodies| - 1], keep) + (if keep(last) then [last] else [])
  }

  lemma SelectAppend(bodies: seq<Body>, b: Body, keep: Body -> bool)
    ensures Select(bodies + [b], keep) == Select(bodies, keep) + (if keep(b) then [b] else [])
  {
    assert (bodies + [b])[..|bodies|] == bodies;
  }

  /** Selecting keeps exactly the bodies that satisfy the test. */
  lemma {:induction false} SelectExactly(bodies: seq<Body>, keep: Body -> bool, b: Body)
    ensures b in Select(bodies, keep) <==> b in bodies && keep(b)
  {
    if bodies != [] {
      var init := bodies[..|bodies| - 1];
      SelectExactly(init, keep, b);
      assert bodies == init + [bodies[|bodies| - 1]];
    }
  }

  /** A body the physics engine moves: the static test of GravityPoint.SlowUpdate. */
  predicate Dynamic(b: Body)
  {
    !b.isStatic
  }

  /** The ids of the bodies within a field, in list order: the membership list a
      refresh builds. */
  function InField(center: Vec3, radius: int, bodies: seq<Body>): seq<int>
  {
    if bodies == [] then []
    else
      var last := bodies[|bodies| - 1];
      InField(center, radius, bodies[..|bodies| - 1])
        + (if InRadius(center, radius, last.pos) then [last.id] else [])
  }

  lemma InFieldAppend(center: Vec3, radius: int, bodies: seq<Body>, b: Body)
    ensures InField(center, radius, bodies + [b])
            == InField(center, radius, bodies) + (if InRadius(center, radius, b.pos) then [b.id] else [])
  {
    assert (bodies + [b])[..|bodies|] == bodies;
  }

  /** An id is a member exactly when some listed body with that id lies within the
      radius, the boundary included. */
  lemma {:induction false} InFieldExactly(center: Vec3, radius: int, bodies: seq<Body>, id: int)
    ensures id in InField(center, radius, bodies)
            <==> exists k :: 0 <= k < |bodies| && bodies[k].id == id && InRadius(center, radius, bodies[k].pos)
  {
    if bodies != [] {
      var n := |bodies| - 1;
      var init := bodies[..n];
      InFieldExactly(center, radius, init, id);
      assert forall k :: 0 <= k < n ==> init[k] == bodies[k];
    }
  }

  // ---------------------------------------------------------------- clamps

  /** The radius SetRadius stores: the request limited to [RADIUS_MIN, RADIUS_MAX]. */
  function ClampRadius(value: int): (r: int)
    ensures RADIUS_MIN <= r <= RADIUS_MAX
    ensures RADIUS_MIN <= value <= RADIUS_MAX ==> r == value
    ensures value < RADIUS_MIN ==> r == RADIUS_MIN
    ensures value > RADIUS_MAX ==> r == RADIUS_MAX
  {
    Abs(Min(Max(value, RADIUS_MIN), RADIUS_MAX))
  }

  /** The strength SetStrength stores: the request limited to [STRENGTH_MIN, STRENGTH_MAX]. */
  function ClampStrength(value: real): (s: real)
    ensures STRENGTH_MIN <= s <= STRENGTH_MAX
    ensures STRENGTH_MIN <= value <= STRENGTH_MAX ==> s == value
    ensures value < STRENGTH_MIN ==> s == STRENGTH_MIN
    ensures value > STRENGTH_MAX ==> s == STRENGTH_MAX
  {
    var c := if value < STRENGTH_MIN then STRENGTH_MIN
             else if value > STRENGTH_MAX then STRENGTH_MAX else value;
    if c < 0.0 then -c else c
  }

  /** Clamping is idempotent: a stored radius is stored unchanged when set again. */
  lemma ClampRadiusIdempotent(value: int)
    ensures ClampRadius(ClampRadius(value)) == ClampRadius(value)
  {
  }

  /** A stored strength is stored unchanged when set again. */
  lemma ClampStrengthIdempotent(value: real)
    ensures ClampStrength(ClampStrength(value)) == ClampStrength(value)
  {
  }

  /** The acceleration a field applies, from its generator's gravity value. */
  function FieldAcceleration(gravity: real): real
  {
    G * (gravity / GG_MAX_GRAVITY)
  }

  /** The generator gravity value SetStrength writes for a strength; the field then
      accelerates at that fraction of standard gravity. */
  function GeneratorGravity(strength: real): (g: real)
    ensures FieldAcceleration(g) == G * strength
    ensures strength > 0.0 <==> g > 0.0
  {
    GG_MAX_GRAVITY * strength
  }

  // ---------------------------------------------------------------- force pass

  /**
   * The mass a field pulls with. Above `limit`, the excess is divided by `divide`
   * when `divide` is positive; otherwise a positive `limit` caps the mass.
   */
  function EffectiveMass(mass: real, limit: int, divide: int): (m: real)
    ensures m <= mass
    ensures mass <= limit as real ==> m == mass
    ensures mass >= 0.0 && limit >= 0 ==> m >= 0.0
    ensures divide <= 0 && limit > 0 && mass > limit as real ==> m == limit as real
  {
    if divide > 0 then
      (if mass > limit as real then
         DivisionShrinks(mass - limit as real, divide as real);
         limit as real + (mass - limit as real) / divide as real
       else mass)
    else if limit > 0 then
      (if mass < limit as real then mass else limit as real)
    else
      mass
  }

  lemma DivisionShrinks(x: real, d: real)
    requires x >= 0.0 && d >= 1.0
    ensures 0.0 <= x / d <= x
  {
    var q := x / d;
    assert q * d == x;
    assert q * (d - 1.0) >= 0.0;
  }

  lemma DivisionMonotone(x: real, y: real, d: real)
    requires x <= y && d > 0.0
    ensures x / d <= y / d
  {
    var gap := y / d - x / d;
    assert gap * d == y - x;
  }

  /** A heavier entity is never pulled with less mass. */
  lemma EffectiveMassMonotone(m1: real, m2: real, limit: int, divide: int)
    requires m1 <= m2
    ensures EffectiveMass(m1, limit, divide) <= EffectiveMass(m2, limit, divide)
  {
    var l := limit as real;
    if divide > 0 && m2 > l {
      var d := divide as real;
      DivisionShrinks(m2 - l, d);
      if m1 > l {
        DivisionMonotone(m1 - l, m2 - l, d);
      }
    }
  }

  /** One force application: the entity and the mass it is pulled with. */
  datatype Push = Push(id: int, mass: real)

  /** The entity is still in the world and neither closed nor marked for close. */
  predicate Live(world: map<int, Body>, id: int)
  {
    id in world && !world[id].closed && !world[id].markedForClose
  }

  /** The pushes of one force pass over a field's entity list, in list order. */
  function Pushes(ids: seq<int>, world: map<int, Body>, limit: int, divide: int): seq<Push>
  {
    if ids == [] then []
    else
      var last := ids[|ids| - 1];
      Pushes(ids[..|ids| - 1], world, limit, divide)
        + (if Live(world, last) then [Push(last, EffectiveMass(world[last].mass, limit, divide))] else [])
  }

  /** A force pass pushes exactly the live entities of the list, each with its
      effective mass. */
  lemma {:induction false} PushesExactly(ids: seq<int>, world: map<int, Body>, limit: int, divide: int, p: Push)
    ensures p in Pushes(ids, world, limit, divide)
            <==> p.id in ids && Live(world, p.id) && p.mass == EffectiveMass(world[p.id].mass, limit, divide)
  {
    if ids != [] {
      var init := ids[..|ids| - 1];
      PushesExactly(init, world, limit, divide, p);
      assert ids == init + [ids[|ids| - 1]];
    }
  }

  /** The loop over a field's entity list that applies one force per live entity. */
  method ApplyForces(ids: seq<int>, world: map<int, Body>, limit: int, divide: int)
    returns (pushes: seq<Push>)
    ensures pushes == Pushes(ids, world, limit, divide)
  {
    pushes := [];
    var i := 0;
    while i < |ids|
      invariant 0 <= i <= |ids|
      invariant pushes == Pushes(ids[..i], world, limit, divide)
    {
      var id := ids[i];
      assert ids[..i + 1][..i] == ids[..i];
      if id in world && !world[id].closed && !world[id].markedForClose {
        pushes := pushes + [Push(id, EffectiveMass(world[id].mass, limit, divide))];
      }
      i := i + 1;
    }
    assert ids[..|ids|] == ids;
  }

  // ---------------------------------------------------------------- jetpack and notices

  /**
   * Whether the player's velocity is nudged toward the field: the jetpack share is
   * positive, the player is a character with the jetpack on, and in hover mode the
   * dampeners are off.
   */
  function JetpackBoosts(jetpack: int, hover: bool, player: Player): (b: bool)
    ensures b <==> jetpack > 0 && player.isCharacter && player.jetpackOn
                   && (!hover || !player.dampenersOn)
    ensures hover && player.dampenersOn ==> !b
  {
    if jetpack > 0 then
      if player.isCharacter then
        player.jetpackOn && (if hover then !player.dampenersOn else true)
      else false
    else false
  }

  /** The velocity change per tick the jetpack rule applies toward the center. */
  function JetpackSpeedChange(acceleration: real, jetpack: int): real
  {
    acceleration * (jetpack as real / 100.0) * TICK_SECONDS
  }

  datatype Notice = Entering | Leaving

  datatype NotifyOutcome = NotifyOutcome(notified: bool, notice: Option<Notice>)

  /**
   * One step of the enter/leave notice: inside the field an unnotified player is told
   * "Entering", outside a notified one is told "Leaving". A notice is shown exactly
   * when the flag flips, and the flag only flips while notices are on.
   */
  function NotifyStep(notify: bool, notified: bool, inside: bool): (r: NotifyOutcome)
    ensures r.notice == Some(Entering) <==> !notified && r.notified
    ensures r.notice == Some(Leaving) <==> notified && !r.notified
    ensures r.notified != notified ==> notify && r.notified == inside
  {
    if inside then
      if notify && !notified then NotifyOutcome(true, Some(Entering)) else NotifyOutcome(notified, None)
    else
      if notify && notified then NotifyOutcome(false, Some(Leaving)) else NotifyOutcome(notified, None)
  }

  /** The notices shown over a run of updates, given where the player was each time. */
  function NoticeRun(notify: bool, notified: bool, insides: seq<bool>): seq<Notice>
    decreases |insides|
  {
    if insides == [] then []
    else
      var o := NotifyStep(notify, notified, insides[0]);
      (if o.notice.Some? then [o.notice.value] else []) + NoticeRun(notify, o.notified, insides[1..])
  }

  /** Notices alternate: never two "Entering" or two "Leaving" in a row, and the first
      one is "Leaving" exactly when the player started out notified. */
  lemma {:induction false} NoticesAlternate(notify: bool, notified: bool, insides: seq<bool>)
    ensures var ns := NoticeRun(notify, notified, insides);
            (forall k :: 0 <= k < |ns| - 1 ==> ns[k] != ns[k + 1])
            && (|ns| > 0 ==> ns[0] == (if notified then Leaving else Entering))
    decreases |insides|
  {
    if insides != [] {
      var o := NotifyStep(notify, notified, insides[0]);
      NoticesAlternate(notify, o.notified, insides[1..]);
    }
  }
}
