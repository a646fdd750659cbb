/**
 * GravityPoint.cs: a field of the second, id-based design, and the registry that
 * maps the entity id of each field's grid to the field.
 */
module GravityPoints {
  import opened Wrappers
  import opened Vectors
  import opened Strings
  import opened FieldRules
  import opened Settings
  import opened FieldPass
  import opened SyncMessages

  /** What the engine hands back after creating the prefab grid: the id it assigned
      and the generator and reactor blocks found on the grid. */
  datatype Grid = Grid(assignedId: int, generator: Generator?, hasReactor: bool)

  /** The object builder Spawn hands to the engine: the prefab grid, and the entity id
      it asks for when one was given. */
  datatype SpawnRequest = SpawnRequest(prefab: Prefab, entityId: Option<int>)

  class GravityPoint {
    const generator: Generator
    /** World position of the generator block. */
    const center: Vec3
    /** Ids of the entities the field pulls on. */
    var entsInRadius: seq<int>
    var notified: bool

    constructor (generator: Generator)
      ensures this.generator == generator && center == generator.position
      ensures entsInRadius == [] && !notified
    {
      this.generator := generator;
      center := generator.position;
      entsInRadius := [];
      notified := false;
    }

    /** GravityPoint.Create: a field exists only on a grid holding both a generator
        and a reactor block. */
    static method Create(grid: Grid) returns (g: GravityPoint?)
      ensures g == null <==> grid.generator == null || !grid.hasReactor
      ensures g != null ==> fresh(g) && g.generator == grid.generator && g.center == grid.generator.position
      ensures g != null ==> g.entsInRadius == [] && !g.notified
    {
      if grid.generator == null || !grid.hasReactor {
        return null;
      }
      g := new GravityPoint(grid.generator);
    }

    predicate InRadius(pos: Vec3)
      reads generator
    {
      FieldRules.InRadius(center, generator.radius, pos)
    }

    method SetEnabled(on: bool)
      modifies generator`enabled
      ensures generator.enabled == on
    {
      generator.enabled := on;
    }

    method SetRadius(value: int) returns (radius: int)
      modifies generator`radius
      ensures radius == ClampRadius(value) && generator.radius == radius
    {
      radius := Abs(Min(Max(value, RADIUS_MIN), RADIUS_MAX));
      generator.radius := radius;
    }

    method SetStrength(value: real) returns (strength: real)
      modifies generator`gravity
      ensures strength == ClampStrength(value) && generator.gravity == GeneratorGravity(strength)
    {
      strength := ClampStrength(value);
      generator.gravity := GG_MAX_GRAVITY * strength;
    }

    /** Rebuilds the member list from scratch: the dynamic bodies within the radius,
        in the order given. */
    method SlowUpdate(ents: seq<Body>)
      modifies this`entsInRadius
      ensures entsInRadius == InField(center, generator.radius, Select(ents, Dynamic))
    {
      entsInRadius := [];
      var i := 0;
      while i < |ents|
        invariant 0 <= i <= |ents|
        invariant entsInRadius == InField(center, generator.radius, Select(ents[..i], Dynamic))
      {
        var ent := ents[i];
        assert ents[..i + 1] == ents[..i] + [ent];
        SelectAppend(ents[..i], ent, Dynamic);
        var before := Select(ents[..i], Dynamic);
        assert Select(ents[..i + 1], Dynamic) == before + (if !ent.isStatic then [ent] else []);
        if !ent.isStatic {
          InFieldAppend(center, generator.radius, before, ent);
        } else {
          assert before + [] == before;
        }
        if !ent.isStatic && InRadius(ent.pos) {
          entsInRadius := entsInRadius + [ent.id];
        }
        i := i + 1;
      }
      assert ents[..|ents|] == ents;
    }

    /** The generator is still there, switched on and pulling. */
    predicate Active()
      reads generator
    {
      !generator.closed && !generator.markedForClose && generator.enabled && generator.gravity > 0.0
    }

    /**
     * One simulation tick. Nothing happens before the session is initialised, or
     * when the generator is closed, marked for close, off, or pulls with no gravity.
     */
    method Update(c: Config, init: bool, world: map<int, Body>, player: Option<Player>)
      returns (e: Effect)
      modifies this`notified
      ensures !init || !Active() ==> e == Idle(old(notified)) && notified == old(notified)
      ensures init && Active() ==>
                e == ActiveUpdate(c, generator.gravity, center, generator.radius, entsInRadius, world,
                                  old(notified), player)
                && notified == e.notified
    {
      if !init || generator.closed || generator.markedForClose || !generator.enabled || generator.gravity <= 0.0 {
        return Idle(notified);
      }
      var acceleration := FieldAcceleration(generator.gravity);
      var pushes := [];
      if c.affectShips {
        pushes := ApplyForces(entsInRadius, world, c.massLimit, c.massDivide);
      }
      var notice: Option<Notice> := None;
      var boost: Option<real> := None;
      if player.Some? {
        var p := player.value;
        if InRadius(p.pos) {
          if c.notify && !notified {
            notice := Some(Entering);
            notified := true;
          }
          if c.jetpack > 0 {
            if p.isCharacter {
              if p.jetpackOn && (if c.jetpackHover then !p.dampenersOn else true) {
                boost := Some(JetpackSpeedChange(acceleration, c.jetpack));
              }
            }
          }
        } else {
          if c.notify && notified {
            notice := Some(Leaving);
            notified := false;
          }
        }
      }
      e := Effect(pushes, notified, notice, boost);
    }

    /** Closes the field's grid; with `sync`, also returns the message telling the
        other players the grid's id. */
    method Remove(sync: bool) returns (message: Option<string>)
      modifies generator`markedForClose
      ensures generator.markedForClose
      ensures message == if sync then Some(RemoveGravityText(generator.gridId)) else None
    {
      message := None;
      if sync {
        message := Some(RemoveGravityText(generator.gridId));
      }
      generator.markedForClose := true;
    }
  }

  /** The id the spawned grid ends up with: the requested one, or else the one the
      engine assigned. */
  function SpawnedId(entityId: Option<int>, grid: Grid): int
  {
    if entityId.Some? then entityId.value else grid.assignedId
  }

  /** The registry left after Spawn has dropped an existing entry for the requested id. */
  function Vacated(points: map<int, GravityPoint>, entityId: Option<int>): (r: map<int, GravityPoint>)
    ensures entityId.Some? ==> entityId.value !in r
    ensures forall id :: id in r <==> id in points && entityId != Some(id)
    ensures forall id :: id in r ==> r[id] == points[id]
  {
    if entityId.Some? then points - {entityId.value} else points
  }

  /**
   * The session's registry of fields, keyed by the entity id of each field's grid,
   * with the messages sent to the other players.
   */
  class Registry {
    var points: map<int, GravityPoint>
    var outbox: seq<string>
    /** The grids asked of the engine so far. */
    var spawned: seq<SpawnRequest>
    const fmt: RealFormat
    /** The prefab definition exists and holds at least one grid. */
    const prefabOk: bool

    constructor (fmt: RealFormat, prefabOk: bool)
      ensures points == map[] && outbox == [] && spawned == []
      ensures this.fmt == fmt && this.prefabOk == prefabOk
    {
      points := map[];
      outbox := [];
      spawned := [];
      this.fmt := fmt;
      this.prefabOk := prefabOk;
    }

    /** The generators of the registered fields: what closing a field changes. */
    function Generators(): set<Generator>
      reads this
    {
      set id | id in points :: points[id].generator
    }

    /**
     * GravityPoint.Spawn: creates a field at `position` from the prefab. An existing
     * field under the requested id is closed (telling the other players) and dropped
     * first. The engine is then asked for a grid at `position` whose generator has
     * the radius and the acceleration `strength * G`, under the requested id if any;
     * `created` is what the engine returns for the new grid. On success the
     * registry maps the grid's id to the new field and, with `sync`, the create
     * message is sent; a failure after the drop leaves the registry without the old
     * entry, and a failure before it changes nothing.
     */
    method Spawn(entityId: Option<int>, position: Vec3, radius: int, strength: real, sync: bool,
                 created: Option<Grid>) returns (g: GravityPoint?)
      modifies this`points, this`outbox, this`spawned, Generators()`markedForClose
      ensures !prefabOk ==> g == null && points == old(points) && outbox == old(outbox)
      ensures spawned == old(spawned)
                         + (if prefabOk then [SpawnRequest(Prefab(position, radius, strength), entityId)] else [])
      ensures prefabOk && g == null ==> points == Vacated(old(points), entityId)
      ensures g != null ==>
                prefabOk && fresh(g) && created.Some? && g.generator == created.value.generator
                && SpawnedId(entityId, created.value) !in Vacated(old(points), entityId)
                && points == Vacated(old(points), entityId)[SpawnedId(entityId, created.value) := g]
      ensures forall gen | gen in old(Generators()) ::
                gen.markedForClose == (old(gen.markedForClose)
                                       || (prefabOk && entityId.Some? && entityId.value in old(points)
                                           && gen == old(points)[entityId.value].generator))
      ensures prefabOk ==>
                outbox == old(outbox)
                          + (if entityId.Some? && entityId.value in old(points)
                             then [RemoveGravityText(old(points)[entityId.value].generator.gridId)] else [])
                          + (if g != null && sync
                             then [CreateGravityText(fmt, SpawnedId(entityId, created.value), position, radius, strength)]
                             else [])
    {
      if !prefabOk {
        return null;
      }
      if entityId.Some? && entityId.value in points {
        ghost var id := entityId.value;
        assert points[id].generator in Generators();
        var message := points[entityId.value].Remove(true);
        outbox := outbox + [message.value];
        points := points - {entityId.value};
      }
      spawned := spawned + [SpawnRequest(Prefab(position, radius, strength), entityId)];
      if created.None? {
        return null;
      }
      var grid := created.value;
      var id := if entityId.Some? then entityId.value else grid.assignedId;
      g := GravityPoint.Create(grid);
      if g == null {
        return null;
      }
      if id in points {
        // Dictionary.Add throws on a key already present; Spawn catches it.
        return null;
      }
      points := points[id := g];
      if sync {
        outbox := outbox + [CreateGravityText(fmt, id, position, radius, strength)];
      }
    }
  }
}
