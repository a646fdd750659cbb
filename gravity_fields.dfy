/**
 * Gravity.cs: a field of the first, list-based design. A `Gravity` wraps one
 * spherical generator block, keeps the list of entities it pulls on, and remembers
 * whether the player was told about entering it.
 */
module GravityFields {
  import opened Wrappers
  import opened Vectors
  import opened Strings
  import opened FieldRules
  import opened Settings
  import opened FieldPass

  /** Gravity.Remove's sync message: type 1 and the position of the generator's grid,
      `1;x;y;z`. */
  function RemovedText(fmt: RealFormat, position: Vec3): string
  {
    Join([IntToString(1), fmt.show(position.x), fmt.show(position.y), fmt.show(position.z)], ";")
  }

  /** The remove message splits into exactly four fields: the type and the three
      coordinates, each as printed. */
  lemma RemovedTextFields(fmt: RealFormat, position: Vec3)
    requires Exact(fmt, position.x) && Exact(fmt, position.y) && Exact(fmt, position.z)
    ensures Split(RemovedText(fmt, position), ';')
            == [IntToString(1), fmt.show(position.x), fmt.show(position.y), fmt.show(position.z)]
  {
    var parts := [IntToString(1), fmt.show(position.x), fmt.show(position.y), fmt.show(position.z)];
    IntToStringPlain(1);
    assert forall i :: 0 <= i < |parts| ==> Plain(parts[i]);
    SplitJoin(parts, ';');
  }

  class Gravity {
    const generator: Generator
    /** World position of the generator's grid cell. */
    const center: Vec3
    /** Ids of the entities the field pulls on. */
    var entities: seq<int>
    var notified: bool

    constructor (generator: Generator)
      ensures this.generator == generator && center == generator.cellPosition
      ensures entities == [] && !notified
    {
      this.generator := generator;
      center := generator.cellPosition;
      entities := [];
      notified := false;
    }

    /** The constructor's null check: no field exists without a generator. */
    static method Create(generator: Generator?) returns (g: Gravity?)
      ensures g == null <==> generator == null
      ensures g != null ==> fresh(g) && g.generator == generator && g.center == generator.cellPosition
      ensures g != null ==> g.entities == [] && !g.notified
    {
      if generator == null {
        return null;
      }
      g := new Gravity(generator);
    }

    predicate InRadius(pos: Vec3)
      reads generator
    {
      FieldRules.InRadius(center, generator.radius, pos)
    }

    method SetEnabled(on: bool)
      modifies generator`enabled
      ensures generator.enabled == on
    {
      generator.enabled := on;
    }

    method SetRadius(value: int) returns (radius: int)
      modifies generator`radius
      ensures radius == ClampRadius(value) && generator.radius == radius
    {
      radius := Abs(Min(Max(value, RADIUS_MIN), RADIUS_MAX));
      generator.radius := radius;
    }

    method SetStrength(value: real) returns (strength: real)
      modifies generator`gravity
      ensures strength == ClampStrength(value) && generator.gravity == GeneratorGravity(strength)
    {
      strength := ClampStrength(value);
      generator.gravity := GG_MAX_GRAVITY * strength;
    }

    /** Appends the body to the member list exactly when it lies within the radius. */
    method AddInRange(b: Body) returns (added: bool)
      modifies this`entities
      ensures added == InRadius(b.pos)
      ensures entities == old(entities) + (if added then [b.id] else [])
    {
      if InRadius(b.pos) {
        entities := entities + [b.id];
        return true;
      }
      return false;
    }

    /** What one tick of the field does in the current state, the notification flag
        standing at `wasNotified` before the tick. */
    function UpdateEffect(c: Config, init: bool, world: map<int, Body>, player: Option<Player>,
                          wasNotified: bool): Effect
      reads this, generator
    {
      if !init || !generator.enabled || generator.gravity <= 0.0 then Idle(wasNotified)
      else ActiveUpdate(c, generator.gravity, center, generator.radius, entities, world, wasNotified, player)
    }

    /**
     * One simulation tick of the field. Nothing happens before the session is
     * initialised, or while the generator is off or pulls with no gravity.
     */
    method Update(c: Config, init: bool, world: map<int, Body>, player: Option<Player>)
      returns (e: Effect)
      modifies this`notified
      ensures !init || !generator.enabled || generator.gravity <= 0.0 ==>
                e == Idle(old(notified)) && notified == old(notified)
      ensures init && generator.enabled && generator.gravity > 0.0 ==>
                e == ActiveUpdate(c, generator.gravity, center, generator.radius, entities, world,
                                  old(notified), player)
                && notified == e.notified
    {
      if !init || !generator.enabled || generator.gravity <= 0.0 {
        return Idle(notified);
      }
      var acceleration := FieldAcceleration(generator.gravity);
      var pushes := [];
      if c.affectShips {
        pushes := ApplyForces(entities, world, c.massLimit, c.massDivide);
      }
      var notice: Option<Notice> := None;
      var boost: Option<real> := None;
      if player.Some? {
        var p := player.value;
        if InRadius(p.pos) {
          if c.notify && !notified {
            notice := Some(Entering);
            notified := true;
          }
          if c.jetpack > 0 && p.isCharacter {
            if p.jetpackOn && (!c.jetpackHover || !p.dampenersOn) {
              boost := Some(JetpackSpeedChange(acceleration, c.jetpack));
            }
          }
        } else {
          if c.notify && notified {
            notice := Some(Leaving);
            notified := false;
          }
        }
      }
      e := Effect(pushes, notified, notice, boost);
    }

    /** Closes the field's grid; with `sync`, also returns the message telling the
        other players where it was. */
    method Remove(sync: bool, fmt: RealFormat) returns (message: Option<string>)
      modifies generator`markedForClose
      ensures generator.markedForClose
      ensures message == if sync then Some(RemovedText(fmt, generator.gridPosition)) else None
    {
      message := None;
      if sync {
        var pos := generator.gridPosition;
        message := Some(Join([IntToString(1), fmt.show(pos.x), fmt.show(pos.y), fmt.show(pos.z)], ";"));
      }
      generator.markedForClose := true;
    }
  }
}
