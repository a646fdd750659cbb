/**
 * One Update of an active field, shared by `Gravity.Update` (Gravity.cs) and
 * `GravityPoint.Update` (GravityPoint.cs): the force pass over the member list, the
 * enter/leave notice and the jetpack nudge, under the current settings.
 */
module FieldPass {
  import opened Wrappers
  import opened Vectors
  import opened FieldRules
  import opened Settings

  /**
   * What one Update does: the forces it applies, the new value of the field's
   * `notified` flag, the notice it shows, and the speed it adds to the player's
   * velocity toward the center.
   */
  datatype Effect = Effect(pushes: seq<Push>, notified: bool, notice: Option<Notice>, boost: Option<real>)

  /** The effect of an Update that returns at its guard. */
  function Idle(notified: bool): (e: Effect)
    ensures e.pushes == [] && e.notified == notified && e.notice.None? && e.boost.None?
  {
    Effect([], notified, None, None)
  }

  /**
   * An Update past its guard: with `affect_ships` the force pass over the member
   * list; then, when the player's position is known, the enter/leave notice and,
   * inside the field, the jetpack rule.
   */
  function ActiveUpdate(c: Config, gravity: real, center: Vec3, radius: int, members: seq<int>,
                        world: map<int, Body>, notified: bool, player: Option<Player>): Effect
  {
    var pushes := if c.affectShips then Pushes(members, world, c.massLimit, c.massDivide) else [];
    match player
    case None => Effect(pushes, notified, None, None)
    case Some(p) =>
      var inside := InRadius(center, radius, p.pos);
      var o := NotifyStep(c.notify, notified, inside);
      var boost := if inside && JetpackBoosts(c.jetpack, c.jetpackHover, p)
                   then Some(JetpackSpeedChange(FieldAcceleration(gravity), c.jetpack)) else None;
      Effect(pushes, o.notified, o.notice, boost)
  }

  /** The force pass pulls on a body exactly when ships are affected and the body is a
      live member, and then with its effective mass. */
  lemma UpdatePushes(c: Config, gravity: real, center: Vec3, radius: int, members: seq<int>,
                     world: map<int, Body>, notified: bool, player: Option<Player>, q: Push)
    ensures q in ActiveUpdate(c, gravity, center, radius, members, world, notified, player).pushes
            <==> c.affectShips && q.id in members && Live(world, q.id)
                 && q.mass == EffectiveMass(world[q.id].mass, c.massLimit, c.massDivide)
  {
    PushesExactly(members, world, c.massLimit, c.massDivide, q);
  }

  /** The player's velocity is nudged exactly when the player is inside the field and
      passes the jetpack gate. */
  lemma UpdateBoost(c: Config, gravity: real, center: Vec3, radius: int, members: seq<int>,
                    world: map<int, Body>, notified: bool, player: Option<Player>)
    ensures var e := ActiveUpdate(c, gravity, center, radius, members, world, notified, player);
            e.boost.Some?
            <==> player.Some? && InRadius(center, radius, player.value.pos)
                 && c.jetpack > 0 && player.value.isCharacter && player.value.jetpackOn
                 && (!c.jetpackHover || !player.value.dampenersOn)
  {
  }

  /** The notice is edge-triggered: "Entering" only when the flag turns on, "Leaving"
      only when it turns off, and the flag stays put while the player's position is
      unknown or notices are off. */
  lemma UpdateNotice(c: Config, gravity: real, center: Vec3, radius: int, members: seq<int>,
                     world: map<int, Body>, notified: bool, player: Option<Player>)
    ensures var e := ActiveUpdate(c, gravity, center, radius, members, world, notified, player);
            (e.notice == Some(Entering) <==> !notified && e.notified)
            && (e.notice == Some(Leaving) <==> notified && !e.notified)
            && (player.None? || !c.notify ==> e.notified == notified)
            && (player.Some? && e.notified != notified
                ==> e.notified == InRadius(center, radius, player.value.pos))
  {
  }
}
