/**
 * MultiplayerSync.cs, receiving side: a decoded message changes the registry of
 * the id-based design. The decoder is `SyncMessages.Received`, which reads the
 * arities the encoders write (see `SyncMessages.ReceivedAsWritten` for the source's
 * own arities).
 */
module MultiplayerSync {
  import opened Wrappers
  import opened Vectors
  import opened Strings
  import opened FieldRules
  import opened SyncMessages
  import opened GravityPoints

  /**
   * SyncCreated after decoding: an existing field under the id is closed without
   * telling anyone and dropped, then a field is spawned under that id without
   * sending anything. At most one field is registered under the id afterwards, and
   * no other field is closed.
   */
  method SyncCreated(reg: Registry, entityId: int, position: Vec3, radius: int, strength: real,
                     created: Option<Grid>) returns (g: GravityPoint?)
    modifies reg`points, reg`outbox, reg`spawned, reg.Generators()`markedForClose
    ensures reg.outbox == old(reg.outbox)
    ensures reg.spawned == old(reg.spawned)
                           + (if reg.prefabOk then [SpawnRequest(Prefab(position, radius, strength), Some(entityId))]
                              else [])
    ensures forall gen | gen in old(reg.Generators()) ::
              gen.markedForClose == (old(gen.markedForClose)
                                     || (entityId in old(reg.points) && gen == old(reg.points)[entityId].generator))
    ensures g == null ==> reg.points == Vacated(old(reg.points), Some(entityId))
    ensures g != null ==>
              fresh(g) && created.Some? && g.generator == created.value.generator
              && reg.points == Vacated(old(reg.points), Some(entityId))[entityId := g]
  {
    if entityId in reg.points {
      var gravity := reg.points[entityId];
      assert gravity.generator in reg.Generators();
      var _ := gravity.Remove(false);
      reg.points := reg.points - {entityId};
    }
    g := reg.Spawn(Some(entityId), position, radius, strength, false, created);
  }

  /**
   * SyncRemoved after decoding: the field under the id is closed without telling
   * anyone. The registry itself is left as it is, and an unknown id changes nothing.
   */
  method SyncRemoved(reg: Registry, entityId: int)
    modifies reg.Generators()`markedForClose
    ensures entityId in reg.points ==> reg.points[entityId].generator.markedForClose
    ensures forall gen | gen in reg.Generators() ::
              gen.markedForClose == (old(gen.markedForClose)
                                     || (entityId in reg.points && gen == reg.points[entityId].generator))
  {
    if entityId !in reg.points {
      return;
    }
    var gravity := reg.points[entityId];
    assert gravity.generator in reg.Generators();
    var _ := gravity.Remove(false);
  }

  /**
   * ReceivedSyncPacket: decodes the message and applies it. A message that is
   * dropped (unparsable or unknown type, wrong arity, any field that does not
   * parse) changes nothing.
   */
  method ReceivedSyncPacket(reg: Registry, data: string, created: Option<Grid>) returns (r: Reception)
    modifies reg`points, reg`outbox, reg`spawned, reg.Generators()`markedForClose
    ensures r == Received(reg.fmt, data)
    ensures reg.outbox == old(reg.outbox)
    ensures !(r.Apply? && r.command.Create?) ==> reg.points == old(reg.points) && reg.spawned == old(reg.spawned)
    ensures forall gen | gen in old(reg.Generators()) ::
              gen.markedForClose == (old(gen.markedForClose)
                                     || (r.Apply? && r.command.entityId in old(reg.points)
                                         && gen == old(reg.points)[r.command.entityId].generator))
    ensures r.Apply? && r.command.Create? ==>
              var cmd := r.command;
              reg.spawned == old(reg.spawned)
                             + (if reg.prefabOk
                                then [SpawnRequest(Prefab(cmd.position, cmd.radius, cmd.strength), Some(cmd.entityId))]
                                else [])
              && (cmd.entityId !in reg.points ==> reg.points == Vacated(old(reg.points), Some(cmd.entityId)))
              && (cmd.entityId in reg.points ==>
                    fresh(reg.points[cmd.entityId]) && created.Some?
                    && reg.points[cmd.entityId].generator == created.value.generator
                    && reg.points == Vacated(old(reg.points), Some(cmd.entityId))[cmd.entityId := reg.points[cmd.entityId]])
  {
    r := Received(reg.fmt, data);
    if r.Apply? {
      match r.command
      case Create(id, position, radius, strength) =>
        var _ := SyncCreated(reg, id, position, radius, strength, created);
      case Remove(id) =>
        SyncRemoved(reg, id);
    }
  }
}
