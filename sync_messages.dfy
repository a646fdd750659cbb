/**
 * The text messages of MultiplayerSync.cs, the id-based sync of the second design:
 * `CreateGravity` and `RemoveGravity` build them, `ReceivedSyncPacket` splits them
 * on `;` and dispatches on the type token to `SyncCreated` or `SyncRemoved`.
 *
 * The decoder as written cannot accept what the encoders produce: a create carries
 * seven fields where six are demanded (and with six fields the seventh is read past
 * the end of the array), and a remove carries two fields where four are demanded.
 * `ReceivedAsWritten` keeps that behaviour; `Received`, which the receiver uses,
 * demands the arities the encoders write.
 */
module SyncMessages {
  import opened Wrappers
  import opened Vectors
  import opened Strings

  const CREATED: int := 0
  const REMOVED: int := 1

  /** CreateGravity: `0;id;x;y;z;radius;strength`. */
  function CreateGravityText(fmt: RealFormat, entityId: int, position: Vec3, radius: int, strength: real): string
  {
    Join([IntToString(CREATED), IntToString(entityId), fmt.show(position.x), fmt.show(position.y),
          fmt.show(position.z), IntToString(radius), fmt.show(strength)], ";")
  }

  /** RemoveGravity: `1;id`. */
  function RemoveGravityText(entityId: int): string
  {
    Join([IntToString(REMOVED), IntToString(entityId)], ";")
  }

  /** A decoded request to change the registry. */
  datatype Command = Create(entityId: int, position: Vec3, radius: int, strength: real)
                   | Remove(entityId: int)

  /**
   * What receiving a message leads to: a registry command, nothing (the message is
   * logged and dropped), or an exception the handler does not catch.
   */
  datatype Reception = Apply(command: Command) | Drop | Fault

  /** ParseVector: the three coordinates parsed in order; the first failure fails. */
  function ParseVector(fmt: RealFormat, x: string, y: string, z: string): (r: Option<Vec3>)
    ensures r.Some? <==> fmt.parse(x).Some? && fmt.parse(y).Some? && fmt.parse(z).Some?
    ensures r.Some? ==> r.value == Vec3(fmt.parse(x).value, fmt.parse(y).value, fmt.parse(z).value)
  {
    match fmt.parse(x)
    case None => None
    case Some(px) =>
      match fmt.parse(y)
      case None => None
      case Some(py) =>
        match fmt.parse(z)
        case None => None
        case Some(pz) => Some(Vec3(px, py, pz))
  }

  // ---------------------------------------------------------------- as written

  /** SyncCreated as written: six fields demanded, then fields 1 to 6 read in order,
      so that the read of the last one runs past the end once the others parse. */
  function CreatedAsWritten(fmt: RealFormat, args: seq<string>): Reception
  {
    if |args| != 6 then Drop
    else if ParseInt64(args[1]).None? then Drop
    else if ParseVector(fmt, args[2], args[3], args[4]).None? then Drop
    else if ParseInt32(args[5]).None? then Drop
    else Fault
  }

  /** SyncRemoved as written: four fields demanded, the id read from the second. */
  function RemovedAsWritten(args: seq<string>): Reception
  {
    if |args| != 4 then Drop
    else match ParseInt64(args[1])
      case None => Drop
      case Some(id) => Apply(Remove(id))
  }

  /** ReceivedSyncPacket as written. Split never returns an empty array, so the
      source's "No data!" branch has no counterpart here. */
  function ReceivedAsWritten(fmt: RealFormat, data: string): Reception
  {
    var args := Split(data, ';');
    match ParseInt32(args[0])
    case None => Drop
    case Some(t) =>
      if t == CREATED then CreatedAsWritten(fmt, args)
      else if t == REMOVED then RemovedAsWritten(args)
      else Drop
  }

  /** As written, no message ever creates a field. */
  lemma AsWrittenNeverCreates(fmt: RealFormat, data: string)
    ensures ReceivedAsWritten(fmt, data).Apply? ==> ReceivedAsWritten(fmt, data).command.Remove?
  {
  }

  /** As written, a six-field create whose id, position and radius parse throws. */
  lemma AsWrittenCreateFaults(fmt: RealFormat, data: string)
    ensures ReceivedAsWritten(fmt, data) == Fault
            <==> var args := Split(data, ';');
                 ParseInt32(args[0]) == Some(CREATED) && |args| == 6 && ParseInt64(args[1]).Some?
                 && ParseVector(fmt, args[2], args[3], args[4]).Some? && ParseInt32(args[5]).Some?
  {
  }

  /** As written, the create message CreateGravity sends is dropped. */
  lemma AsWrittenDropsCreate(fmt: RealFormat, entityId: int, position: Vec3, radius: int, strength: real)
    requires Exact(fmt, position.x) && Exact(fmt, position.y) && Exact(fmt, position.z)
    requires Exact(fmt, strength)
    ensures ReceivedAsWritten(fmt, CreateGravityText(fmt, entityId, position, radius, strength)) == Drop
  {
    CreateGravityTextFields(fmt, entityId, position, radius, strength);
    IntToStringRoundTrip(CREATED, INT32_MIN, INT32_MAX);
  }

  /** As written, the remove message RemoveGravity sends is dropped. */
  lemma AsWrittenDropsRemove(fmt: RealFormat, entityId: int)
    ensures ReceivedAsWritten(fmt, RemoveGravityText(entityId)) == Drop
  {
    RemoveGravityTextFields(entityId);
    IntToStringRoundTrip(REMOVED, INT32_MIN, INT32_MAX);
  }

  // ---------------------------------------------------------------- corrected

  /** SyncCreated reading the seven fields CreateGravity writes. */
  function Created(fmt: RealFormat, args: seq<string>): (r: Reception)
    ensures r != Fault
    ensures r.Apply? ==> |args| == 7 && r.command.Create?
  {
    if |args| != 7 then Drop
    else match ParseInt64(args[1])
      case None => Drop
      case Some(id) =>
        match ParseVector(fmt, args[2], args[3], args[4])
        case None => Drop
        case Some(position) =>
          match ParseInt32(args[5])
          case None => Drop
          case Some(radius) =>
            match fmt.parse(args[6])
            case None => Drop
            case Some(strength) => Apply(Create(id, position, radius, strength))
  }

  /** SyncRemoved reading the two fields RemoveGravity writes. */
  function Removed(args: seq<string>): (r: Reception)
    ensures r != Fault
    ensures r.Apply? ==> |args| == 2 && r.command.Remove?
  {
    if |args| != 2 then Drop
    else match ParseInt64(args[1])
      case None => Drop
      case Some(id) => Apply(Remove(id))
  }

  /** ReceivedSyncPacket with the corrected arities: type 0 creates, type 1 removes,
      and any other or unparsable type token is dropped. */
  function Received(fmt: RealFormat, data: string): (r: Reception)
    ensures r != Fault
    ensures r.Apply? && r.command.Create? ==> ParseInt32(Split(data, ';')[0]) == Some(CREATED)
    ensures r.Apply? && r.command.Remove? ==> ParseInt32(Split(data, ';')[0]) == Some(REMOVED)
  {
    var args := Split(data, ';');
    match ParseInt32(args[0])
    case None => Drop
    case Some(t) =>
      if t == CREATED then Created(fmt, args)
      else if t == REMOVED then Removed(args)
      else Drop
  }

  lemma CreateGravityTextFields(fmt: RealFormat, entityId: int, position: Vec3, radius: int, strength: real)
    requires Exact(fmt, position.x) && Exact(fmt, position.y) && Exact(fmt, position.z)
    requires Exact(fmt, strength)
    ensures Split(CreateGravityText(fmt, entityId, position, radius, strength), ';')
            == [IntToString(CREATED), IntToString(entityId), fmt.show(position.x), fmt.show(position.y),
                fmt.show(position.z), IntToString(radius), fmt.show(strength)]
  {
    var parts := [IntToString(CREATED), IntToString(entityId), fmt.show(position.x), fmt.show(position.y),
                  fmt.show(position.z), IntToString(radius), fmt.show(strength)];
    IntToStringPlain(CREATED);
    IntToStringPlain(entityId);
    IntToStringPlain(radius);
    assert forall i :: 0 <= i < |parts| ==> Plain(parts[i]);
    SplitJoin(parts, ';');
  }

  lemma RemoveGravityTextFields(entityId: int)
    ensures Split(RemoveGravityText(entityId), ';') == [IntToString(REMOVED), IntToString(entityId)]
  {
    var parts := [IntToString(REMOVED), IntToString(entityId)];
    IntToStringPlain(REMOVED);
    IntToStringPlain(entityId);
    assert forall i :: 0 <= i < |parts| ==> Plain(parts[i]);
    SplitJoin(parts, ';');
  }

  /** A create message decodes back to what was sent, whenever the id is a 64-bit and
      the radius a 32-bit integer and the printed reals read back exactly. */
  lemma CreateRoundTrip(fmt: RealFormat, entityId: int, position: Vec3, radius: int, strength: real)
    requires INT64_MIN <= entityId <= INT64_MAX && INT32_MIN <= radius <= INT32_MAX
    requires Exact(fmt, position.x) && Exact(fmt, position.y) && Exact(fmt, position.z)
    requires Exact(fmt, strength)
    ensures Received(fmt, CreateGravityText(fmt, entityId, position, radius, strength))
            == Apply(Create(entityId, position, radius, strength))
  {
    CreateGravityTextFields(fmt, entityId, position, radius, strength);
    CreateFieldsParse(fmt, entityId, position, radius, strength);
    IntToStringRoundTrip(CREATED, INT32_MIN, INT32_MAX);
  }

  /** The seven fields of a create message read back as the command that was sent. */
  lemma CreateFieldsParse(fmt: RealFormat, entityId: int, position: Vec3, radius: int, strength: real)
    requires INT64_MIN <= entityId <= INT64_MAX && INT32_MIN <= radius <= INT32_MAX
    requires Exact(fmt, position.x) && Exact(fmt, position.y) && Exact(fmt, position.z)
    requires Exact(fmt, strength)
    ensures Created(fmt, [IntToString(CREATED), IntToString(entityId), fmt.show(position.x), fmt.show(position.y),
                          fmt.show(position.z), IntToString(radius), fmt.show(strength)])
            == Apply(Create(entityId, position, radius, strength))
  {
    Int64RoundTrip(entityId);
    Int32RoundTrip(radius);
    CreatedFromFields(fmt, IntToString(CREATED), IntToString(entityId), fmt.show(position.x), fmt.show(position.y),
                      fmt.show(position.z), IntToString(radius), fmt.show(strength),
                      Create(entityId, position, radius, strength));
  }

  /** Seven fields that each parse as the command's part give the command. */
  lemma CreatedFromFields(fmt: RealFormat, kind: string, id: string, x: string, y: string, z: string,
                          radius: string, strength: string, cmd: Command)
    requires cmd.Create? && ParseInt64(id) == Some(cmd.entityId)
    requires fmt.parse(x) == Some(cmd.position.x) && fmt.parse(y) == Some(cmd.position.y)
    requires fmt.parse(z) == Some(cmd.position.z)
    requires ParseInt32(radius) == Some(cmd.radius) && fmt.parse(strength) == Some(cmd.strength)
    ensures Created(fmt, [kind, id, x, y, z, radius, strength]) == Apply(cmd)
  {
    var args := [kind, id, x, y, z, radius, strength];
    assert ParseVector(fmt, args[2], args[3], args[4]) == Some(cmd.position);
  }

  /** The create text is ASCII when the printed reals are, so Encoding.ASCII carries it
      unchanged. */
  lemma CreateGravityTextAscii(fmt: RealFormat, entityId: int, position: Vec3, radius: int, strength: real)
    requires IsAscii(fmt.show(position.x)) && IsAscii(fmt.show(position.y)) && IsAscii(fmt.show(position.z))
    requires IsAscii(fmt.show(strength))
    ensures var text := CreateGravityText(fmt, entityId, position, radius, strength);
            AsciiString(AsciiBytes(text)) == text
  {
    var parts := [IntToString(CREATED), IntToString(entityId), fmt.show(position.x), fmt.show(position.y),
                  fmt.show(position.z), IntToString(radius), fmt.show(strength)];
    IntToStringAscii(CREATED);
    IntToStringAscii(entityId);
    IntToStringAscii(radius);
    JoinAscii(parts, ";");
    AsciiRoundTrip(Join(parts, ";"));
  }

  /** The remove text is ASCII, so Encoding.ASCII carries it unchanged. */
  lemma RemoveGravityTextAscii(entityId: int)
    ensures AsciiString(AsciiBytes(RemoveGravityText(entityId))) == RemoveGravityText(entityId)
  {
    var parts := [IntToString(REMOVED), IntToString(entityId)];
    IntToStringAscii(REMOVED);
    IntToStringAscii(entityId);
    JoinAscii(parts, ";");
    AsciiRoundTrip(Join(parts, ";"));
  }

  /** A remove message decodes back to the id that was sent. */
  lemma RemoveRoundTrip(fmt: RealFormat, entityId: int)
    requires INT64_MIN <= entityId <= INT64_MAX
    ensures Received(fmt, RemoveGravityText(entityId)) == Apply(Remove(entityId))
  {
    RemoveGravityTextFields(entityId);
    IntToStringRoundTrip(REMOVED, INT32_MIN, INT32_MAX);
    IntToStringRoundTrip(entityId, INT64_MIN, INT64_MAX);
  }
}
