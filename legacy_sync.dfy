/**
 * The text messages of the first, position-based design in NaturalGravity.cs:
 * AddGravityPrefab announces a new field as `0;x;y;z;radius;strength`, Gravity.Remove
 * announces a closed one as `1;x;y;z` (see `GravityFields.RemovedText`), and
 * ReceivedSyncPacket splits on `;` and dispatches on the type token. Unlike the
 * id-based pair, encoder and decoder agree on every arity.
 */
module LegacySync {
  import opened Wrappers
  import opened Vectors
  import opened Strings
  import opened SyncMessages
  import opened GravityFields

  /** AddGravityPrefab's message: `0;x;y;z;radius;strength`. */
  function CreatedText(fmt: RealFormat, position: Vec3, radius: int, strength: real): string
  {
    Join([IntToString(0), fmt.show(position.x), fmt.show(position.y), fmt.show(position.z),
          IntToString(radius), fmt.show(strength)], ";")
  }

  /** A decoded request: spawn a field, or close the field near a position. */
  datatype LegacyCommand = Created(position: Vec3, radius: int, strength: real)
                         | Removed(position: Vec3)

  /** SyncCreated: exactly six fields, then the position, the radius as a 32-bit
      integer and the strength; the first field that does not parse drops the message. */
  function SyncCreated(fmt: RealFormat, args: seq<string>): (r: Option<LegacyCommand>)
    ensures r.Some? ==> |args| == 6 && r.value.Created?
  {
    if |args| != 6 then None
    else match ParseVector(fmt, args[1], args[2], args[3])
      case None => None
      case Some(position) =>
        match ParseInt32(args[4])
        case None => None
        case Some(radius) =>
          match fmt.parse(args[5])
          case None => None
          case Some(strength) => Some(Created(position, radius, strength))
  }

  /** SyncRemoved: exactly four fields, the position in the last three. */
  function SyncRemoved(fmt: RealFormat, args: seq<string>): (r: Option<LegacyCommand>)
    ensures r.Some? ==> |args| == 4 && r.value.Removed?
  {
    if |args| != 4 then None
    else match ParseVector(fmt, args[1], args[2], args[3])
      case None => None
      case Some(position) => Some(Removed(position))
  }

  /** ReceivedSyncPacket: type 0 creates, type 1 removes, and an unparsable or other
      type token is dropped. Split never returns an empty array, so the "No data!"
      branch has no counterpart. */
  function ReceivedSync(fmt: RealFormat, data: string): (r: Option<LegacyCommand>)
    ensures r.Some? && r.value.Created? ==> ParseInt32(Split(data, ';')[0]) == Some(0)
    ensures r.Some? && r.value.Removed? ==> ParseInt32(Split(data, ';')[0]) == Some(1)
    ensures ParseInt32(Split(data, ';')[0]) !in {Some(0), Some(1)} ==> r.None?
  {
    var args := Split(data, ';');
    match ParseInt32(args[0])
    case None => None
    case Some(t) =>
      if t == 0 then SyncCreated(fmt, args)
      else if t == 1 then SyncRemoved(fmt, args)
      else None
  }

  lemma CreatedTextFields(fmt: RealFormat, position: Vec3, radius: int, strength: real)
    requires Exact(fmt, position.x) && Exact(fmt, position.y) && Exact(fmt, position.z)
    requires Exact(fmt, strength)
    ensures Split(CreatedText(fmt, position, radius, strength), ';')
            == [IntToString(0), fmt.show(position.x), fmt.show(position.y), fmt.show(position.z),
                IntToString(radius), fmt.show(strength)]
  {
    var parts := [IntToString(0), fmt.show(position.x), fmt.show(position.y), fmt.show(position.z),
                  IntToString(radius), fmt.show(strength)];
    IntToStringPlain(0);
    IntToStringPlain(radius);
    assert forall i :: 0 <= i < |parts| ==> Plain(parts[i]);
    SplitJoin(parts, ';');
  }

  /** The create message has the six fields SyncCreated demands and decodes back to
      what was sent, whenever the radius is a 32-bit integer and the printed reals
      read back exactly. */
  lemma CreatedRoundTrip(fmt: RealFormat, position: Vec3, radius: int, strength: real)
    requires INT32_MIN <= radius <= INT32_MAX
    requires Exact(fmt, position.x) && Exact(fmt, position.y) && Exact(fmt, position.z)
    requires Exact(fmt, strength)
    ensures |Split(CreatedText(fmt, position, radius, strength), ';')| == 6
    ensures ReceivedSync(fmt, CreatedText(fmt, position, radius, strength))
            == Some(Created(position, radius, strength))
  {
    CreatedTextFields(fmt, position, radius, strength);
    var args := Split(CreatedText(fmt, position, radius, strength), ';');
    IntToStringRoundTrip(0, INT32_MIN, INT32_MAX);
    IntToStringRoundTrip(radius, INT32_MIN, INT32_MAX);
    assert ParseVector(fmt, args[1], args[2], args[3]) == Some(position);
    assert SyncCreated(fmt, args) == Some(Created(position, radius, strength));
  }

  /** Gravity.Remove's message has the four fields SyncRemoved demands and decodes
      back to the grid position that was sent. */
  lemma RemovedRoundTrip(fmt: RealFormat, position: Vec3)
    requires Exact(fmt, position.x) && Exact(fmt, position.y) && Exact(fmt, position.z)
    ensures |Split(RemovedText(fmt, position), ';')| == 4
    ensures ReceivedSync(fmt, RemovedText(fmt, position)) == Some(Removed(position))
  {
    RemovedTextFields(fmt, position);
    var args := Split(RemovedText(fmt, position), ';');
    IntToStringRoundTrip(1, INT32_MIN, INT32_MAX);
    assert ParseVector(fmt, args[1], args[2], args[3]) == Some(position);
  }

  /** The text a command travels as. */
  function Encode(fmt: RealFormat, cmd: LegacyCommand): string
  {
    match cmd
    case Created(position, radius, strength) => CreatedText(fmt, position, radius, strength)
    case Removed(position) => RemovedText(fmt, position)
  }

  /** The command's numbers survive the trip: a 32-bit radius, and reals that print
      and read back exactly. */
  predicate Sendable(fmt: RealFormat, cmd: LegacyCommand)
  {
    Exact(fmt, cmd.position.x) && Exact(fmt, cmd.position.y) && Exact(fmt, cmd.position.z)
    && (cmd.Created? ==> INT32_MIN <= cmd.radius <= INT32_MAX && Exact(fmt, cmd.strength))
  }

  /** Every sendable command is received as itself. */
  lemma EncodeRoundTrip(fmt: RealFormat, cmd: LegacyCommand)
    requires Sendable(fmt, cmd)
    ensures ReceivedSync(fmt, Encode(fmt, cmd)) == Some(cmd)
  {
    match cmd
    case Created(position, radius, strength) => CreatedRoundTrip(fmt, position, radius, strength);
    case Removed(position) => RemovedRoundTrip(fmt, position);
  }

  /** A command's text is ASCII when its printed reals are, so Encoding.ASCII carries
      it unchanged. */
  lemma EncodeAscii(fmt: RealFormat, cmd: LegacyCommand)
    requires IsAscii(fmt.show(cmd.position.x)) && IsAscii(fmt.show(cmd.position.y))
             && IsAscii(fmt.show(cmd.position.z))
    requires cmd.Created? ==> IsAscii(fmt.show(cmd.strength))
    ensures AsciiString(AsciiBytes(Encode(fmt, cmd))) == Encode(fmt, cmd)
  {
    var position := cmd.position;
    match cmd
    case Created(_, radius, strength) =>
      IntToStringAscii(0);
      IntToStringAscii(radius);
      JoinAscii([IntToString(0), fmt.show(position.x), fmt.show(position.y), fmt.show(position.z),
                 IntToString(radius), fmt.show(strength)], ";");
      AsciiRoundTrip(Encode(fmt, cmd));
    case Removed(_) =>
      IntToStringAscii(1);
      JoinAscii([IntToString(1), fmt.show(position.x), fmt.show(position.y), fmt.show(position.z)], ";");
      AsciiRoundTrip(Encode(fmt, cmd));
  }
}
