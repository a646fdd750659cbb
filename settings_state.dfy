/**
 * The static state of Settings.cs as an object: the twelve setting fields that
 * ParseSetting and ResetSettings write, the config file in local storage, and the
 * packets the settings code sends. Each method is specified by a function on the
 * state as a value (`Store`), and the properties of the settings exchange are proved
 * about those functions.
 */
module SettingsState {
  import opened Wrappers
  import opened Strings
  import opened FieldRules
  import opened Settings

  /** A packet the settings code sends. */
  datatype Message =
    | SettingsPacket(data: seq<byte>)     // PACKET_SETTINGS, from the server to every client
    | ConfigRequest(action: ConfigAction) // PACKET_CONFIG, from a client to the server

  /** The settings, the config file (`None` when it does not exist) and the packets sent. */
  datatype Store = Store(config: Config, file: Option<string>, outbox: seq<Message>)

  // ---------------------------------------------------------------- the operations as functions

  /** SendSettingsToClients: the server sends the plain settings text in ASCII bytes; a
      client sends nothing. */
  function Broadcast(s: Store, isServer: bool, fmt: RealFormat): (r: Store)
    ensures r.config == s.config && r.file == s.file
    ensures isServer ==> r.outbox == s.outbox + [SettingsPacket(AsciiBytes(SettingsText(s.config, false, fmt)))]
    ensures !isServer ==> r == s
  {
    if isServer then s.(outbox := s.outbox + [SettingsPacket(AsciiBytes(SettingsText(s.config, false, fmt)))])
    else s
  }

  /** ReceivedSettings: the bytes are decoded as ASCII, and every line of the text,
      trimmed, goes to ParseSetting in order; the server then passes the result on to
      the clients. */
  function Received(s: Store, data: seq<byte>, isServer: bool, fmt: RealFormat): Store
  {
    Broadcast(s.(config := ApplyAll(s.config, TrimAll(Split(AsciiString(data), '\n')), fmt)), isServer, fmt)
  }

  /** SaveConfig: the server writes the commented settings text to the file; a client
      asks the server to save. */
  function Saved(s: Store, isServer: bool, fmt: RealFormat): Store
  {
    if isServer then s.(file := Some(SettingsText(s.config, true, fmt)))
    else s.(outbox := s.outbox + [ConfigRequest(Save)])
  }

  /** LoadConfig: the server parses the lines of an existing file that its filter keeps
      and sends the result to the clients, and does nothing without a file; a client
      asks the server to load. */
  function Loaded(s: Store, isServer: bool, fmt: RealFormat): Store
  {
    if !isServer then s.(outbox := s.outbox + [ConfigRequest(Load)])
    else
      match s.file
      case None => s
      case Some(text) =>
        Broadcast(s.(config := ApplyAll(s.config, ConfigLines(ReadLines(text)), fmt)), true, fmt)
  }

  /** ResetConfig: the server restores the defaults and sends them to the clients; a
      client asks the server to reset. */
  function ResetDone(s: Store, isServer: bool, fmt: RealFormat): Store
  {
    if isServer then Broadcast(s.(config := Defaults()), true, fmt)
    else s.(outbox := s.outbox + [ConfigRequest(Reset)])
  }

  /** The config action `a`, carried out where the call is made. */
  function Performed(s: Store, a: ConfigAction, isServer: bool, fmt: RealFormat): Store
  {
    match a
    case Save => Saved(s, isServer, fmt)
    case Load => Loaded(s, isServer, fmt)
    case Reset => ResetDone(s, isServer, fmt)
  }

  /** ReceivedConfigRequest: the action the first byte names, if any. */
  function Requested(s: Store, bytes: seq<byte>, isServer: bool, fmt: RealFormat): (r: Store)
    ensures |bytes| == 0 ==> r == s
    ensures |bytes| > 0 && bytes[0] >= 3 ==> r == s
  {
    match DecodeAction(bytes)
    case None => s
    case Some(a) => Performed(s, a, isServer, fmt)
  }

  // ---------------------------------------------------------------- properties

  /** A client's config requests change nothing locally: each only queues its packet. */
  lemma ClientOnlyAsks(s: Store, a: ConfigAction, fmt: RealFormat)
    ensures Performed(s, a, false, fmt) == s.(outbox := s.outbox + [ConfigRequest(a)])
  {
  }

  /** The byte a client's request carries makes the server carry out that very action. */
  lemma RequestReachesServer(s: Store, a: ConfigAction, fmt: RealFormat)
    ensures Requested(s, [ActionByte(a)], true, fmt) == Performed(s, a, true, fmt)
  {
    ActionRoundTrip(a, []);
    assert [ActionByte(a)] + [] == [ActionByte(a)];
  }

  /** A reset on the server restores every default and sends the defaults out. */
  lemma ResetRestoresDefaults(s: Store, fmt: RealFormat)
    ensures var r := ResetDone(s, true, fmt);
            r.config == Defaults() && r.file == s.file
            && r.outbox == s.outbox + [SettingsPacket(AsciiBytes(SettingsText(Defaults(), false, fmt)))]
  {
  }

  /** Without a config file the server's load changes nothing and sends nothing. */
  lemma LoadWithoutFile(s: Store, fmt: RealFormat)
    requires s.file.None?
    ensures Loaded(s, true, fmt) == s
  {
  }

  /** Settings received or loaded keep their radius and strength bounds in range. */
  lemma ReceivedKeepsBounds(s: Store, data: seq<byte>, isServer: bool, fmt: RealFormat)
    requires BoundsValid(s.config)
    ensures BoundsValid(Received(s, data, isServer, fmt).config)
  {
    ApplyAllKeepsBounds(s.config, TrimAll(Split(AsciiString(data), '\n')), fmt);
  }

  lemma LoadedKeepsBounds(s: Store, isServer: bool, fmt: RealFormat)
    requires BoundsValid(s.config)
    ensures BoundsValid(Loaded(s, isServer, fmt).config)
  {
    if isServer && s.file.Some? {
      ApplyAllKeepsBounds(s.config, ConfigLines(ReadLines(s.file.value)), fmt);
    }
  }

  /**
   * A client that receives the settings packet the server sends for settings `c` ends
   * up with exactly `c`, whatever it held before, and sends nothing back, when the
   * settings print exactly and in ASCII.
   */
  lemma ClientAdoptsServerSettings(t: Store, c: Config, fmt: RealFormat)
    requires Serializable(c, fmt) && AsciiSafe(c, fmt)
    ensures Received(t, AsciiBytes(SettingsText(c, false, fmt)), false, fmt) == t.(config := c)
  {
    SettingsTextAscii(c, fmt);
    AsciiRoundTrip(SettingsText(c, false, fmt));
    WireRoundTrip(t.config, c, fmt);
  }

  /**
   * On the server, loading the file that saving has just written restores the settings
   * that were saved, and sends them to the clients.
   */
  lemma SaveThenLoad(s: Store, fmt: RealFormat)
    requires Serializable(s.config, fmt) && FileSafe(s.config) && CommentsOnOneLine(fmt)
    ensures var r := Loaded(Saved(s, true, fmt), true, fmt);
            r.config == s.config && r.file == Some(SettingsText(s.config, true, fmt))
            && r.outbox == s.outbox + [SettingsPacket(AsciiBytes(SettingsText(s.config, false, fmt)))]
  {
    FileRoundTrip(s.config, s.config, fmt);
  }

  // ---------------------------------------------------------------- the object

  class SettingsStore {
    var affectShips: bool
    var massLimit: int
    var massDivide: int
    var jetpack: int
    var jetpackHover: bool
    var notify: bool
    var asteroidPrefix: Option<seq<string>>
    var asteroidMaxsize: int
    var radiusMin: int
    var radiusMax: int
    var strengthMin: real
    var strengthMax: real
    /** The config file in local storage. */
    var file: Option<string>
    /** The packets sent so far. */
    var outbox: seq<Message>
    /** NaturalGravity.isServer. */
    const isServer: bool
    /** How floating-point values are printed and parsed. */
    const fmt: RealFormat

    function Snapshot(): Config
      reads this
    {
      Config(affectShips, massLimit, massDivide, jetpack, jetpackHover, notify, asteroidPrefix,
             asteroidMaxsize, radiusMin, radiusMax, strengthMin, strengthMax)
    }

    function State(): Store
      reads this
    {
      Store(Snapshot(), file, outbox)
    }

    /** The settings as Init leaves them before any file or packet is read. */
    constructor(isServer: bool, fmt: RealFormat, file: Option<string>)
      ensures State() == Store(Defaults(), file, [])
      ensures this.isServer == isServer && this.fmt == fmt
    {
      this.isServer := isServer;
      this.fmt := fmt;
      this.file := file;
      outbox := [];
      new;
      ResetSettings();
    }

    /** ResetSettings: every setting takes its default. */
    method ResetSettings()
      modifies this`affectShips, this`massLimit, this`massDivide, this`jetpack, this`jetpackHover,
               this`notify, this`asteroidPrefix, this`asteroidMaxsize, this`radiusMin, this`radiusMax,
               this`strengthMin, this`strengthMax
      ensures Snapshot() == Defaults()
    {
      ResetShipSettings();
      ResetAsteroidSettings();
    }

    /** The first half of ResetSettings: the ship and player settings. */
    method ResetShipSettings()
      modifies this`affectShips, this`massLimit, this`massDivide, this`jetpack, this`jetpackHover,
               this`notify
      ensures affectShips == DEFAULT_AFFECT_SHIPS && massLimit == DEFAULT_MASS_LIMIT
      ensures massDivide == DEFAULT_MASS_DIVIDE && jetpack == DEFAULT_JETPACK
      ensures jetpackHover == DEFAULT_JETPACK_HOVER && notify == DEFAULT_NOTIFY
    {
      affectShips := DEFAULT_AFFECT_SHIPS;
      massLimit := DEFAULT_MASS_LIMIT;
      massDivide := DEFAULT_MASS_DIVIDE;
      jetpack := DEFAULT_JETPACK;
      jetpackHover := DEFAULT_JETPACK_HOVER;
      notify := DEFAULT_NOTIFY;
    }

    /** The second half of ResetSettings: the asteroid settings. */
    method ResetAsteroidSettings()
      modifies this`asteroidPrefix, this`asteroidMaxsize, this`radiusMin, this`radiusMax,
               this`strengthMin, this`strengthMax
      ensures asteroidPrefix == Defaults().asteroidPrefix && asteroidMaxsize == DEFAULT_ASTEROID_MAXSIZE
      ensures radiusMin == DEFAULT_RADIUS_MIN && radiusMax == DEFAULT_RADIUS_MAX
      ensures strengthMin == DEFAULT_STRENGTH_MIN && strengthMax == DEFAULT_STRENGTH_MAX
    {
      asteroidPrefix := Some(TrimAll(Split(DEFAULT_ASTEROID_PREFIX, ',')));
      asteroidMaxsize := DEFAULT_ASTEROID_MAXSIZE;
      radiusMin := DEFAULT_RADIUS_MIN;
      radiusMax := DEFAULT_RADIUS_MAX;
      strengthMin := DEFAULT_STRENGTH_MIN;
      strengthMax := DEFAULT_STRENGTH_MAX;
    }

    /** ParseSetting(line, verbose, splitCharacter), writing the selected field in place. */
    method ParseSetting(line: string, sep: char) returns (ok: bool)
      modifies this`affectShips, this`massLimit, this`massDivide, this`jetpack, this`jetpackHover,
               this`notify, this`asteroidPrefix, this`asteroidMaxsize, this`radiusMin, this`radiusMax,
               this`strengthMin, this`strengthMax
      ensures Outcome(ok, Snapshot()) == ApplySetting(old(Snapshot()), line, sep, fmt)
    {
      var args := Split(line, sep);
      if |args| != 2 {
        return false;
      }
      var param := Trim(args[0]);
      var value := Trim(args[1]);
      match ParseKey(param) {
        case None =>
          ok := false;
        case Some(k) =>
          ok := SetKey(k, value);
      }
    }

    /** The case of ParseSetting's switch that key `k` selects: the setter and, for a
        radius or strength bound that parsed, the clamp. */
    method SetKey(k: Key, value: string) returns (ok: bool)
      modifies this`affectShips, this`massLimit, this`massDivide, this`jetpack, this`jetpackHover,
               this`notify, this`asteroidPrefix, this`asteroidMaxsize, this`radiusMin, this`radiusMax,
               this`strengthMin, this`strengthMax
      ensures Outcome(ok, Snapshot()) == Assign(old(Snapshot()), k, value, fmt)
    {
      match k
      case AffectShips =>
        var s := SetValue(affectShips, value, TryParseBool);
        affectShips, ok := s.value, s.ok;
      case MassLimit =>
        var s := SetValue(massLimit, value, ParseInt32);
        massLimit, ok := s.value, s.ok;
      case MassDivide =>
        var s := SetValue(massDivide, value, ParseInt32);
        massDivide, ok := s.value, s.ok;
      case Jetpack =>
        var s := SetValue(jetpack, value, ParseInt32);
        jetpack, ok := s.value, s.ok;
      case JetpackHover =>
        var s := SetValue(jetpackHover, value, TryParseBool);
        jetpackHover, ok := s.value, s.ok;
      case Notify =>
        var s := SetValue(notify, value, TryParseBool);
        notify, ok := s.value, s.ok;
      case AsteroidPrefix =>
        asteroidPrefix, ok := PrefixValue(value), true;
      case AsteroidMaxsize =>
        var s := SetValue(asteroidMaxsize, value, ParseInt32);
        asteroidMaxsize, ok := s.value, s.ok;
      case RadiusMin =>
        var s := SetValue(radiusMin, value, ParseInt32);
        radiusMin, ok := s.value, s.ok;
        if ok {
          radiusMin := ClampRadius(radiusMin);
        }
      case RadiusMax =>
        var s := SetValue(radiusMax, value, ParseInt32);
        radiusMax, ok := s.value, s.ok;
        if ok {
          radiusMax := ClampRadius(radiusMax);
        }
      case StrengthMin =>
        var s := SetValue(strengthMin, value, fmt.parse);
        strengthMin, ok := s.value, s.ok;
        if ok {
          strengthMin := ClampStrength(strengthMin);
        }
      case StrengthMax =>
        var s := SetValue(strengthMax, value, fmt.parse);
        strengthMax, ok := s.value, s.ok;
        if ok {
          strengthMax := ClampStrength(strengthMax);
        }
    }

    /** SendSettingsToClients. */
    method SendSettingsToClients()
      modifies this
      ensures State() == Broadcast(old(State()), isServer, fmt)
    {
      if isServer {
        outbox := outbox + [SettingsPacket(AsciiBytes(SettingsText(Snapshot(), false, fmt)))];
      }
    }

    /** ReceivedSettings(bytes). */
    method ReceivedSettings(data: seq<byte>)
      modifies this
      ensures State() == Received(old(State()), data, isServer, fmt)
    {
      var text := AsciiString(data);
      var lines := Split(text, '\n');
      ghost var trimmed := TrimAll(lines);
      var i := 0;
      while i < |lines|
        invariant 0 <= i <= |lines|
        invariant Snapshot() == ApplyAll(old(Snapshot()), trimmed[..i], fmt)
        invariant file == old(file) && outbox == old(outbox)
      {
        assert trimmed[..i + 1][..i] == trimmed[..i];
        var _ := ParseSetting(Trim(lines[i]), '=');
        i := i + 1;
      }
      assert trimmed[..|lines|] == trimmed;
      SendSettingsToClients();
    }

    /** SaveConfig. */
    method SaveConfig()
      modifies this
      ensures State() == Saved(old(State()), isServer, fmt)
    {
      if isServer {
        file := Some(SettingsText(Snapshot(), true, fmt));
      } else {
        outbox := outbox + [ConfigRequest(Save)];
      }
    }

    /** LoadConfig: the file's lines are read one at a time and filtered. */
    method LoadConfig()
      modifies this
      ensures State() == Loaded(old(State()), isServer, fmt)
    {
      if !isServer {
        outbox := outbox + [ConfigRequest(Load)];
        return;
      }
      if file.None? {
        return;
      }
      var lines := ReadLines(file.value);
      var i := 0;
      while i < |lines|
        invariant 0 <= i <= |lines|
        invariant Snapshot() == ApplyAll(old(Snapshot()), ConfigLines(lines[..i]), fmt)
        invariant file == old(file) && outbox == old(outbox)
      {
        assert lines[..i + 1][..i] == lines[..i];
        assert ConfigLines(lines[..i + 1])
               == match ConfigLine(lines[i])
                  case None => ConfigLines(lines[..i])
                  case Some(t) => ConfigLines(lines[..i]) + [t];
        match ConfigLine(lines[i]) {
          case None =>
          case Some(line) =>
            var _ := ParseSetting(line, '=');
        }
        i := i + 1;
      }
      assert lines[..|lines|] == lines;
      SendSettingsToClients();
    }

    /** ResetConfig. */
    method ResetConfig()
      modifies this
      ensures State() == ResetDone(old(State()), isServer, fmt)
    {
      if isServer {
        ResetSettings();
        SendSettingsToClients();
      } else {
        outbox := outbox + [ConfigRequest(Reset)];
      }
    }

    /** ReceivedConfigRequest(bytes). */
    method ReceivedConfigRequest(bytes: seq<byte>)
      modifies this
      ensures State() == Requested(old(State()), bytes, isServer, fmt)
    {
      if |bytes| == 0 {
        return;
      }
      if bytes[0] == CONFIG_SAVE {
        SaveConfig();
      } else if bytes[0] == CONFIG_LOAD {
        LoadConfig();
      } else if bytes[0] == CONFIG_RESET {
        ResetConfig();
      }
    }
  }
}
