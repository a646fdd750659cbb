/**
 * The mod's settings (Settings.cs) as values: the twelve settings, their defaults,
 * the key/value parser with type-directed TryParse and range clamps, the canonical
 * `key=value` text with and without comments, the config-file line filter, the
 * config-action byte, and the round trips between the text and the parser.
 */
module Settings {
  import opened Wrappers
  import opened Strings
  import opened FieldRules

  /** The static settings fields; `None` is a null prefix list (prefix scan disabled). */
  datatype Config = Config(
    affectShips: bool,
    massLimit: int,
    massDivide: int,
    jetpack: int,
    jetpackHover: bool,
    notify: bool,
    asteroidPrefix: Option<seq<string>>,
    asteroidMaxsize: int,
    radiusMin: int,
    radiusMax: int,
    strengthMin: real,
    strengthMax: real)

  const DEFAULT_AFFECT_SHIPS: bool := true
  const DEFAULT_MASS_LIMIT: int := 200000
  const DEFAULT_MASS_DIVIDE: int := 10
  const DEFAULT_JETPACK: int := 100
  const DEFAULT_JETPACK_HOVER: bool := false
  const DEFAULT_NOTIFY: bool := true
  const DEFAULT_ASTEROID_PREFIX: string := "gravity_"
  const DEFAULT_ASTEROID_MAXSIZE: int := 4096
  const DEFAULT_RADIUS_MIN: int := 1000
  const DEFAULT_RADIUS_MAX: int := 50000
  const DEFAULT_STRENGTH_MIN: real := 0.01
  const DEFAULT_STRENGTH_MAX: real := 1.0

  /** Each piece trimmed, as the prefix setter and the default prefix list do. */
  function TrimAll(parts: seq<string>): (r: seq<string>)
    ensures |r| == |parts|
    ensures forall i :: 0 <= i < |parts| ==> r[i] == Trim(parts[i])
  {
    seq(|parts|, i requires 0 <= i < |parts| => Trim(parts[i]))
  }

  /** The values ResetSettings assigns: every DEFAULT_* constant, the prefix list being
      the default prefix split on commas and trimmed, which is the single prefix
      "gravity_". */
  function Defaults(): (c: Config)
    ensures c.asteroidPrefix == Some([DEFAULT_ASTEROID_PREFIX])
    ensures BoundsValid(c)
  {
    DefaultPrefixList();
    Config(DEFAULT_AFFECT_SHIPS, DEFAULT_MASS_LIMIT, DEFAULT_MASS_DIVIDE, DEFAULT_JETPACK,
           DEFAULT_JETPACK_HOVER, DEFAULT_NOTIFY,
           Some(TrimAll(Split(DEFAULT_ASTEROID_PREFIX, ','))),
           DEFAULT_ASTEROID_MAXSIZE, DEFAULT_RADIUS_MIN, DEFAULT_RADIUS_MAX,
           DEFAULT_STRENGTH_MIN, DEFAULT_STRENGTH_MAX)
  }

  lemma DefaultPrefixList()
    ensures TrimAll(Split(DEFAULT_ASTEROID_PREFIX, ',')) == [DEFAULT_ASTEROID_PREFIX]
  {
    var p := DEFAULT_ASTEROID_PREFIX;
    assert forall i :: 0 <= i < |p| ==> p[i] != ',';
    SplitWithoutSeparator(p, ',');
    assert p[0] == 'g' && p[|p| - 1] == '_';
    TrimSetKeeps(p, WhiteSpace);
  }

  /** The radius bounds lie in [RADIUS_MIN, RADIUS_MAX] and the strength bounds in
      [STRENGTH_MIN, STRENGTH_MAX]. */
  predicate BoundsValid(c: Config)
  {
    RADIUS_MIN <= c.radiusMin <= RADIUS_MAX && RADIUS_MIN <= c.radiusMax <= RADIUS_MAX
    && STRENGTH_MIN <= c.strengthMin <= STRENGTH_MAX && STRENGTH_MIN <= c.strengthMax <= STRENGTH_MAX
  }

  // ---------------------------------------------------------------- keys

  datatype Key = AffectShips | MassLimit | MassDivide | Jetpack | JetpackHover | Notify
               | AsteroidPrefix | AsteroidMaxsize | RadiusMin | RadiusMax
               | StrengthMin | StrengthMax

  /** The keys in the order the settings text lists them. */
  const Order: seq<Key> := [AffectShips, MassLimit, MassDivide, Jetpack, JetpackHover, Notify,
                            AsteroidPrefix, AsteroidMaxsize, RadiusMin, RadiusMax,
                            StrengthMin, StrengthMax]

  function KeyName(k: Key): string
  {
    match k
    case AffectShips => "affect_ships"
    case MassLimit => "mass_limit"
    case MassDivide => "mass_divide"
    case Jetpack => "jetpack"
    case JetpackHover => "jetpack_hover"
    case Notify => "notify"
    case AsteroidPrefix => "asteroid_prefix"
    case AsteroidMaxsize => "asteroid_maxsize"
    case RadiusMin => "radius_min"
    case RadiusMax => "radius_max"
    case StrengthMin => "strength_min"
    case StrengthMax => "strength_max"
  }

  /** The key a parameter name selects: names match exactly, letter case included,
      and every other name selects nothing. */
  function ParseKey(name: string): (r: Option<Key>)
    ensures r.Some? ==> KeyName(r.value) == name
    ensures forall k :: KeyName(k) == name ==> r == Some(k)
  {
    if name == "affect_ships" then Some(AffectShips)
    else if name == "mass_limit" then Some(MassLimit)
    else if name == "mass_divide" then Some(MassDivide)
    else if name == "jetpack" then Some(Jetpack)
    else if name == "jetpack_hover" then Some(JetpackHover)
    else if name == "notify" then Some(Notify)
    else if name == "asteroid_prefix" then Some(AsteroidPrefix)
    else if name == "asteroid_maxsize" then Some(AsteroidMaxsize)
    else if name == "radius_min" then Some(RadiusMin)
    else if name == "radius_max" then Some(RadiusMax)
    else if name == "strength_min" then Some(StrengthMin)
    else if name == "strength_max" then Some(StrengthMax)
    else None
  }

  /** `c` and `d` hold the same value for key `k`. */
  predicate Agree(c: Config, d: Config, k: Key)
  {
    match k
    case AffectShips => c.affectShips == d.affectShips
    case MassLimit => c.massLimit == d.massLimit
    case MassDivide => c.massDivide == d.massDivide
    case Jetpack => c.jetpack == d.jetpack
    case JetpackHover => c.jetpackHover == d.jetpackHover
    case Notify => c.notify == d.notify
    case AsteroidPrefix => c.asteroidPrefix == d.asteroidPrefix
    case AsteroidMaxsize => c.asteroidMaxsize == d.asteroidMaxsize
    case RadiusMin => c.radiusMin == d.radiusMin
    case RadiusMax => c.radiusMax == d.radiusMax
    case StrengthMin => c.strengthMin == d.strengthMin
    case StrengthMax => c.strengthMax == d.strengthMax
  }

  /** Only key `k` may differ between `c` and `d`. */
  predicate SameExcept(c: Config, d: Config, k: Key)
  {
    forall k' :: k' != k ==> Agree(c, d, k')
  }

  /** `e` with the value of key `k` taken from `c`. */
  function Copy(e: Config, c: Config, k: Key): Config
  {
    match k
    case AffectShips => e.(affectShips := c.affectShips)
    case MassLimit => e.(massLimit := c.massLimit)
    case MassDivide => e.(massDivide := c.massDivide)
    case Jetpack => e.(jetpack := c.jetpack)
    case JetpackHover => e.(jetpackHover := c.jetpackHover)
    case Notify => e.(notify := c.notify)
    case AsteroidPrefix => e.(asteroidPrefix := c.asteroidPrefix)
    case AsteroidMaxsize => e.(asteroidMaxsize := c.asteroidMaxsize)
    case RadiusMin => e.(radiusMin := c.radiusMin)
    case RadiusMax => e.(radiusMax := c.radiusMax)
    case StrengthMin => e.(strengthMin := c.strengthMin)
    case StrengthMax => e.(strengthMax := c.strengthMax)
  }

  // ---------------------------------------------------------------- the setters

  datatype Stored<T> = Stored(ok: bool, value: T)

  /** The typed SetValue: a non-empty text that the type's TryParse accepts replaces the
      value; anything else keeps the current value and reports failure. */
  function SetValue<T>(current: T, value: string, parse: string -> Option<T>): (r: Stored<T>)
    ensures r.ok <==> value != [] && parse(value).Some?
    ensures r.ok ==> r.value == parse(value).value
    ensures !r.ok ==> r.value == current
  {
    if value != [] && parse(value).Some? then Stored(true, parse(value).value)
    else Stored(false, current)
  }

  /** An integer setting given a text without any digit (a word, a lone sign,
      white space) fails and keeps its value. */
  lemma SetValueRejectsText(current: int, value: string)
    requires forall i | 0 <= i < |value| :: !IsDigit(value[i])
    ensures SetValue(current, value, ParseInt32) == Stored(false, current)
  {
    TrimStartSuffix(value, WhiteSpace);
  }

  /** The string-array SetValue (which always succeeds): "null" disables the prefix
      list, any other text becomes its comma-separated pieces, each trimmed. */
  function PrefixValue(value: string): (r: Option<seq<string>>)
    ensures r.None? <==> value == "null"
    ensures r.Some? ==> |r.value| >= 1
  {
    if value == "null" then None else Some(TrimAll(Split(value, ',')))
  }

  datatype Outcome = Outcome(ok: bool, config: Config)

  /** The setter ParseSetting selects for key `k`, given the trimmed value. A radius or
      strength bound that parses is clamped into its range (Math.Min of Math.Max, which
      ClampRadius and ClampStrength compute). */
  function Assign(c: Config, k: Key, value: string, fmt: RealFormat): (r: Outcome)
    ensures !r.ok ==> r.config == c
    ensures SameExcept(c, r.config, k)
    ensures k == AsteroidPrefix ==> r.ok
    ensures r.ok ==> BoundOk(r.config, k)
  {
    match k
    case AffectShips =>
      var s := SetValue(c.affectShips, value, TryParseBool);
      Outcome(s.ok, c.(affectShips := s.value))
    case MassLimit =>
      var s := SetValue(c.massLimit, value, ParseInt32);
      Outcome(s.ok, c.(massLimit := s.value))
    case MassDivide =>
      var s := SetValue(c.massDivide, value, ParseInt32);
      Outcome(s.ok, c.(massDivide := s.value))
    case Jetpack =>
      var s := SetValue(c.jetpack, value, ParseInt32);
      Outcome(s.ok, c.(jetpack := s.value))
    case JetpackHover =>
      var s := SetValue(c.jetpackHover, value, TryParseBool);
      Outcome(s.ok, c.(jetpackHover := s.value))
    case Notify =>
      var s := SetValue(c.notify, value, TryParseBool);
      Outcome(s.ok, c.(notify := s.value))
    case AsteroidPrefix =>
      Outcome(true, c.(asteroidPrefix := PrefixValue(value)))
    case AsteroidMaxsize =>
      var s := SetValue(c.asteroidMaxsize, value, ParseInt32);
      Outcome(s.ok, c.(asteroidMaxsize := s.value))
    case RadiusMin =>
      var s := SetValue(c.radiusMin, value, ParseInt32);
      Outcome(s.ok, c.(radiusMin := if s.ok then ClampRadius(s.value) else s.value))
    case RadiusMax =>
      var s := SetValue(c.radiusMax, value, ParseInt32);
      Outcome(s.ok, c.(radiusMax := if s.ok then ClampRadius(s.value) else s.value))
    case StrengthMin =>
      var s := SetValue(c.strengthMin, value, fmt.parse);
      Outcome(s.ok, c.(strengthMin := if s.ok then ClampStrength(s.value) else s.value))
    case StrengthMax =>
      var s := SetValue(c.strengthMax, value, fmt.parse);
      Outcome(s.ok, c.(strengthMax := if s.ok then ClampStrength(s.value) else s.value))
  }

  /** A radius or strength bound named by `k` lies in its allowed range. */
  predicate BoundOk(c: Config, k: Key)
  {
    match k
    case RadiusMin => RADIUS_MIN <= c.radiusMin <= RADIUS_MAX
    case RadiusMax => RADIUS_MIN <= c.radiusMax <= RADIUS_MAX
    case StrengthMin => STRENGTH_MIN <= c.strengthMin <= STRENGTH_MAX
    case StrengthMax => STRENGTH_MIN <= c.strengthMax <= STRENGTH_MAX
    case _ => true
  }

  /**
   * ParseSetting(line, splitCharacter): a line that does not split into exactly two
   * parts, or whose trimmed first part names no setting, fails and changes nothing;
   * otherwise the trimmed second part is given to that setting's setter, and only
   * that setting can change.
   */
  function ApplySetting(c: Config, line: string, sep: char, fmt: RealFormat): (r: Outcome)
    ensures !r.ok ==> r.config == c
    ensures |Split(line, sep)| != 2 ==> !r.ok
    ensures r.ok ==> |Split(line, sep)| == 2 && ParseKey(Trim(Split(line, sep)[0])).Some?
    ensures r.ok ==> var k := ParseKey(Trim(Split(line, sep)[0])).value;
                     SameExcept(c, r.config, k) && BoundOk(r.config, k)
    ensures BoundsValid(c) ==> BoundsValid(r.config)
  {
    var args := Split(line, sep);
    if |args| != 2 then Outcome(false, c)
    else
      match ParseKey(Trim(args[0]))
      case None => Outcome(false, c)
      case Some(k) => Assign(c, k, Trim(args[1]), fmt)
  }

  /** Applies lines in order, as the loops of ReceivedSettings and LoadConfig do. */
  function ApplyAll(c: Config, lines: seq<string>, fmt: RealFormat): Config
  {
    if lines == [] then c
    else ApplySetting(ApplyAll(c, lines[..|lines| - 1], fmt), lines[|lines| - 1], '=', fmt).config
  }

  lemma {:induction false} ApplyAllKeepsBounds(c: Config, lines: seq<string>, fmt: RealFormat)
    requires BoundsValid(c)
    ensures BoundsValid(ApplyAll(c, lines, fmt))
  {
    if lines != [] {
      ApplyAllKeepsBounds(c, lines[..|lines| - 1], fmt);
    }
  }

  // ---------------------------------------------------------------- the settings text

  /** The prefix list as GetSettingsString should print it: joined with ", ", and the
      word the parser reads as a disabled list when there is none. */
  function PrefixText(p: Option<seq<string>>): string
  {
    match p
    case None => "null"
    case Some(ps) => Join(ps, ", ")
  }

  /** The prefix list as GetSettingsString prints it: String.Join throws on a null
      list, shown here as `None`. */
  function PrefixTextAsWritten(p: Option<seq<string>>): (r: Option<string>)
    ensures r.None? <==> p.None?
  {
    match p
    case None => None
    case Some(ps) => Some(Join(ps, ", "))
  }

  function ValueText(c: Config, k: Key, fmt: RealFormat): string
  {
    match k
    case AffectShips => BoolToString(c.affectShips)
    case MassLimit => IntToString(c.massLimit)
    case MassDivide => IntToString(c.massDivide)
    case Jetpack => IntToString(c.jetpack)
    case JetpackHover => BoolToString(c.jetpackHover)
    case Notify => BoolToString(c.notify)
    case AsteroidPrefix => PrefixText(c.asteroidPrefix)
    case AsteroidMaxsize => IntToString(c.asteroidMaxsize)
    case RadiusMin => IntToString(c.radiusMin)
    case RadiusMax => IntToString(c.radiusMax)
    case StrengthMin => fmt.show(c.strengthMin)
    case StrengthMax => fmt.show(c.strengthMax)
  }

  function DataLine(c: Config, k: Key, fmt: RealFormat): string
  {
    KeyName(k) + "=" + ValueText(c, k, fmt)
  }

  /** What LoadConfig skips: a line that starts with it is a comment. */
  const CommentMarker: string := "//"

  /** A comment line: the marker, then the comment's text. */
  function Comment(text: string): string
  {
    CommentMarker + text
  }

  /** Text without a line break: no carriage return and no line feed. */
  predicate OneLine(s: string)
  {
    '\r' !in s && '\n' !in s
  }

  /** `l` starts with `marker` and holds a line break only where the marker does. */
  predicate Marked(marker: string, l: string)
  {
    |marker| <= |l| && l[..|marker|] == marker && (OneLine(marker) ==> OneLine(l))
  }

  /* The comment lines, each the marker followed by a text written as short pieces so
     that the verifier can inspect its characters. The marker is a parameter so that
     a text is unfolded only where a proof names its line. */

  function HeaderNote(marker: string): (l: string)
    ensures Marked(marker, l)
  {
    marker + " Config file," + " anything that" + " starts with //" + " is a comment"
  }

  function ResavedNote(marker: string): (l: string)
    ensures Marked(marker, l)
  {
    marker + " This file gets" + " re-saved after" + " being loaded to" + " keep comments"
      + " and variables" + " up-to-date."
  }

  function AffectShipsNote(marker: string): (l: string)
    ensures Marked(marker, l)
  {
    marker + " Enable/disable" + " if ships are" + " affected by" + " natural" + " gravity,"
      + " default "
  }

  function MassLimitNote(marker: string): (l: string)
    ensures Marked(marker, l)
  {
    marker + " Ship mass above" + " this limit will" + " be ignored (or" + " divided by the"
      + " mass_divide" + " option)."
  }

  function MassLimitDefault(marker: string): (l: string)
    ensures Marked(marker, l)
  {
    marker + " Set to 0 to" + " disable mass" + " limits;" + " default: "
  }

  function MassDivideNote(marker: string): (l: string)
    ensures Marked(marker, l)
  {
    marker + " Divide the ship" + " mass used in" + " gravity by this" + " number."
  }

  function MassDivideDefault(marker: string): (l: string)
    ensures Marked(marker, l)
  {
    marker + " Set to 0 to" + " disable mass" + " dividing;" + " default: "
  }

  function FormulaNote(marker: string): (l: string)
    ensures Marked(marker, l)
  {
    marker + " Exact formula" + " for mass_limit" + " and mass_divide" + " is:"
  }

  function FormulaIf(marker: string): (l: string)
    ensures Marked(marker, l)
  {
    marker + " if ship_mass >" + " mass_limit"
  }

  function FormulaThen(marker: string): (l: string)
    ensures Marked(marker, l)
  {
    marker + "     gravity_mass" + " = mass_limit +" + " ((ship_mass -" + " mass_limit) /"
      + " mass_divide)"
  }

  function FormulaElse(marker: string): (l: string)
    ensures Marked(marker, l)
  {
    marker + " otherwise"
  }

  function FormulaOtherwise(marker: string): (l: string)
    ensures Marked(marker, l)
  {
    marker + "     gravity_mass" + " = ship_mass"
  }

  function JetpackNote(marker: string): (l: string)
    ensures Marked(marker, l)
  {
    marker + " Percentage of" + " gravity" + " affecting" + " players with" + " jetpack on."
  }

  function JetpackDefault(marker: string): (l: string)
    ensures Marked(marker, l)
  {
    marker + " Set to 0 to" + " disable, values" + " beyond 100 are" + " supported;" + " default: "
  }

  function JetpackHoverNote(marker: string): (l: string)
    ensures Marked(marker, l)
  {
    marker + " Enable/disable" + " ignoring" + " players with" + " dampeners on," + " default: "
  }

  function NotifyNote(marker: string): (l: string)
    ensures Marked(marker, l)
  {
    marker + " Enable/disable" + " the" + " notifications" + " when" + " entering/leaving"
      + " natural gravity" + " fields," + " default: "
  }

  function PrefixNote(marker: string): (l: string)
    ensures Marked(marker, l)
  {
    marker + " All asteroids" + " with this" + " prefix will be" + " added natural"
      + " gravity, letter" + " case does not" + " matter."
  }

  function PrefixListNote(marker: string): (l: string)
    ensures Marked(marker, l)
  {
    marker + " You can specify" + " more than one" + " prefix" + " separated by" + " comma."
  }

  function PrefixDefault(marker: string): (l: string)
    ensures Marked(marker, l)
  {
    marker + " Set to null to" + " disable," + " Default: "
  }

  function MaxsizeNote(marker: string): (l: string)
    ensures Marked(marker, l)
  {
    marker + " This number is" + " used in radius" + " and strength" + " calculation,"
      + " the maximum" + " size that" + " radius_max will" + " be applied to."
  }

  function MaxsizeExample(marker: string): (l: string)
    ensures Marked(marker, l)
  {
    marker + " The asteroid" + " size is its" + " boundary size," + " so an" + " 511x513x511m"
      + " asteroid will" + " have a boundary" + " size of 1024."
  }

  function RadiusNote(marker: string): (l: string)
    ensures Marked(marker, l)
  {
    marker + " The minimum and" + " maximum range" + " that the" + " asteroid will"
      + " have relative" + " to their size."
  }

  function RadiusUse(marker: string): (l: string)
    ensures Marked(marker, l)
  {
    marker + " These values" + " are used when" + " creating" + " gravity for an" + " asteroid"
      + " (manually or" + " automatically)."
  }

  function RadiusFormula(marker: string): (l: string)
    ensures Marked(marker, l)
  {
    marker + " Exact formula:" + " (asteroid_size" + " /" + " asteroid_maxsize)" + " * radius_max"
      + " limiting" + " between" + " radius_min and" + " radius_max"
  }

  function StrengthNote(marker: string): (l: string)
    ensures Marked(marker, l)
  {
    var head := StrengthNoteHead(marker);
    var l := head + " that asteroids" + " have when" + " they're created" + " (manually or" + " automatically).";
    assert l[..|marker|] == head[..|marker|];
    l
  }

  function StrengthNoteHead(marker: string): (l: string)
    ensures Marked(marker, l)
  {
    marker + " These values" + " determine the" + " minimum and" + " maximum" + " strength in Gs"
  }

  function StrengthFormula(marker: string): (l: string)
    ensures Marked(marker, l)
  {
    var head := StrengthFormulaHead(marker);
    var l := head + " limiting" + " between" + " strength_min" + " and" + " strength_max";
    assert l[..|marker|] == head[..|marker|];
    l
  }

  function StrengthFormulaHead(marker: string): (l: string)
    ensures Marked(marker, l)
  {
    marker + " Exact formula:" + " (asteroid_size" + " /" + " asteroid_maxsize)" + " * strength_max"
  }

  /** The last comment line before the radius and the strength bounds: their defaults,
      then the range they are limited to, the two ends joined by `between`. */
  function LimitsNote(lo: string, hi: string, least: string, between: string, most: string): (t: string)
    ensures OneLine(lo) && OneLine(hi) && OneLine(least) && OneLine(between) && OneLine(most)
            ==> OneLine(t)
  {
    " Default: " + lo + " and " + hi + "; Values limited" + " between " + least + between + most + "."
  }

  /** The comment block written before key `k` in the commented form. */
  function CommentsBefore(k: Key, fmt: RealFormat): seq<string>
  {
    match k
    case AffectShips =>
      [HeaderNote(CommentMarker), ResavedNote(CommentMarker), "", "",
       AffectShipsNote(CommentMarker) + BoolToString(DEFAULT_AFFECT_SHIPS) + "."]
    case MassLimit =>
      ["", MassLimitNote(CommentMarker), MassLimitDefault(CommentMarker) + IntToString(DEFAULT_MASS_LIMIT)]
    case MassDivide =>
      ["", MassDivideNote(CommentMarker), MassDivideDefault(CommentMarker) + IntToString(DEFAULT_MASS_DIVIDE)]
    case Jetpack =>
      [FormulaNote(CommentMarker), FormulaIf(CommentMarker), FormulaThen(CommentMarker), FormulaElse(CommentMarker),
       FormulaOtherwise(CommentMarker), "", JetpackNote(CommentMarker),
       JetpackDefault(CommentMarker) + IntToString(DEFAULT_JETPACK)]
    case JetpackHover =>
      ["", JetpackHoverNote(CommentMarker) + BoolToString(DEFAULT_JETPACK_HOVER)]
    case Notify =>
      ["", NotifyNote(CommentMarker) + BoolToString(DEFAULT_NOTIFY)]
    case AsteroidPrefix =>
      ["", PrefixNote(CommentMarker), PrefixListNote(CommentMarker), PrefixDefault(CommentMarker) + DEFAULT_ASTEROID_PREFIX]
    case AsteroidMaxsize =>
      ["", MaxsizeNote(CommentMarker), MaxsizeExample(CommentMarker),
       Comment(" Default: " + IntToString(DEFAULT_ASTEROID_MAXSIZE))]
    case RadiusMin =>
      ["", RadiusNote(CommentMarker), RadiusUse(CommentMarker), RadiusFormula(CommentMarker),
       Comment(LimitsNote(IntToString(DEFAULT_RADIUS_MIN), IntToString(DEFAULT_RADIUS_MAX),
                          IntToString(RADIUS_MIN), " and + ", IntToString(RADIUS_MAX)))]
    case RadiusMax => []
    case StrengthMin =>
      ["", StrengthNote(CommentMarker), StrengthFormula(CommentMarker),
       Comment(LimitsNote(fmt.show(DEFAULT_STRENGTH_MIN), fmt.show(DEFAULT_STRENGTH_MAX),
                          fmt.show(STRENGTH_MIN), " and ", fmt.show(STRENGTH_MAX)))]
    case StrengthMax => []
  }

  /** The lines GetSettingsString appends for the keys `ks`, in order. */
  function LinesFor(c: Config, ks: seq<Key>, comments: bool, fmt: RealFormat): seq<string>
  {
    if ks == [] then [] else Block(c, ks[0], comments, fmt) + LinesFor(c, ks[1..], comments, fmt)
  }

  /** The lines written for one key: its comments when asked for, then its data line. */
  function Block(c: Config, k: Key, comments: bool, fmt: RealFormat): (b: seq<string>)
    ensures |b| >= 1 && b[|b| - 1] == DataLine(c, k, fmt)
    ensures comments ==> b[..|b| - 1] == CommentsBefore(k, fmt)
    ensures !comments ==> |b| == 1
  {
    (if comments then CommentsBefore(k, fmt) else []) + [DataLine(c, k, fmt)]
  }

  /** StringBuilder.AppendLine on each line (a Windows line break after each). */
  function AppendLines(lines: seq<string>): string
  {
    if lines == [] then [] else lines[0] + "\r\n" + AppendLines(lines[1..])
  }

  /** The characters GetSettingsString trims from both ends of its result. */
  const LineEnds: set<char> := {' ', '\r', '\n'}

  /** GetSettingsString(comments), with a null prefix list printed as "null". */
  function SettingsText(c: Config, comments: bool, fmt: RealFormat): string
  {
    TrimSet(AppendLines(LinesFor(c, Order, comments, fmt)), LineEnds)
  }

  /** GetSettingsString(comments) as written: `None` where String.Join throws. */
  function SettingsTextAsWritten(c: Config, comments: bool, fmt: RealFormat): (r: Option<string>)
    ensures c.asteroidPrefix.Some? ==> r == Some(SettingsText(c, comments, fmt))
    ensures c.asteroidPrefix.None? ==> r.None?
  {
    match PrefixTextAsWritten(c.asteroidPrefix)
    case None => None
    case Some(_) => Some(SettingsText(c, comments, fmt))
  }

  /** The parser accepts "asteroid_prefix=null" and disables the list, and the settings
      text cannot then be produced: the exception reaches every sender of the text. */
  lemma NullPrefixNotPrintable(d: Config, comments: bool, fmt: RealFormat)
    ensures var r := ApplySetting(d, KeyName(AsteroidPrefix) + "=" + "null", '=', fmt);
            r.ok && r.config.asteroidPrefix.None?
            && SettingsTextAsWritten(r.config, comments, fmt).None?
  {
    NullPrefixLine(d, fmt);
  }

  lemma NullPrefixLine(d: Config, fmt: RealFormat)
    ensures ApplySetting(d, KeyName(AsteroidPrefix) + "=" + "null", '=', fmt)
            == Outcome(true, d.(asteroidPrefix := None))
  {
    NullPrefixSelects(d, fmt);
    TrimSetKeeps("null", WhiteSpace);
  }

  lemma NullPrefixSelects(d: Config, fmt: RealFormat)
    ensures ApplySetting(d, KeyName(AsteroidPrefix) + "=" + "null", '=', fmt)
            == Assign(d, AsteroidPrefix, Trim("null"), fmt)
  {
    ApplyKeyLine(d, AsteroidPrefix, "null", fmt);
  }

  /** A lower-case letter or an underscore: what setting names are made of. */
  predicate NameChar(ch: char)
  {
    'a' <= ch <= 'z' || ch == '_'
  }

  predicate NameText(s: string)
  {
    s != [] && forall i :: 0 <= i < |s| ==> NameChar(s[i])
  }

  lemma KeyNameClean(k: Key)
    ensures NameText(KeyName(k))
  {
    var n := KeyName(k);
    forall i | 0 <= i < |n| ensures NameChar(n[i]) {
      match k
      case AffectShips =>
      case MassLimit =>
      case MassDivide =>
      case Jetpack =>
      case JetpackHover =>
      case Notify =>
      case AsteroidPrefix =>
      case AsteroidMaxsize =>
      case RadiusMin =>
      case RadiusMax =>
      case StrengthMin =>
      case StrengthMax =>
    }
  }

  /** A line made of a setting's name, '=' and a value without '=' selects that
      setting and offers it the value trimmed. */
  lemma ApplyKeyLine(c: Config, k: Key, value: string, fmt: RealFormat)
    requires '=' !in value
    ensures ApplySetting(c, KeyName(k) + "=" + value, '=', fmt) == Assign(c, k, Trim(value), fmt)
  {
    var n := KeyName(k);
    KeyNameClean(k);
    NameTextPlain(n);
    SplitPair(n, value, '=');
    TrimSetKeeps(n, WhiteSpace);
    assert ParseKey(n) == Some(k);
  }

  /** A setting name holds no '=' and no white space at either end. */
  lemma NameTextPlain(n: string)
    requires NameText(n)
    ensures '=' !in n && Bare(n, WhiteSpace)
  {
    assert NameChar(n[0]) && NameChar(n[|n| - 1]);
    forall i | 0 <= i < |n| ensures n[i] != '=' {
      assert NameChar(n[i]);
    }
  }

  // ---------------------------------------------------------------- the config file

  /**
   * What LoadConfig hands to ParseSetting for one file line, trimmed of spaces and
   * line breaks: nothing for an empty line or a line starting with "//"; otherwise the
   * text before the first "//".
   */
  function ConfigLine(line: string): (r: Option<string>)
    ensures var t := TrimSet(line, LineEnds);
            (r.None? <==> t == [] || StartsWith(t, "//"))
            && (r.Some? ==> StartsWith(t, r.value) && forall j :: !OccursAt(r.value, "//", j))
  {
    var t := TrimSet(line, LineEnds);
    if t == [] || StartsWith(t, "//") then None
    else
      var ci := IndexOf(t, "//");
      if ci > 0 then
        assert forall j :: OccursAt(t[..ci], "//", j) ==> OccursAt(t, "//", j) && j < ci;
        Some(t[..ci])
      else Some(t)
  }

  /** The same filter as written: the trailing comment is cut at `Length - commentIndex`
      instead of at `commentIndex`. */
  function ConfigLineAsWritten(line: string): Option<string>
  {
    var t := TrimSet(line, LineEnds);
    if t == [] || StartsWith(t, "//") then None
    else
      var ci := IndexOf(t, "//");
      Some(if ci > 0 then t[..|t| - ci] else t)
  }

  /** The line "jetpack=5 //x": a setting followed by a trailing comment. */
  const CommentedLine: string := "jetpack=5 //x"

  lemma CommentedLineComment()
    ensures TrimSet(CommentedLine, LineEnds) == CommentedLine
    ensures IndexOf(CommentedLine, "//") == 10
    ensures CommentedLine != [] && !StartsWith(CommentedLine, "//")
  {
    var line := CommentedLine;
    TrimSetKeeps(line, LineEnds);
    assert OccursAt(line, "//", 10);
    var setting := line[..10];
    assert setting == "jetpack=5 ";
    assert '/' !in setting;
    forall j | 0 <= j < 10 ensures !OccursAt(line, "//", j) {
      assert line[j] == setting[j];
    }
  }

  /** The cut as written keeps "jet" of the commented line, a line that names no
      setting and so leaves every setting unchanged. */
  lemma TrailingCommentCutAsWritten(c: Config, fmt: RealFormat)
    ensures ConfigLineAsWritten(CommentedLine) == Some("jet")
    ensures ApplySetting(c, ConfigLineAsWritten(CommentedLine).value, '=', fmt) == Outcome(false, c)
  {
    CutAsWritten();
    JetPrefix();
    JetNamesNothing(c, fmt);
  }

  lemma CutAsWritten()
    ensures ConfigLineAsWritten(CommentedLine) == Some(CommentedLine[..3])
  {
    CommentedLineComment();
  }

  lemma JetPrefix()
    ensures CommentedLine[..3] == "jet"
  {
    forall i | 0 <= i < 3 ensures CommentedLine[i] == "jet"[i] {
    }
  }

  lemma JetNamesNothing(c: Config, fmt: RealFormat)
    ensures ApplySetting(c, "jet", '=', fmt) == Outcome(false, c)
  {
    SplitWithoutSeparator("jet", '=');
    TrimSetKeeps("jet", WhiteSpace);
    ShortNameNothing("jet");
  }

  /** Every setting name has at least six letters. */
  lemma ShortNameNothing(name: string)
    requires |name| < 6
    ensures ParseKey(name) == None
  {
    forall k: Key ensures KeyName(k) != name {
      assert |KeyName(k)| >= 6;
    }
  }

  /** The intended cut keeps "jetpack=5 ", which sets jetpack to 5. */
  lemma TrailingCommentCut(c: Config, fmt: RealFormat)
    ensures ConfigLine(CommentedLine) == Some(KeyName(Jetpack) + "=" + "5 ")
    ensures ApplySetting(c, ConfigLine(CommentedLine).value, '=', fmt) == Outcome(true, c.(jetpack := 5))
  {
    Cut();
    JetpackFive(c, fmt);
  }

  lemma Cut()
    ensures ConfigLine(CommentedLine) == Some(KeyName(Jetpack) + "=" + "5 ")
  {
    CutBeforeComment();
    JetpackLine();
  }

  lemma JetpackLine()
    ensures CommentedLine[..10] == KeyName(Jetpack) + "=" + "5 "
  {
    var s := KeyName(Jetpack) + "=" + "5 ";
    assert |s| == 10;
    forall i | 0 <= i < 10 ensures CommentedLine[i] == s[i] {
    }
  }

  lemma CutBeforeComment()
    ensures ConfigLine(CommentedLine) == Some(CommentedLine[..10])
  {
    CommentedLineComment();
  }

  lemma JetpackFive(c: Config, fmt: RealFormat)
    ensures ApplySetting(c, KeyName(Jetpack) + "=" + "5 ", '=', fmt) == Outcome(true, c.(jetpack := 5))
  {
    JetpackSelects(c, fmt);
    FiveWithSpace();
    AssignFive(c, fmt);
  }

  lemma JetpackSelects(c: Config, fmt: RealFormat)
    ensures ApplySetting(c, KeyName(Jetpack) + "=" + "5 ", '=', fmt) == Assign(c, Jetpack, Trim("5 "), fmt)
  {
    ApplyKeyLine(c, Jetpack, "5 ", fmt);
  }

  lemma AssignFive(c: Config, fmt: RealFormat)
    ensures Assign(c, Jetpack, "5", fmt) == Outcome(true, c.(jetpack := 5))
  {
    ParseFive();
  }

  lemma FiveWithSpace()
    ensures Trim("5 ") == "5"
  {
    assert [] + "5" + " " == "5 ";
    TrimSetPadding([], "5", " ", WhiteSpace);
  }

  lemma ParseFive()
    ensures ParseInt32("5") == Some(5)
  {
    IntToStringRoundTrip(5, INT32_MIN, INT32_MAX);
    assert IntToString(5) == [DigitChar(5)] == "5";
  }

  /** The texts `pick` selects from `lines`, in order. */
  function Picked(lines: seq<string>, pick: string -> Option<string>): seq<string>
  {
    if lines == [] then []
    else
      var rest := Picked(lines[..|lines| - 1], pick);
      match pick(lines[|lines| - 1])
      case None => rest
      case Some(t) => rest + [t]
  }

  /** The lines LoadConfig gives to ParseSetting, in file order. */
  function ConfigLines(lines: seq<string>): seq<string>
  {
    Picked(lines, ConfigLine)
  }

  /** Where the line at the front of `s` ends: at the first carriage return or line
      feed, or at the end of the text. */
  function LineEnd(s: string): (n: nat)
    ensures n <= |s| && OneLine(s[..n])
    ensures n < |s| ==> s[n] == '\r' || s[n] == '\n'
    decreases |s|
  {
    if s == [] || s[0] == '\r' || s[0] == '\n' then 0
    else
      var n := 1 + LineEnd(s[1..]);
      assert s[..n] == [s[0]] + s[1..][..n - 1];
      n
  }

  /** The file's lines as TextReader.ReadLine returns them until it returns null: a line
      ends at "\r\n", at a lone carriage return or at a line feed, and a break at the
      very end of the text starts no further line. */
  function ReadLines(text: string): (r: seq<string>)
    ensures forall i :: 0 <= i < |r| ==> OneLine(r[i])
    decreases |text|
  {
    if text == [] then []
    else
      var n := LineEnd(text);
      if n == |text| then
        assert text[..n] == text;
        [text]
      else
        var skip := if text[n] == '\r' && n + 1 < |text| && text[n + 1] == '\n' then 2 else 1;
        [text[..n]] + ReadLines(text[n + skip..])
  }

  lemma {:induction false} LineEndOf(a: string, b: string)
    requires OneLine(a)
    requires b == [] || b[0] == '\r' || b[0] == '\n'
    ensures LineEnd(a + b) == |a|
    decreases |a|
  {
    if a != [] {
      assert (a + b)[1..] == a[1..] + b;
      LineEndOf(a[1..], b);
    }
  }

  /** Reading lines joined by Windows line breaks gives the lines back, when none holds
      a line break and the last is not empty. */
  lemma {:induction false} ReadJoinedLines(ls: seq<string>)
    requires |ls| >= 1 && ls[|ls| - 1] != []
    requires forall i :: 0 <= i < |ls| ==> OneLine(ls[i])
    ensures ReadLines(Join(CarriageReturns(ls), "\n")) == ls
    decreases |ls|
  {
    if |ls| == 1 {
      ReadJoinedOne(ls);
    } else {
      var tail := ls[1..];
      ReadJoinedStep(ls);
      ReadJoinedLines(tail);
      Rejoin(ReadLines(Join(CarriageReturns(ls), "\n")), ls[0], tail, ls);
    }
  }

  /** A list that starts with the first line and goes on with the rest is the list. */
  lemma Rejoin(r: seq<string>, head: string, tail: seq<string>, ls: seq<string>)
    requires |ls| >= 1 && head == ls[0] && tail == ls[1..] && r == [head] + tail
    ensures r == ls
  {
    assert ls == [ls[0]] + ls[1..];
  }

  /** A single line, joined, is the line itself and is read whole. */
  lemma ReadJoinedOne(ls: seq<string>)
    requires |ls| == 1 && ls[0] != [] && OneLine(ls[0])
    ensures ReadLines(Join(CarriageReturns(ls), "\n")) == ls
  {
    assert CarriageReturns(ls) == ls;
    ReadLastLine(ls[0]);
  }

  /** Reading the joined lines yields the first line, then what reading the rest yields. */
  lemma ReadJoinedStep(ls: seq<string>)
    requires |ls| >= 2 && OneLine(ls[0])
    ensures ReadLines(Join(CarriageReturns(ls), "\n")) == [ls[0]] + ReadLines(Join(CarriageReturns(ls[1..]), "\n"))
  {
    var rest := Join(CarriageReturns(ls[1..]), "\n");
    JoinCarriageStep(ls);
    ReadLineThenRest(ls[0], rest);
  }

  /** A last line with no break after it is read whole. */
  lemma ReadLastLine(a: string)
    requires a != [] && OneLine(a)
    ensures ReadLines(a) == [a]
  {
    LineEndOf(a, []);
    assert a + [] == a;
  }

  /** The first carriage-returned line, then a line feed, then the rest joined. */
  lemma JoinCarriageStep(ls: seq<string>)
    requires |ls| >= 2
    ensures Join(CarriageReturns(ls), "\n") == ls[0] + ("\r\n" + Join(CarriageReturns(ls[1..]), "\n"))
  {
    var a, tail := ls[0], CarriageReturns(ls[1..]);
    CarriageReturnsCons(ls);
    JoinCons([a + "\r"] + tail, "\n");
    assert ([a + "\r"] + tail)[1..] == tail;
    CrLfSplit(a, Join(tail, "\n"));
  }

  /** A carriage return ending a piece, then a line feed, is one Windows line break. */
  lemma CrLfSplit(a: string, r: string)
    ensures a + "\r" + "\n" + r == a + ("\r\n" + r)
  {
    assert "\r" + "\n" == "\r\n";
  }

  lemma CarriageReturnsCons(ls: seq<string>)
    requires |ls| >= 2
    ensures CarriageReturns(ls) == [ls[0] + "\r"] + CarriageReturns(ls[1..])
  {
  }


  /** A line ended by a Windows line break is read whole, and reading goes on after the break. */
  lemma ReadLineThenRest(a: string, rest: string)
    requires OneLine(a)
    ensures ReadLines(a + ("\r\n" + rest)) == [a] + ReadLines(rest)
  {
    var text := a + ("\r\n" + rest);
    LineEndOf(a, "\r\n" + rest);
    assert text[..|a|] == a;
    assert text[|a| + 2..] == rest;
  }

  // ---------------------------------------------------------------- round trips

  /** A value text that survives a `key=value` line: non-empty, no white space at its
      ends, and no '=' or line feed. */
  predicate Clean(v: string)
  {
    v != [] && Bare(v, WhiteSpace) && '=' !in v && '\n' !in v
  }

  /** Prefix lists the text form carries: at least one prefix, not the single word
      "null", and every prefix non-empty, trimmed and free of ',', '=' and line feeds. */
  predicate PrefixesPlain(ps: seq<string>)
  {
    |ps| >= 1 && ps != ["null"]
    && forall i :: 0 <= i < |ps| ==> Clean(ps[i]) && ',' !in ps[i]
  }

  /** Settings every value of which prints to text that parses back to it: integers in
      the 32-bit range, bounds in their clamp ranges, strengths whose printed form is
      exact, and a prefix list the text form carries. */
  predicate Serializable(c: Config, fmt: RealFormat)
  {
    INT32_MIN <= c.massLimit <= INT32_MAX && INT32_MIN <= c.massDivide <= INT32_MAX
    && INT32_MIN <= c.jetpack <= INT32_MAX && INT32_MIN <= c.asteroidMaxsize <= INT32_MAX
    && BoundsValid(c) && Exact(fmt, c.strengthMin) && Exact(fmt, c.strengthMax)
    && (c.asteroidPrefix.Some? ==> PrefixesPlain(c.asteroidPrefix.value))
  }

  lemma PlainClean(v: string)
    requires Plain(v)
    ensures Clean(v)
  {
    assert v[0] !in WhiteSpace && v[|v| - 1] !in WhiteSpace;
  }

  lemma BoolTextClean(b: bool)
    ensures Clean(BoolToString(b))
  {
    var v := BoolToString(b);
    assert v[0] !in WhiteSpace && v[|v| - 1] !in WhiteSpace;
  }

  /** Trimming a space in front of a text trims as the text alone does. */
  lemma TrimAfterSpace(x: string)
    ensures Trim(" " + x) == Trim(x)
  {
    assert (" " + x)[1..] == x;
  }

  /** Splitting the ", "-joined prefixes at commas and trimming the pieces gives the
      prefixes back. */
  lemma {:induction false} PrefixListRoundTrip(ps: seq<string>)
    requires |ps| >= 1
    requires forall i :: 0 <= i < |ps| ==> Bare(ps[i], WhiteSpace) && ',' !in ps[i]
    ensures TrimAll(Split(Join(ps, ", "), ',')) == ps
    decreases |ps|
  {
    if |ps| == 1 {
      SplitWithoutSeparator(ps[0], ',');
      TrimSetKeeps(ps[0], WhiteSpace);
    } else {
      PrefixListRoundTrip(ps[1..]);
      PrefixListCons(ps);
    }
  }

  /** The round trip of a list of two or more prefixes, given that of its tail. */
  lemma PrefixListCons(ps: seq<string>)
    requires |ps| >= 2 && Bare(ps[0], WhiteSpace) && ',' !in ps[0]
    requires TrimAll(Split(Join(ps[1..], ", "), ',')) == ps[1..]
    ensures TrimAll(Split(Join(ps, ", "), ',')) == ps
  {
    var j := Join(ps[1..], ", ");
    assert Join(ps, ", ") == ps[0] + ", " + j by {
      JoinCons(ps, ", ");
    }
    assert TrimAll(Split(ps[0] + ", " + j, ',')) == ps by {
      PrefixConsRoundTrip(ps[0], j, ps[1..]);
      assert [ps[0]] + ps[1..] == ps;
    }
  }

  lemma JoinCons(parts: seq<string>, sep: string)
    requires |parts| >= 2
    ensures Join(parts, sep) == parts[0] + sep + Join(parts[1..], sep)
  {
  }

  /** Putting a bare, comma-free prefix in front of a list's text puts it in front of
      the list read back. */
  lemma PrefixConsRoundTrip(p: string, j: string, tail: seq<string>)
    requires Bare(p, WhiteSpace) && ',' !in p
    requires TrimAll(Split(j, ',')) == tail
    ensures TrimAll(Split(p + ", " + j, ',')) == [p] + tail
  {
    SplitAfterComma(p, j);
    PrefixListStep(p, Split(j, ','));
  }

  /** Trimming the pieces "p", " " + first, more... gives p, then the trimmed pieces
      of first, more... */
  lemma PrefixListStep(p: string, rest: seq<string>)
    requires Bare(p, WhiteSpace) && |rest| >= 1
    ensures TrimAll([p, " " + rest[0]] + rest[1..]) == [p] + TrimAll(rest)
  {
    assert [p, " " + rest[0]] + rest[1..] == [p] + ([" " + rest[0]] + rest[1..]);
    assert [rest[0]] + rest[1..] == rest;
    TrimAllCons(p, [" " + rest[0]] + rest[1..]);
    TrimAllCons(" " + rest[0], rest[1..]);
    TrimAllCons(rest[0], rest[1..]);
    TrimAfterSpace(rest[0]);
    TrimSetKeeps(p, WhiteSpace);
  }

  lemma TrimAllCons(x: string, xs: seq<string>)
    ensures TrimAll([x] + xs) == [Trim(x)] + TrimAll(xs)
  {
  }

  /** Splitting "p, rest" at commas gives p, then the pieces of rest with a space in
      front of the first. */
  lemma SplitAfterComma(p: string, j: string)
    requires ',' !in p
    ensures var rest := Split(j, ',');
            Split(p + ", " + j, ',') == [p, " " + rest[0]] + rest[1..]
  {
    assert p + ", " + j == p + [','] + (" " + j);
    SplitAtFirstSeparator(p, ',', " " + j);
    assert (" " + j)[1..] == j;
  }

  /** The ", "-join of trimmed, non-empty prefixes is clean and is not "null" unless
      the list is ["null"]. */
  lemma PrefixJoinClean(ps: seq<string>)
    requires PrefixesPlain(ps)
    ensures Clean(Join(ps, ", ")) && Join(ps, ", ") != "null"
  {
    var j := Join(ps, ", ");
    JoinStart(ps, ", ");
    JoinEnd(ps, ", ");
    JoinAvoids(ps, ", ", '=');
    JoinAvoids(ps, ", ", '\n');
    if |ps| == 1 {
      assert j == ps[0];
    } else {
      CommaAfterFirst(ps);
    }
  }

  /** In the ", "-join of two or more pieces a comma follows the first piece. */
  lemma CommaAfterFirst(ps: seq<string>)
    requires |ps| >= 2
    ensures |Join(ps, ", ")| > |ps[0]| && Join(ps, ", ")[|ps[0]|] == ','
  {
    var rest := Join(ps[1..], ", ");
    assert Join(ps, ", ") == ps[0] + ", " + rest;
    assert (ps[0] + ", " + rest)[|ps[0]|] == ", "[0];
  }

  /** The printed prefix list is a clean value that parses back to the same list. */
  lemma PrefixRoundTrip(p: Option<seq<string>>)
    requires p.Some? ==> PrefixesPlain(p.value)
    ensures Clean(PrefixText(p))
    ensures PrefixValue(PrefixText(p)) == p
  {
    if p.None? {
      assert "null"[0] !in WhiteSpace && "null"[3] !in WhiteSpace;
    } else {
      PrefixJoinClean(p.value);
      PrefixListRoundTrip(p.value);
    }
  }

  /** Every printed value of serializable settings is clean. */
  lemma ValueClean(c: Config, k: Key, fmt: RealFormat)
    requires Serializable(c, fmt)
    ensures Clean(ValueText(c, k, fmt))
  {
    match k
    case AffectShips => BoolTextClean(c.affectShips);
    case MassLimit => IntToStringPlain(c.massLimit); PlainClean(IntToString(c.massLimit));
    case MassDivide => IntToStringPlain(c.massDivide); PlainClean(IntToString(c.massDivide));
    case Jetpack => IntToStringPlain(c.jetpack); PlainClean(IntToString(c.jetpack));
    case JetpackHover => BoolTextClean(c.jetpackHover);
    case Notify => BoolTextClean(c.notify);
    case AsteroidPrefix => PrefixRoundTrip(c.asteroidPrefix);
    case AsteroidMaxsize => IntToStringPlain(c.asteroidMaxsize); PlainClean(IntToString(c.asteroidMaxsize));
    case RadiusMin => IntToStringPlain(c.radiusMin); PlainClean(IntToString(c.radiusMin));
    case RadiusMax => IntToStringPlain(c.radiusMax); PlainClean(IntToString(c.radiusMax));
    case StrengthMin => PlainClean(fmt.show(c.strengthMin));
    case StrengthMax => PlainClean(fmt.show(c.strengthMax));
  }

  /** The setter of `k`, given the printed value of `k` in `c`, copies that value. */
  lemma AssignPrinted(e: Config, c: Config, k: Key, fmt: RealFormat)
    requires Serializable(c, fmt)
    ensures Assign(e, k, ValueText(c, k, fmt), fmt) == Outcome(true, Copy(e, c, k))
  {
    match k
    case AffectShips => BoolPrinted(e.affectShips, c.affectShips);
    case MassLimit => IntPrinted(e.massLimit, c.massLimit);
    case MassDivide => IntPrinted(e.massDivide, c.massDivide);
    case Jetpack => IntPrinted(e.jetpack, c.jetpack);
    case JetpackHover => BoolPrinted(e.jetpackHover, c.jetpackHover);
    case Notify => BoolPrinted(e.notify, c.notify);
    case AsteroidPrefix => PrefixRoundTrip(c.asteroidPrefix);
    case AsteroidMaxsize => IntPrinted(e.asteroidMaxsize, c.asteroidMaxsize);
    case RadiusMin => IntPrinted(e.radiusMin, c.radiusMin);
    case RadiusMax => IntPrinted(e.radiusMax, c.radiusMax);
    case StrengthMin => RealPrinted(e.strengthMin, c.strengthMin, fmt);
    case StrengthMax => RealPrinted(e.strengthMax, c.strengthMax, fmt);
  }

  lemma IntPrinted(current: int, n: int)
    requires INT32_MIN <= n <= INT32_MAX
    ensures SetValue(current, IntToString(n), ParseInt32) == Stored(true, n)
  {
    IntToStringRoundTrip(n, INT32_MIN, INT32_MAX);
    IntToStringPlain(n);
  }

  lemma BoolPrinted(current: bool, b: bool)
    ensures SetValue(current, BoolToString(b), TryParseBool) == Stored(true, b)
  {
    BoolToStringRoundTrip(b);
  }

  lemma RealPrinted(current: real, r: real, fmt: RealFormat)
    requires Exact(fmt, r)
    ensures SetValue(current, fmt.show(r), fmt.parse) == Stored(true, r)
  {
  }

  /** The `key=value` line of serializable settings is a clean line and, parsed into any
      settings, copies exactly that key's value. */
  lemma DataLineRoundTrip(e: Config, c: Config, k: Key, fmt: RealFormat)
    requires Serializable(c, fmt)
    ensures ApplySetting(e, DataLine(c, k, fmt), '=', fmt) == Outcome(true, Copy(e, c, k))
  {
    var v := ValueText(c, k, fmt);
    ValueClean(c, k, fmt);
    ApplyKeyLine(e, k, v, fmt);
    TrimSetKeeps(v, WhiteSpace);
    AssignPrinted(e, c, k, fmt);
  }

  /** The data line of a key: it starts with a setting name, ends with a clean value,
      and holds no line feed and no slash when the value holds none. */
  lemma DataLineShape(c: Config, k: Key, fmt: RealFormat)
    requires Serializable(c, fmt)
    ensures var l := DataLine(c, k, fmt);
            l != [] && Bare(l, WhiteSpace) && '\n' !in l && NameChar(l[0])
  {
    var n := KeyName(k);
    var v := ValueText(c, k, fmt);
    var l := DataLine(c, k, fmt);
    KeyNameClean(k);
    NameTextPlain(n);
    ValueClean(c, k, fmt);
    assert l[0] == n[0] && l[|l| - 1] == v[|v| - 1];
    assert NameChar(n[0]);
    assert '\n' !in n by {
      forall i | 0 <= i < |n| ensures n[i] != '\n' {
        assert NameChar(n[i]);
      }
    }
  }

  /** The data lines of the keys `ks`, in order. */
  function DataLines(c: Config, ks: seq<Key>, fmt: RealFormat): (r: seq<string>)
    ensures |r| == |ks|
    ensures forall i :: 0 <= i < |ks| ==> r[i] == DataLine(c, ks[i], fmt)
  {
    seq(|ks|, i requires 0 <= i < |ks| => DataLine(c, ks[i], fmt))
  }

  /** Without comments, GetSettingsString appends only the data lines. */
  lemma {:induction false} LinesForData(c: Config, ks: seq<Key>, fmt: RealFormat)
    ensures LinesFor(c, ks, false, fmt) == DataLines(c, ks, fmt)
    decreases |ks|
  {
    if ks != [] {
      LinesForData(c, ks[1..], fmt);
      assert DataLines(c, ks, fmt) == [DataLine(c, ks[0], fmt)] + DataLines(c, ks[1..], fmt);
    }
  }

  /** `e` with the values of the keys `ks` taken from `c`, one key after another. */
  function CopyAll(e: Config, c: Config, ks: seq<Key>): Config
  {
    if ks == [] then e else Copy(CopyAll(e, c, ks[..|ks| - 1]), c, ks[|ks| - 1])
  }

  lemma CopyAgrees(e: Config, c: Config, k: Key)
    ensures Agree(Copy(e, c, k), c, k) && SameExcept(e, Copy(e, c, k), k)
  {
  }

  lemma {:induction false} CopyAllAgrees(e: Config, c: Config, ks: seq<Key>)
    ensures forall k :: k in ks ==> Agree(CopyAll(e, c, ks), c, k)
    decreases |ks|
  {
    if ks != [] {
      var init := ks[..|ks| - 1];
      CopyAllAgrees(e, c, init);
      CopyAgrees(CopyAll(e, c, init), c, ks[|ks| - 1]);
      assert ks == init + [ks[|ks| - 1]];
    }
  }

  /** Settings agreeing on every key are the same settings. */
  lemma AgreeEverywhere(x: Config, c: Config)
    requires forall k :: Agree(x, c, k)
    ensures x == c
  {
    assert Agree(x, c, AffectShips) && Agree(x, c, MassLimit) && Agree(x, c, MassDivide);
    assert Agree(x, c, Jetpack) && Agree(x, c, JetpackHover) && Agree(x, c, Notify);
    assert Agree(x, c, AsteroidPrefix) && Agree(x, c, AsteroidMaxsize) && Agree(x, c, RadiusMin);
    assert Agree(x, c, RadiusMax) && Agree(x, c, StrengthMin) && Agree(x, c, StrengthMax);
  }

  /** Copying every key in Order yields the source settings. */
  lemma CopyOrder(e: Config, c: Config)
    ensures CopyAll(e, c, Order) == c
  {
    CopyAllAgrees(e, c, Order);
    forall k ensures Agree(CopyAll(e, c, Order), c, k) {
      assert k in Order by {
        match k
        case AffectShips => assert Order[0] == k;
        case MassLimit => assert Order[1] == k;
        case MassDivide => assert Order[2] == k;
        case Jetpack => assert Order[3] == k;
        case JetpackHover => assert Order[4] == k;
        case Notify => assert Order[5] == k;
        case AsteroidPrefix => assert Order[6] == k;
        case AsteroidMaxsize => assert Order[7] == k;
        case RadiusMin => assert Order[8] == k;
        case RadiusMax => assert Order[9] == k;
        case StrengthMin => assert Order[10] == k;
        case StrengthMax => assert Order[11] == k;
      }
    }
    AgreeEverywhere(CopyAll(e, c, Order), c);
  }

  /** Parsing the data lines of `ks` in order copies those keys' values. */
  lemma {:induction false} ApplyDataLines(e: Config, c: Config, ks: seq<Key>, fmt: RealFormat)
    requires Serializable(c, fmt)
    ensures ApplyAll(e, DataLines(c, ks, fmt), fmt) == CopyAll(e, c, ks)
    decreases |ks|
  {
    if ks != [] {
      var init := ks[..|ks| - 1];
      var ls := DataLines(c, ks, fmt);
      assert ls[..|ls| - 1] == DataLines(c, init, fmt);
      ApplyDataLines(e, c, init, fmt);
      DataLineRoundTrip(CopyAll(e, c, init), c, ks[|ks| - 1], fmt);
    }
  }

  /** The lines as they stand in AppendLine's text between line feeds: a carriage
      return after every line but the last. */
  function CarriageReturns(ls: seq<string>): (r: seq<string>)
    ensures |r| == |ls|
    ensures forall i :: 0 <= i < |ls| - 1 ==> r[i] == ls[i] + "\r"
    ensures |ls| >= 1 ==> r[|ls| - 1] == ls[|ls| - 1]
  {
    if |ls| <= 1 then ls else [ls[0] + "\r"] + CarriageReturns(ls[1..])
  }

  /** AppendLine's text is the carriage-returned lines joined by line feeds, and a final
      line break. */
  lemma {:induction false} AppendLinesJoin(ls: seq<string>)
    requires |ls| >= 1
    ensures AppendLines(ls) == Join(CarriageReturns(ls), "\n") + "\r\n"
    decreases |ls|
  {
    if |ls| == 1 {
      assert AppendLines(ls) == ls[0] + "\r\n" + [];
    } else {
      var cr := CarriageReturns(ls);
      assert cr[1..] == CarriageReturns(ls[1..]);
      var tail := Join(cr[1..], "\n");
      assert Join(cr, "\n") == ls[0] + "\r" + "\n" + tail;
      AppendLinesJoin(ls[1..]);
      assert AppendLines(ls) == ls[0] + "\r\n" + (tail + "\r\n");
      LineBreakRegroup(ls[0], tail);
    }
  }

  /** The carriage return ending one line and the line feed starting the next make the
      same text as AppendLine's line break. */
  lemma LineBreakRegroup(line: string, tail: string)
    ensures line + "\r" + "\n" + tail + "\r\n" == line + "\r\n" + (tail + "\r\n")
  {
  }

  /** A line list whose lines are non-empty, hold no line feed and have no white space
      at their ends. */
  predicate TextLines(ls: seq<string>)
  {
    |ls| >= 1
    && forall i :: 0 <= i < |ls| ==> ls[i] != [] && Bare(ls[i], WhiteSpace) && '\n' !in ls[i]
  }

  /** The first line starts, and the last line ends, with a character the final trim
      keeps. */
  predicate Framed(ls: seq<string>)
  {
    |ls| >= 1 && ls[0] != [] && ls[0][0] !in LineEnds
    && var last := ls[|ls| - 1]; last != [] && last[|last| - 1] !in LineEnds
  }

  predicate NoBreaks(ls: seq<string>)
  {
    forall i :: 0 <= i < |ls| ==> '\n' !in ls[i]
  }

  /** The final trim of GetSettingsString removes exactly the last line break. */
  lemma TrimLastBreak(ls: seq<string>)
    requires Framed(ls)
    ensures TrimSet(AppendLines(ls), LineEnds) == Join(CarriageReturns(ls), "\n")
  {
    var cr := CarriageReturns(ls);
    var j := Join(cr, "\n");
    AppendLinesJoin(ls);
    assert j + "\r\n" == [] + j + "\r\n";
    JoinStart(cr, "\n");
    JoinEnd(cr, "\n");
    assert cr[0][0] == ls[0][0];
    TrimSetPadding([], j, "\r\n", LineEnds);
  }

  /** Splitting the joined lines at line feeds gives the lines with their carriage
      returns. */
  lemma SplitLines(ls: seq<string>)
    requires |ls| >= 1 && NoBreaks(ls)
    ensures Split(Join(CarriageReturns(ls), "\n"), '\n') == CarriageReturns(ls)
  {
    var cr := CarriageReturns(ls);
    CarriageReturnsNoBreaks(ls);
    SplitJoin(cr, '\n');
  }

  lemma CarriageReturnsNoBreaks(ls: seq<string>)
    requires NoBreaks(ls)
    ensures NoBreaks(CarriageReturns(ls))
  {
    var cr := CarriageReturns(ls);
    forall i | 0 <= i < |cr| ensures '\n' !in cr[i] {
      if i < |ls| - 1 {
        assert cr[i] == ls[i] + "\r";
      }
    }
  }

  /** Splitting the joined lines at line feeds and trimming each piece gives the lines. */
  lemma SplitTrimLines(ls: seq<string>)
    requires TextLines(ls)
    ensures TrimAll(Split(Join(CarriageReturns(ls), "\n"), '\n')) == ls
  {
    assert NoBreaks(ls);
    SplitLines(ls);
    TrimCarriageReturns(ls);
  }

  lemma {:induction false} TrimCarriageReturns(ls: seq<string>)
    requires forall i :: 0 <= i < |ls| ==> Bare(ls[i], WhiteSpace)
    ensures TrimAll(CarriageReturns(ls)) == ls
    decreases |ls|
  {
    if |ls| == 1 {
      TrimSetKeeps(ls[0], WhiteSpace);
    } else if |ls| > 1 {
      assert CarriageReturns(ls) == [ls[0] + "\r"] + CarriageReturns(ls[1..]);
      assert ls == [ls[0]] + ls[1..];
      TrimAllCons(ls[0] + "\r", CarriageReturns(ls[1..]));
      TrimCarriageReturns(ls[1..]);
      TrimCarriageReturn(ls[0]);
    }
  }

  /** A trimmed line with a carriage return after it trims to itself. */
  lemma TrimCarriageReturn(l: string)
    requires Bare(l, WhiteSpace)
    ensures Trim(l + "\r") == l
  {
    TrimSetKeeps(l, WhiteSpace);
    TrimSetTrailing(l, '\r', WhiteSpace);
  }

  /** The data lines of serializable settings are text lines. */
  lemma DataTextLines(c: Config, ks: seq<Key>, fmt: RealFormat)
    requires Serializable(c, fmt) && |ks| >= 1
    ensures TextLines(DataLines(c, ks, fmt))
  {
    forall i | 0 <= i < |ks| ensures var l := DataLine(c, ks[i], fmt);
                                     l != [] && Bare(l, WhiteSpace) && '\n' !in l {
      DataLineShape(c, ks[i], fmt);
    }
  }

  /**
   * The settings a server sends are the settings a client ends with: parsing every
   * trimmed line of GetSettingsString(false), as ReceivedSettings does, turns any
   * settings into the printed ones, when their values print exactly.
   */
  lemma WireRoundTrip(d: Config, c: Config, fmt: RealFormat)
    requires Serializable(c, fmt)
    ensures ApplyAll(d, TrimAll(Split(SettingsText(c, false, fmt), '\n')), fmt) == c
  {
    var ls := DataLines(c, Order, fmt);
    PlainTextJoined(c, fmt);
    DataTextLines(c, Order, fmt);
    SplitTrimLines(ls);
    ApplyDataLines(d, c, Order, fmt);
    CopyOrder(d, c);
  }

  /** GetSettingsString(false) of serializable settings is their data lines joined by
      Windows line breaks. */
  lemma PlainTextJoined(c: Config, fmt: RealFormat)
    requires Serializable(c, fmt)
    ensures SettingsText(c, false, fmt) == Join(CarriageReturns(DataLines(c, Order, fmt)), "\n")
  {
    var ls := DataLines(c, Order, fmt);
    LinesForData(c, Order, fmt);
    DataTextLines(c, Order, fmt);
    assert Framed(ls) by {
      var last := ls[|ls| - 1];
      assert ls[0][0] !in WhiteSpace && last[|last| - 1] !in WhiteSpace;
    }
    TrimLastBreak(ls);
  }

  // ---------------------------------------------------------------- the packet encoding

  /** Settings whose printed prefixes and strengths are ASCII text, so that the packet's
      Encoding.ASCII leaves their text as it is. */
  predicate AsciiSafe(c: Config, fmt: RealFormat)
  {
    IsAscii(fmt.show(c.strengthMin)) && IsAscii(fmt.show(c.strengthMax))
    && (c.asteroidPrefix.Some? ==>
          forall i :: 0 <= i < |c.asteroidPrefix.value| ==> IsAscii(c.asteroidPrefix.value[i]))
  }

  lemma ValueAscii(c: Config, k: Key, fmt: RealFormat)
    requires AsciiSafe(c, fmt)
    ensures IsAscii(ValueText(c, k, fmt))
  {
    match k
    case AffectShips =>
    case MassLimit => IntToStringAscii(c.massLimit);
    case MassDivide => IntToStringAscii(c.massDivide);
    case Jetpack => IntToStringAscii(c.jetpack);
    case JetpackHover =>
    case Notify =>
    case AsteroidPrefix =>
      if c.asteroidPrefix.Some? {
        JoinAscii(c.asteroidPrefix.value, ", ");
      }
    case AsteroidMaxsize => IntToStringAscii(c.asteroidMaxsize);
    case RadiusMin => IntToStringAscii(c.radiusMin);
    case RadiusMax => IntToStringAscii(c.radiusMax);
    case StrengthMin =>
    case StrengthMax =>
  }

  lemma DataLineAscii(c: Config, k: Key, fmt: RealFormat)
    requires AsciiSafe(c, fmt)
    ensures IsAscii(DataLine(c, k, fmt))
  {
    var n := KeyName(k);
    KeyNameClean(k);
    assert IsAscii(n) by {
      forall i | 0 <= i < |n| ensures n[i] as int < 128 {
        assert NameChar(n[i]);
      }
    }
    ValueAscii(c, k, fmt);
  }

  /** The plain settings text of ASCII-safe settings is ASCII text. */
  lemma SettingsTextAscii(c: Config, fmt: RealFormat)
    requires Serializable(c, fmt) && AsciiSafe(c, fmt)
    ensures IsAscii(SettingsText(c, false, fmt))
  {
    var ls := DataLines(c, Order, fmt);
    var cr := CarriageReturns(ls);
    PlainTextJoined(c, fmt);
    forall i | 0 <= i < |cr| ensures IsAscii(cr[i]) {
      DataLineAscii(c, Order[i], fmt);
    }
    JoinAscii(cr, "\n");
  }

  /** No prefix holds a slash or a line break, so every data line is one line of the
      file and holds no comment marker. */
  predicate FileSafe(c: Config)
  {
    c.asteroidPrefix.Some? ==>
      forall i :: 0 <= i < |c.asteroidPrefix.value| ==>
        '/' !in c.asteroidPrefix.value[i] && OneLine(c.asteroidPrefix.value[i])
  }

  /** The printer writes the strength constants the comments quote without line breaks. */
  predicate CommentsOnOneLine(fmt: RealFormat)
  {
    OneLine(fmt.show(DEFAULT_STRENGTH_MIN)) && OneLine(fmt.show(DEFAULT_STRENGTH_MAX))
    && OneLine(fmt.show(STRENGTH_MIN)) && OneLine(fmt.show(STRENGTH_MAX))
  }

  /** An empty line or a line starting with the comment marker, without line breaks. */
  predicate CommentLine(l: string)
  {
    OneLine(l) && (l == [] || (|l| >= 2 && l[0] == '/' && l[1] == '/'))
  }

  lemma IntTextOneLine(n: int)
    ensures OneLine(IntToString(n)) && '/' !in IntToString(n)
  {
    IntToStringPlain(n);
  }

  /** Lines that are all comment lines. */
  predicate CommentLines(ls: seq<string>)
  {
    forall i :: 0 <= i < |ls| ==> CommentLine(ls[i])
  }

  lemma AffectShipsCommentsWellFormed(fmt: RealFormat)
    requires CommentsOnOneLine(fmt)
    ensures CommentLines(CommentsBefore(AffectShips, fmt))
  {
  }

  lemma MassLimitCommentsWellFormed(fmt: RealFormat)
    requires CommentsOnOneLine(fmt)
    ensures CommentLines(CommentsBefore(MassLimit, fmt))
  {
    IntTextOneLine(DEFAULT_MASS_LIMIT);
  }

  lemma MassDivideCommentsWellFormed(fmt: RealFormat)
    requires CommentsOnOneLine(fmt)
    ensures CommentLines(CommentsBefore(MassDivide, fmt))
  {
    IntTextOneLine(DEFAULT_MASS_DIVIDE);
  }

  lemma JetpackCommentsWellFormed(fmt: RealFormat)
    requires CommentsOnOneLine(fmt)
    ensures CommentLines(CommentsBefore(Jetpack, fmt))
  {
    IntTextOneLine(DEFAULT_JETPACK);
  }

  lemma JetpackHoverCommentsWellFormed(fmt: RealFormat)
    requires CommentsOnOneLine(fmt)
    ensures CommentLines(CommentsBefore(JetpackHover, fmt))
  {
  }

  lemma NotifyCommentsWellFormed(fmt: RealFormat)
    requires CommentsOnOneLine(fmt)
    ensures CommentLines(CommentsBefore(Notify, fmt))
  {
  }

  lemma AsteroidPrefixCommentsWellFormed(fmt: RealFormat)
    requires CommentsOnOneLine(fmt)
    ensures CommentLines(CommentsBefore(AsteroidPrefix, fmt))
  {
  }

  lemma AsteroidMaxsizeCommentsWellFormed(fmt: RealFormat)
    requires CommentsOnOneLine(fmt)
    ensures CommentLines(CommentsBefore(AsteroidMaxsize, fmt))
  {
    IntTextOneLine(DEFAULT_ASTEROID_MAXSIZE);
  }

  lemma RadiusMinCommentsWellFormed(fmt: RealFormat)
    requires CommentsOnOneLine(fmt)
    ensures CommentLines(CommentsBefore(RadiusMin, fmt))
  {
    IntTextOneLine(DEFAULT_RADIUS_MIN);
    IntTextOneLine(DEFAULT_RADIUS_MAX);
    IntTextOneLine(RADIUS_MIN);
    IntTextOneLine(RADIUS_MAX);
    LimitsLine(IntToString(DEFAULT_RADIUS_MIN), IntToString(DEFAULT_RADIUS_MAX),
               IntToString(RADIUS_MIN), " and + ", IntToString(RADIUS_MAX));
  }

  lemma StrengthMinCommentsWellFormed(fmt: RealFormat)
    requires CommentsOnOneLine(fmt)
    ensures CommentLines(CommentsBefore(StrengthMin, fmt))
  {
    LimitsLine(fmt.show(DEFAULT_STRENGTH_MIN), fmt.show(DEFAULT_STRENGTH_MAX),
               fmt.show(STRENGTH_MIN), " and ", fmt.show(STRENGTH_MAX));
  }

  /** The limits line is a comment line when its parts hold no line break. */
  lemma LimitsLine(lo: string, hi: string, least: string, between: string, most: string)
    requires OneLine(lo) && OneLine(hi) && OneLine(least) && OneLine(between) && OneLine(most)
    ensures CommentLine(Comment(LimitsNote(lo, hi, least, between, most)))
  {
    var l := Comment(LimitsNote(lo, hi, least, between, most));
    assert l[..2] == CommentMarker;
    assert l[0] == '/' && l[1] == '/';
  }

  /** Every comment GetSettingsString(true) writes is empty or starts with "//". */
  lemma CommentsWellFormed(k: Key, fmt: RealFormat)
    requires CommentsOnOneLine(fmt)
    ensures CommentLines(CommentsBefore(k, fmt))
  {
    match k
    case AffectShips => AffectShipsCommentsWellFormed(fmt);
    case MassLimit => MassLimitCommentsWellFormed(fmt);
    case MassDivide => MassDivideCommentsWellFormed(fmt);
    case Jetpack => JetpackCommentsWellFormed(fmt);
    case JetpackHover => JetpackHoverCommentsWellFormed(fmt);
    case Notify => NotifyCommentsWellFormed(fmt);
    case AsteroidPrefix => AsteroidPrefixCommentsWellFormed(fmt);
    case AsteroidMaxsize => AsteroidMaxsizeCommentsWellFormed(fmt);
    case RadiusMin => RadiusMinCommentsWellFormed(fmt);
    case RadiusMax =>
    case StrengthMin => StrengthMinCommentsWellFormed(fmt);
    case StrengthMax =>
  }

  /** LoadConfig skips comment lines. */
  lemma CommentSkipped(l: string)
    requires CommentLine(l)
    ensures ConfigLine(l) == None
  {
    if l != [] {
      var t := TrimSet(l, LineEnds);
      assert TrimStart(l, LineEnds) == l;
      assert l[1] !in LineEnds;
      assert t[..2] == l[..2];
    }
  }

  /** No value text of file-safe settings holds a slash or a carriage return. */
  lemma ValueFileSafe(c: Config, k: Key, fmt: RealFormat)
    requires Serializable(c, fmt) && FileSafe(c)
    ensures '/' !in ValueText(c, k, fmt) && '\r' !in ValueText(c, k, fmt)
  {
    match k
    case AffectShips =>
    case MassLimit => IntTextOneLine(c.massLimit);
    case MassDivide => IntTextOneLine(c.massDivide);
    case Jetpack => IntTextOneLine(c.jetpack);
    case JetpackHover =>
    case Notify =>
    case AsteroidPrefix =>
      if c.asteroidPrefix.Some? {
        JoinAvoids(c.asteroidPrefix.value, ", ", '/');
        JoinAvoids(c.asteroidPrefix.value, ", ", '\r');
      }
    case AsteroidMaxsize => IntTextOneLine(c.asteroidMaxsize);
    case RadiusMin => IntTextOneLine(c.radiusMin);
    case RadiusMax => IntTextOneLine(c.radiusMax);
    case StrengthMin =>
    case StrengthMax =>
  }

  /** LoadConfig hands a data line of file-safe settings to the parser unchanged. */
  lemma DataLineKept(c: Config, k: Key, fmt: RealFormat)
    requires Serializable(c, fmt) && FileSafe(c)
    ensures ConfigLine(DataLine(c, k, fmt)) == Some(DataLine(c, k, fmt))
  {
    var l := DataLine(c, k, fmt);
    DataLineShape(c, k, fmt);
    DataLineFileSafe(c, k, fmt);
    assert l[0] !in WhiteSpace && l[|l| - 1] !in WhiteSpace;
    TrimSetKeeps(l, LineEnds);
    assert l[0] != '/';
  }

  /** A data line of file-safe settings is one line of the file and holds no slash. */
  lemma DataLineFileSafe(c: Config, k: Key, fmt: RealFormat)
    requires Serializable(c, fmt) && FileSafe(c)
    ensures var l := DataLine(c, k, fmt); OneLine(l) && '/' !in l
  {
    var n := KeyName(k);
    DataLineShape(c, k, fmt);
    ValueFileSafe(c, k, fmt);
    KeyNameClean(k);
    assert '/' !in n && '\r' !in n by {
      forall i | 0 <= i < |n| ensures n[i] != '/' && n[i] != '\r' {
        assert NameChar(n[i]);
      }
    }
  }

  /** The filter as written and the intended one agree on a comment line and on a line
      without a slash: they differ only where a comment follows text. */
  lemma FilterAgrees(l: string)
    requires CommentLine(l) || '/' !in l
    ensures ConfigLineAsWritten(l) == ConfigLine(l)
  {
    if CommentLine(l) {
      CommentSkipped(l);
    } else {
      var t := TrimSet(l, LineEnds);
      TrimStartAvoids(l, LineEnds, '/');
      assert '/' !in t;
    }
  }

  /** Two filters that agree on every line pick the same texts. */
  lemma {:induction false} PickedAgree(ls: seq<string>, p: string -> Option<string>, q: string -> Option<string>)
    requires forall i :: 0 <= i < |ls| ==> p(ls[i]) == q(ls[i])
    ensures Picked(ls, p) == Picked(ls, q)
    decreases |ls|
  {
    if ls != [] {
      PickedAgree(ls[..|ls| - 1], p, q);
    }
  }

  lemma {:induction false} PickedAppend(a: seq<string>, b: seq<string>, pick: string -> Option<string>)
    ensures Picked(a + b, pick) == Picked(a, pick) + Picked(b, pick)
    decreases |b|
  {
    if b == [] {
      assert a + b == a;
    } else {
      var ab := a + b;
      assert ab[..|ab| - 1] == a + b[..|b| - 1];
      assert ab[|ab| - 1] == b[|b| - 1];
      PickedAppend(a, b[..|b| - 1], pick);
    }
  }

  lemma {:induction false} PickedNone(ls: seq<string>, pick: string -> Option<string>)
    requires forall i :: 0 <= i < |ls| ==> pick(ls[i]).None?
    ensures Picked(ls, pick) == []
    decreases |ls|
  {
    if ls != [] {
      PickedNone(ls[..|ls| - 1], pick);
    }
  }

  lemma {:induction false} PickedSame(a: seq<string>, b: seq<string>, pick: string -> Option<string>)
    requires |a| == |b|
    requires forall i :: 0 <= i < |a| ==> pick(a[i]) == pick(b[i])
    ensures Picked(a, pick) == Picked(b, pick)
    decreases |a|
  {
    if a != [] {
      PickedSame(a[..|a| - 1], b[..|b| - 1], pick);
    }
  }

  lemma ConfigLinesOfComments(ls: seq<string>)
    requires CommentLines(ls)
    ensures ConfigLines(ls) == []
  {
    forall i | 0 <= i < |ls| ensures ConfigLine(ls[i]).None? {
      CommentSkipped(ls[i]);
    }
    PickedNone(ls, ConfigLine);
  }

  lemma PickedSingle(x: string, pick: string -> Option<string>)
    ensures Picked([x], pick) == if pick(x).None? then [] else [pick(x).value]
  {
    assert [x][..0] == [];
  }

  /** Of the lines written for one key, LoadConfig parses only the data line. */
  lemma BlockConfigLines(c: Config, k: Key, fmt: RealFormat)
    requires Serializable(c, fmt) && FileSafe(c) && CommentsOnOneLine(fmt)
    ensures ConfigLines(Block(c, k, true, fmt)) == [DataLine(c, k, fmt)]
  {
    var cs := CommentsBefore(k, fmt);
    var d := DataLine(c, k, fmt);
    assert Block(c, k, true, fmt) == cs + [d];
    PickedAppend(cs, [d], ConfigLine);
    PickedSingle(d, ConfigLine);
    CommentsWellFormed(k, fmt);
    ConfigLinesOfComments(cs);
    DataLineKept(c, k, fmt);
  }

  /** The lines of the commented text that LoadConfig parses are the data lines. */
  lemma {:induction false} FileConfigLines(c: Config, ks: seq<Key>, fmt: RealFormat)
    requires Serializable(c, fmt) && FileSafe(c) && CommentsOnOneLine(fmt)
    ensures ConfigLines(LinesFor(c, ks, true, fmt)) == DataLines(c, ks, fmt)
    decreases |ks|
  {
    if ks != [] {
      var b := Block(c, ks[0], true, fmt);
      var rest := LinesFor(c, ks[1..], true, fmt);
      assert LinesFor(c, ks, true, fmt) == b + rest;
      assert DataLines(c, ks, fmt) == [DataLine(c, ks[0], fmt)] + DataLines(c, ks[1..], fmt);
      PickedAppend(b, rest, ConfigLine);
      BlockConfigLines(c, ks[0], fmt);
      FileConfigLines(c, ks[1..], fmt);
    }
  }

  /** A line of the commented text: one line of the file, and a comment line or a line
      without a slash. */
  predicate FileLine(l: string)
  {
    CommentLine(l) || (OneLine(l) && '/' !in l)
  }

  predicate FileLines(ls: seq<string>)
  {
    forall i :: 0 <= i < |ls| ==> FileLine(ls[i])
  }

  lemma FileLinesAround(a: seq<string>, d: string, b: seq<string>)
    requires CommentLines(a) && FileLine(d) && FileLines(b)
    ensures FileLines(a + [d] + b)
  {
    var ab := a + [d] + b;
    forall i | 0 <= i < |ab| ensures FileLine(ab[i]) {
      if i < |a| {
        assert ab[i] == a[i];
      } else if i > |a| {
        assert ab[i] == b[i - |a| - 1];
      }
    }
  }

  /** Every line of the commented text of file-safe settings is a file line. */
  lemma {:induction false} FileLinesShape(c: Config, ks: seq<Key>, fmt: RealFormat)
    requires Serializable(c, fmt) && FileSafe(c) && CommentsOnOneLine(fmt)
    ensures FileLines(LinesFor(c, ks, true, fmt))
    decreases |ks|
  {
    if ks != [] {
      var cs := CommentsBefore(ks[0], fmt);
      var d := DataLine(c, ks[0], fmt);
      var b := Block(c, ks[0], true, fmt);
      assert b == cs + [d];
      assert LinesFor(c, ks, true, fmt) == b + LinesFor(c, ks[1..], true, fmt);
      FileLinesShape(c, ks[1..], fmt);
      CommentsWellFormed(ks[0], fmt);
      DataLineFileSafe(c, ks[0], fmt);
      FileLinesAround(cs, d, LinesFor(c, ks[1..], true, fmt));
    }
  }

  lemma {:induction false} LinesForLast(c: Config, ks: seq<Key>, fmt: RealFormat)
    requires |ks| >= 1
    ensures var ls := LinesFor(c, ks, true, fmt);
            |ls| >= 1 && ls[|ls| - 1] == DataLine(c, ks[|ks| - 1], fmt)
    decreases |ks|
  {
    var b := Block(c, ks[0], true, fmt);
    var rest := LinesFor(c, ks[1..], true, fmt);
    var last := DataLine(c, ks[|ks| - 1], fmt);
    assert LinesFor(c, ks, true, fmt) == b + rest;
    if |ks| > 1 {
      LinesForLast(c, ks[1..], fmt);
      assert ks[1..][|ks| - 2] == ks[|ks| - 1];
    }
    EndsWith(b, rest, last);
  }

  /** A block followed by more lines ends as those lines do, or as the block does when
      nothing follows. */
  lemma EndsWith(b: seq<string>, rest: seq<string>, last: string)
    requires |b| >= 1
    requires rest == [] ==> b[|b| - 1] == last
    requires rest != [] ==> rest[|rest| - 1] == last
    ensures |b + rest| >= 1 && (b + rest)[|b + rest| - 1] == last
  {
    if rest == [] {
      assert b + rest == b;
    }
  }

  lemma LinesForFirst(c: Config, ks: seq<Key>, fmt: RealFormat)
    requires |ks| >= 1 && CommentsBefore(ks[0], fmt) != []
    ensures LinesFor(c, ks, true, fmt)[0] == CommentsBefore(ks[0], fmt)[0]
  {
  }

  lemma FirstLineIsComment(c: Config, fmt: RealFormat)
    ensures var all := LinesFor(c, Order, true, fmt); |all| >= 1 && all[0] != [] && all[0][0] == '/'
  {
    assert CommentsBefore(AffectShips, fmt)[0] == HeaderNote(CommentMarker);
    LinesForFirst(c, Order, fmt);
  }

  /** Reading the saved text line by line gives back the lines GetSettingsString(true)
      appended, when the settings are file-safe. */
  lemma SavedLines(c: Config, fmt: RealFormat)
    requires Serializable(c, fmt) && FileSafe(c) && CommentsOnOneLine(fmt)
    ensures ReadLines(SettingsText(c, true, fmt)) == LinesFor(c, Order, true, fmt)
  {
    var all := LinesFor(c, Order, true, fmt);
    SavedLinesFramed(c, fmt);
    TrimLastBreak(all);
    ReadJoinedLines(all);
  }

  /** The commented text's lines hold no line break, and start and end with characters
      the final trim keeps. */
  lemma SavedLinesFramed(c: Config, fmt: RealFormat)
    requires Serializable(c, fmt) && FileSafe(c) && CommentsOnOneLine(fmt)
    ensures var all := LinesFor(c, Order, true, fmt);
            Framed(all) && all[|all| - 1] != [] && forall i :: 0 <= i < |all| ==> OneLine(all[i])
  {
    var all := LinesFor(c, Order, true, fmt);
    FileLinesShape(c, Order, fmt);
    FileLinesOneLine(all);
    LinesForLast(c, Order, fmt);
    DataLineShape(c, StrengthMax, fmt);
    FirstLineIsComment(c, fmt);
    var last := all[|all| - 1];
    assert last[|last| - 1] !in WhiteSpace;
  }

  lemma FileLinesOneLine(ls: seq<string>)
    requires FileLines(ls)
    ensures forall i :: 0 <= i < |ls| ==> OneLine(ls[i])
  {
    forall i | 0 <= i < |ls| ensures OneLine(ls[i]) {
      assert FileLine(ls[i]);
    }
  }

  /**
   * What SaveConfig writes, LoadConfig reads back: the file lines of
   * GetSettingsString(true), filtered as LoadConfig filters them and parsed in order,
   * turn any settings into the saved ones, when their values print exactly and no
   * prefix holds a slash or a line break.
   */
  lemma FileRoundTrip(d: Config, c: Config, fmt: RealFormat)
    requires Serializable(c, fmt) && FileSafe(c) && CommentsOnOneLine(fmt)
    ensures ApplyAll(d, ConfigLines(ReadLines(SettingsText(c, true, fmt))), fmt) == c
  {
    SavedLines(c, fmt);
    FileConfigLines(c, Order, fmt);
    ApplyDataLines(d, c, Order, fmt);
    CopyOrder(d, c);
  }

  /** The filter as written reads the saved file as the intended one does: the file
      holds no comment after text, so the cut as written never applies to it. */
  lemma FileRoundTripAsWritten(d: Config, c: Config, fmt: RealFormat)
    requires Serializable(c, fmt) && FileSafe(c) && CommentsOnOneLine(fmt)
    ensures ApplyAll(d, Picked(ReadLines(SettingsText(c, true, fmt)), ConfigLineAsWritten), fmt) == c
  {
    var all := LinesFor(c, Order, true, fmt);
    SavedLines(c, fmt);
    FileLinesShape(c, Order, fmt);
    forall i | 0 <= i < |all| ensures ConfigLineAsWritten(all[i]) == ConfigLine(all[i]) {
      FilterAgrees(all[i]);
    }
    PickedAgree(all, ConfigLineAsWritten, ConfigLine);
    FileRoundTrip(d, c, fmt);
  }

  // ---------------------------------------------------------------- config actions

  datatype ConfigAction = Save | Load | Reset

  const CONFIG_SAVE: byte := 0
  const CONFIG_LOAD: byte := 1
  const CONFIG_RESET: byte := 2

  function ActionByte(a: ConfigAction): byte
  {
    match a
    case Save => CONFIG_SAVE
    case Load => CONFIG_LOAD
    case Reset => CONFIG_RESET
  }

  /** ReceivedConfigRequest's dispatch: an empty payload and an unknown first byte
      select nothing; bytes after the first are ignored. */
  function DecodeAction(bytes: seq<byte>): (r: Option<ConfigAction>)
    ensures r.Some? <==> |bytes| > 0 && bytes[0] < 3
    ensures r.Some? ==> ActionByte(r.value) == bytes[0]
  {
    if |bytes| == 0 then None
    else if bytes[0] == CONFIG_SAVE then Some(Save)
    else if bytes[0] == CONFIG_LOAD then Some(Load)
    else if bytes[0] == CONFIG_RESET then Some(Reset)
    else None
  }

  /** The one-byte request a client sends selects the action it names. */
  lemma ActionRoundTrip(a: ConfigAction, rest: seq<byte>)
    ensures DecodeAction([ActionByte(a)] + rest) == Some(a)
  {
  }
}
