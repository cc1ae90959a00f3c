/**
  `ProgramOptions`: the command line and the environment merged into the
  daemon's settings.

  Values reach the model after boost's tokenisation: the command line as a map
  from option name to text (a flag such as `help` maps to any text), the
  environment as a map from variable name to text. URLs are kept as text.
*/
module ProgramOptions {
  import opened Wrappers
  import opened Numerals
  import opened RectJson

  /** The options that take a value. */
  datatype OptionName =
    | SourceUrl | SourceUsername | SourcePassword | SourceToken
    | HassUrl | HassEntityId | HassFriendlyName | HassToken
    | WebUiHost | WebUiPort | DetectionSizeOption | DetectionDebounce

  const DefaultWebUiHost: string := "0.0.0.0"
  const DefaultWebUiPort: Int32 := 32834
  const DefaultDebounceSeconds: Int32 := 30

  /**
    The name mapper handed to `parse_environment`: the option a variable sets,
    or none (the variable is skipped) for any other variable. The whole
    variable name is looked up: there is no prefix to strip.
  */
  function EnvNameMapper(envVar: string): Option<OptionName> {
    if envVar == "USERNAME" then Some(SourceUsername)
    else if envVar == "PASSWORD" then Some(SourcePassword)
    else if envVar == "TOKEN" then Some(SourceToken)
    else if envVar == "URL" then Some(SourceUrl)
    else if envVar == "HASS_URL" then Some(HassUrl)
    else if envVar == "HASS_ENTITY_ID" then Some(HassEntityId)
    else if envVar == "HASS_TOKEN" then Some(HassToken)
    else if envVar == "HASS_FRIENDLY_NAME" then Some(HassFriendlyName)
    else if envVar == "WEB_UI_HOST" then Some(WebUiHost)
    else if envVar == "WEB_UI_PORT" then Some(WebUiPort)
    else if envVar == "DETECTION_SIZE" then Some(DetectionSizeOption)
    else if envVar == "DETECTION_DEBOUNCE" then Some(DetectionDebounce)
    else None
  }

  /** The variable that sets each option: an independent statement of the table, read backwards. */
  function EnvVarFor(o: OptionName): string {
    match o
    case SourceUsername => "USERNAME"
    case SourcePassword => "PASSWORD"
    case SourceToken => "TOKEN"
    case SourceUrl => "URL"
    case HassUrl => "HASS_URL"
    case HassEntityId => "HASS_ENTITY_ID"
    case HassToken => "HASS_TOKEN"
    case HassFriendlyName => "HASS_FRIENDLY_NAME"
    case WebUiHost => "WEB_UI_HOST"
    case WebUiPort => "WEB_UI_PORT"
    case DetectionSizeOption => "DETECTION_SIZE"
    case DetectionDebounce => "DETECTION_DEBOUNCE"
  }

  /**
    The table is a bijection between twelve variable names and the twelve
    options: a variable sets an option exactly when it is that option's
    variable. In particular no two variables set the same option.
  */
  lemma EnvTableBijective(envVar: string, o: OptionName)
    ensures EnvNameMapper(envVar) == Some(o) <==> envVar == EnvVarFor(o)
  {
  }


  const AllOptions: set<OptionName> := {
    SourceUrl, SourceUsername, SourcePassword, SourceToken,
    HassUrl, HassEntityId, HassFriendlyName, HassToken,
    WebUiHost, WebUiPort, DetectionSizeOption, DetectionDebounce}

  /**
    `parse_environment`: every variable the mapper knows sets its option; the
    rest are skipped. Since the table is a bijection, the options set are
    those whose variable is present.
  */
  function ParseEnvironment(env: map<string, string>): (r: map<OptionName, string>)
    ensures forall o :: o in r <==> EnvVarFor(o) in env
    ensures forall o :: o in r ==> r[o] == env[EnvVarFor(o)]
  {
    map o | o in AllOptions && EnvVarFor(o) in env :: env[EnvVarFor(o)]
  }

  /** Each variable the mapper knows sets its option to the variable's value, and no other variable sets anything. */
  lemma ParseEnvironmentMapsVariables(env: map<string, string>, v: string)
    requires v in env
    ensures EnvNameMapper(v).Some? ==>
      EnvNameMapper(v).value in ParseEnvironment(env) && ParseEnvironment(env)[EnvNameMapper(v).value] == env[v]
    ensures EnvNameMapper(v).None? ==> forall o :: o in ParseEnvironment(env) ==> EnvVarFor(o) != v
  {
    if EnvNameMapper(v).Some? {
      EnvTableBijective(v, EnvNameMapper(v).value);
    } else {
      forall o | o in ParseEnvironment(env) ensures EnvVarFor(o) != v {
        EnvTableBijective(EnvVarFor(o), o);
      }
    }
  }

  /**
    `store`: a value already stored is kept, so the command line, stored
    first, takes precedence over the environment. Defaults are applied when
    the settings are read.
  */
  function Store(vm: map<OptionName, string>, parsed: map<OptionName, string>): (r: map<OptionName, string>)
    ensures r.Keys == vm.Keys + parsed.Keys
    ensures forall o :: o in vm ==> r[o] == vm[o]
    ensures forall o :: o in parsed && o !in vm ==> r[o] == parsed[o]
  {
    parsed + vm
  }

  /** A value read from the variables map, or the option's default. */
  function Lookup(vm: map<OptionName, string>, option: OptionName, default: string): string {
    if option in vm then vm[option] else default
  }

  // ---------------------------------------------------------------------
  // Integer conversions
  // ---------------------------------------------------------------------

  /** `isspace` in the C locale. */
  predicate IsSpace(c: char) {
    c == ' ' || 9 <= c as int <= 13
  }

  predicate AllSpace(s: string) {
    forall i :: 0 <= i < |s| ==> IsSpace(s[i])
  }

  /** The length of the leading white space. */
  function SpaceRun(s: string): (k: nat)
    ensures k <= |s|
    ensures forall i :: 0 <= i < k ==> IsSpace(s[i])
    ensures k < |s| ==> !IsSpace(s[k])
  {
    if |s| == 0 || !IsSpace(s[0]) then 0 else 1 + SpaceRun(s[1..])
  }

  /** The text after any leading white space. */
  function DropSpaces(s: string): string {
    s[SpaceRun(s)..]
  }

  /** The length of the longest prefix of decimal digits. */
  function DigitRun(s: string): (k: nat)
    ensures k <= |s|
    ensures AllIn(s[..k], DecimalAlphabet)
    ensures k < |s| ==> s[k] !in DecimalAlphabet
  {
    if |s| == 0 || s[0] !in DecimalAlphabet then 0
    else
      var k := 1 + DigitRun(s[1..]);
      assert s[..k] == [s[0]] + s[1..][..k - 1];
      k
  }

  /** After white space, an optional sign is consumed; the digits start here. */
  function NumberStart(s: string): string {
    var t := DropSpaces(s);
    if |t| > 0 && (t[0] == '-' || t[0] == '+') then t[1..] else t
  }

  predicate Negative(s: string) {
    var t := DropSpaces(s);
    |t| > 0 && t[0] == '-'
  }

  function Signed(neg: bool, magnitude: nat): int {
    if neg then -(magnitude as int) else magnitude
  }

  predicate InInt32(v: int) {
    -TwoTo31 <= v < TwoTo31
  }

  /** The exceptions `std::stoi` and `std::stod` raise. */
  datatype StoiError = InvalidArgument | OutOfRange

  /**
    `std::stoi`: skips white space, reads an optional sign and the longest run
    of decimal digits, and ignores whatever follows. No digits is an
    `invalid_argument`; a value outside `int` is an `out_of_range`.
  */
  function Stoi(s: string): Result<Int32, StoiError> {
    var u := NumberStart(s);
    var k := DigitRun(u);
    if k == 0 then Failure(InvalidArgument)
    else
      var v := Signed(Negative(s), DigitsValue(u[..k], DecimalAlphabet));
      if InInt32(v) then Success(v) else Failure(OutOfRange)
  }

  /** `c` is the lower-case letter `lower` or its upper-case form. */
  predicate FoldsTo(c: char, lower: char)
    requires 'a' <= lower <= 'z'
  {
    c == lower || c as int == lower as int - 32
  }

  /**
    Whether `std::stod` finds a number at the start of the text, as `strtod`
    does in the C locale: after white space and an optional sign, a decimal
    digit (a hexadecimal `0x` starts with one), a `.` followed by a digit, or
    `inf` or `nan` in any case. Where it finds none, `stod` throws
    `invalid_argument`.
  */
  predicate StodFindsNumber(s: string) {
    var u := NumberStart(s);
    || (|u| > 0 && u[0] in DecimalAlphabet)
    || (|u| > 1 && u[0] == '.' && u[1] in DecimalAlphabet)
    || (|u| > 2 && FoldsTo(u[0], 'i') && FoldsTo(u[1], 'n') && FoldsTo(u[2], 'f'))
    || (|u| > 2 && FoldsTo(u[0], 'n') && FoldsTo(u[1], 'a') && FoldsTo(u[2], 'n'))
  }

  /**
    What `stoi` reads: it fails with `invalid_argument` exactly when no digit
    follows the white space and sign; otherwise it yields the signed value of
    the longest digit run, or `out_of_range` when that is not an `int`.
  */
  lemma StoiReads(s: string)
    ensures Stoi(s) == Failure(InvalidArgument) <==> DigitRun(NumberStart(s)) == 0
    ensures DigitRun(NumberStart(s)) > 0 ==>
      var u := NumberStart(s);
      var v := Signed(Negative(s), DigitsValue(u[..DigitRun(u)], DecimalAlphabet));
      Stoi(s) == if InInt32(v) then Success(v) else Failure(OutOfRange)
  {
  }

  /**
    `boost::lexical_cast<int>`, which reads typed option values: the whole
    text must be an optional sign followed by decimal digits, within `int`.
  */
  function LexicalInt(s: string): (r: Option<Int32>)
    ensures r.Some? ==> |s| > 0 && !IsSpace(s[0])
  {
    var neg := |s| > 0 && s[0] == '-';
    var u := if |s| > 0 && (s[0] == '-' || s[0] == '+') then s[1..] else s;
    if |u| == 0 || !AllIn(u, DecimalAlphabet) then None
    else
      var v := Signed(neg, DigitsValue(u, DecimalAlphabet));
      if InInt32(v) then Some(v) else None
  }

  lemma {:induction false} DigitRunAll(u: string, t: string)
    requires AllIn(u, DecimalAlphabet)
    requires |t| == 0 || t[0] !in DecimalAlphabet
    ensures DigitRun(u + t) == |u|
    decreases |u|
  {
    if |u| == 0 {
      assert u + t == t;
    } else {
      DigitRunAll(u[1..], t);
      assert (u + t)[1..] == u[1..] + t;
    }
  }

  /** Whatever `lexical_cast<int>` accepts, `stoi` reads the same. */
  lemma StoiExtendsLexicalInt(s: string)
    requires LexicalInt(s).Some?
    ensures Stoi(s) == Success(LexicalInt(s).value)
  {
    var u := if s[0] == '-' || s[0] == '+' then s[1..] else s;
    assert DropSpaces(s) == s;
    assert NumberStart(s) == u;
    DigitRunAll(u, []);
    assert u + [] == u;
    assert u[..|u|] == u;
  }

  /** The digits of `IntToString(i)`: the text after the sign, if any. */
  function Magnitude(i: int): nat {
    if i < 0 then -i else i
  }

  lemma IntTextShape(i: int)
    ensures var s := IntToString(i);
      && (i < 0 ==> s == "-" + NatToString(Magnitude(i)))
      && (i >= 0 ==> s == NatToString(Magnitude(i)))
  {
  }

  /** `lexical_cast<int>` reads back the decimal text of any `int`. */
  lemma LexicalIntRoundTrip(i: Int32)
    ensures LexicalInt(IntToString(i)) == Some(i)
  {
    var s := IntToString(i);
    var u := NatToString(Magnitude(i));
    IntTextShape(i);
    if i < 0 {
      assert s[1..] == u;
    }
  }

  /** Where the digits of an `int`'s text start, when any text follows it. */
  lemma IntTextStart(i: int, t: string)
    ensures NumberStart(IntToString(i) + t) == NatToString(Magnitude(i)) + t
    ensures Negative(IntToString(i) + t) <==> i < 0
  {
    var s := IntToString(i);
    var u := NatToString(Magnitude(i));
    IntTextShape(i);
    assert (s + t)[0] == s[0];
    assert !IsSpace(s[0]) by {
      if i >= 0 {
        assert s[0] in DecimalAlphabet;
      }
    }
    assert DropSpaces(s + t) == s + t;
    if i < 0 {
      assert (s + t)[1..] == u + t;
    } else {
      assert s[0] in DecimalAlphabet;
    }
  }

  /** `stoi` on a text whose digits, after white space and sign, are `u` followed by a non-digit. */
  lemma StoiDigitRun(s: string, u: string, t: string)
    requires NumberStart(s) == u + t
    requires |u| > 0 && AllIn(u, DecimalAlphabet)
    requires |t| == 0 || t[0] !in DecimalAlphabet
    ensures var v := Signed(Negative(s), DigitsValue(u, DecimalAlphabet));
      Stoi(s) == if InInt32(v) then Success(v) else Failure(OutOfRange)
  {
    DigitRunAll(u, t);
    assert (u + t)[..|u|] == u;
  }

  /** `stoi` reads back the decimal text of any `int`, whatever non-digit text follows it. */
  lemma StoiReadsIntText(i: Int32, t: string)
    requires |t| == 0 || t[0] !in DecimalAlphabet
    ensures Stoi(IntToString(i) + t) == Success(i)
  {
    var u := NatToString(Magnitude(i));
    IntTextStart(i, t);
    StoiDigitRun(IntToString(i) + t, u, t);
    assert DigitsValue(u, DecimalAlphabet) == Magnitude(i);
  }

  lemma {:induction false} SpaceRunSkips(ws: string, s: string)
    requires AllSpace(ws)
    ensures SpaceRun(ws + s) == |ws| + SpaceRun(s)
    decreases |ws|
  {
    if |ws| == 0 {
      assert ws + s == s;
    } else {
      assert (ws + s)[1..] == ws[1..] + s;
      SpaceRunSkips(ws[1..], s);
    }
  }

  lemma DropSpacesSkips(ws: string, s: string)
    requires AllSpace(ws)
    ensures DropSpaces(ws + s) == DropSpaces(s)
  {
    SpaceRunSkips(ws, s);
    var k := SpaceRun(s);
    assert (ws + s)[|ws| + k..] == s[k..];
  }

  /** `stoi` skips any leading white space. */
  lemma StoiSkipsSpaces(ws: string, s: string)
    requires AllSpace(ws)
    ensures Stoi(ws + s) == Stoi(s)
  {
    DropSpacesSkips(ws, s);
  }

  // ---------------------------------------------------------------------
  // The settings
  // ---------------------------------------------------------------------

  /**
    The minimum motion size: a pixel count, or a percentage of the frame kept
    as the text before the `%` (the fraction is that number divided by 100).
  */
  datatype DetectionSize = Pixels(count: Int32) | Percent(number: string)

  /** The default fraction 0.05 of the frame, that is 5%. */
  const DefaultDetectionSize: DetectionSize := Percent("5")

  datatype Options = Options(
    sourceUrl: string,
    username: string,
    password: string,
    token: string,
    hassUrl: string,
    hassEntityId: string,
    hassFriendlyName: string,
    hassToken: string,
    webUiHost: string,
    webUiPort: Int32,
    detectionSize: DetectionSize,
    detectionDebounceSeconds: Int32)

  /** `CanSetupHass()`: a Home Assistant URL, entity id and token are all given. */
  predicate CanSetupHass(o: Options) {
    o.hassUrl != "" && o.hassEntityId != "" && o.hassToken != ""
  }

  /** The command line after tokenising: the two flags and the values given. */
  datatype CommandLine = CommandLine(help: bool, version: bool, values: map<OptionName, string>)

  /** Why the constructor gives up. */
  datatype OptionError =
    | BadIntValue                     // an `int` option whose text is not an int
    | MissingSourceUrl                // `notify` finds the required option absent
    | BadUrl                          // `boost::url` throws on a text that is not a URL
    | BadDetectionSize(e: StoiError)  // `stod` or `stoi` throws on the detection size

  /** What the constructor ends in. */
  datatype Outcome =
    | ShowHelp                    // prints the option list and exits with 0
    | ShowVersion                 // prints the version and exits with 0
    | Escaped(err: OptionError)   // thrown by `store`, before the handler: leaves the constructor
    | Rejected(err: OptionError)  // caught: the message and the option list are printed, exit code 1
    | Parsed(opts: Options)

  /** The variables map: the command line, then the environment. */
  function Variables(cmdline: CommandLine, env: map<string, string>): map<OptionName, string> {
    Store(cmdline.values, ParseEnvironment(env))
  }

  /** A typed `int` option: its default when absent, `None` when its text is not an int. */
  function IntOption(vm: map<OptionName, string>, option: OptionName, default: Int32): Option<Int32> {
    if option in vm then LexicalInt(vm[option]) else Some(default)
  }

  /** The settings before the detection options are read. `token` is never assigned. */
  function BaseOptions(vm: map<OptionName, string>, port: Int32): Options
    requires SourceUrl in vm
  {
    Options(
      vm[SourceUrl],
      Lookup(vm, SourceUsername, ""),
      Lookup(vm, SourcePassword, ""),
      "",
      Lookup(vm, HassUrl, ""),
      Lookup(vm, HassEntityId, ""),
      Lookup(vm, HassFriendlyName, ""),
      Lookup(vm, HassToken, ""),
      Lookup(vm, WebUiHost, DefaultWebUiHost),
      port,
      DefaultDetectionSize,
      DefaultDebounceSeconds)
  }

  /**
    The size a non-empty detection-size text asks for: `%` marks a percentage
    of the number before it, which `stod` must find; anything else goes to
    `stoi`.
  */
  function ClassifySize(raw: string): (r: Result<DetectionSize, StoiError>)
    requires raw != ""
    ensures r.Success? && r.value.Percent? <==> raw[|raw| - 1] == '%' && StodFindsNumber(raw[..|raw| - 1])
    ensures r.Success? && r.value.Percent? ==> raw == r.value.number + "%"
    ensures raw[|raw| - 1] == '%' && !StodFindsNumber(raw[..|raw| - 1]) ==> r == Failure(InvalidArgument)
    ensures raw[|raw| - 1] != '%' ==>
      && (r.Success? <==> Stoi(raw).Success?)
      && (r.Success? ==> r.value == Pixels(Stoi(raw).value))
      && (r.Failure? ==> r.error == Stoi(raw).error)
  {
    if raw[|raw| - 1] == '%' then
      var number := raw[..|raw| - 1];
      assert raw == number + "%";
      if StodFindsNumber(number) then Success(Percent(number)) else Failure(InvalidArgument)
    else
      match Stoi(raw)
      case Success(n) => Success(Pixels(n))
      case Failure(e) => Failure(e)
  }

  /**
    The constructor once the variables map is built. Typed values were
    converted while storing; `help` and `version` end the program; the
    required source URL is checked; the settings are copied out, the two URLs
    through `boost::url`, which throws on a text it cannot parse (`urlParses`
    says which texts it accepts). An empty detection size returns early, so
    the default size stays and the debounce option is not read.
  */
  function Settings(cmdline: CommandLine, vm: map<OptionName, string>, urlParses: string -> bool): (r: Outcome)
    ensures r.Parsed? ==> && SourceUrl in vm
                          && urlParses(vm[SourceUrl]) && urlParses(Lookup(vm, HassUrl, ""))
                          && r.opts.sourceUrl == vm[SourceUrl]
                          && r.opts.username == Lookup(vm, SourceUsername, "")
                          && r.opts.password == Lookup(vm, SourcePassword, "")
                          && r.opts.token == ""
                          && r.opts.hassUrl == Lookup(vm, HassUrl, "")
                          && r.opts.hassEntityId == Lookup(vm, HassEntityId, "")
                          && r.opts.hassFriendlyName == Lookup(vm, HassFriendlyName, "")
                          && r.opts.hassToken == Lookup(vm, HassToken, "")
                          && r.opts.webUiHost == Lookup(vm, WebUiHost, DefaultWebUiHost)
                          && IntOption(vm, WebUiPort, DefaultWebUiPort) == Some(r.opts.webUiPort)
    ensures r.Parsed? ==>
      if DetectionSizeOption in vm && vm[DetectionSizeOption] == "" then
        r.opts.detectionSize == DefaultDetectionSize && r.opts.detectionDebounceSeconds == DefaultDebounceSeconds
      else
        && (if DetectionSizeOption in vm then ClassifySize(vm[DetectionSizeOption]) == Success(r.opts.detectionSize)
            else r.opts.detectionSize == DefaultDetectionSize)
        && IntOption(vm, DetectionDebounce, DefaultDebounceSeconds) == Some(r.opts.detectionDebounceSeconds)
    ensures r == ShowHelp <==>
      IntOption(vm, WebUiPort, DefaultWebUiPort).Some? && IntOption(vm, DetectionDebounce, DefaultDebounceSeconds).Some?
      && cmdline.help
    ensures r == ShowVersion <==>
      IntOption(vm, WebUiPort, DefaultWebUiPort).Some? && IntOption(vm, DetectionDebounce, DefaultDebounceSeconds).Some?
      && !cmdline.help && cmdline.version
    ensures r == Escaped(BadIntValue) <==>
      IntOption(vm, WebUiPort, DefaultWebUiPort).None? || IntOption(vm, DetectionDebounce, DefaultDebounceSeconds).None?
    ensures r == Rejected(MissingSourceUrl) <==>
      && IntOption(vm, WebUiPort, DefaultWebUiPort).Some?
      && IntOption(vm, DetectionDebounce, DefaultDebounceSeconds).Some?
      && !cmdline.help && !cmdline.version && SourceUrl !in vm
    ensures r == Rejected(BadUrl) <==>
      && IntOption(vm, WebUiPort, DefaultWebUiPort).Some?
      && IntOption(vm, DetectionDebounce, DefaultDebounceSeconds).Some?
      && !cmdline.help && !cmdline.version && SourceUrl in vm
      && !(urlParses(vm[SourceUrl]) && urlParses(Lookup(vm, HassUrl, "")))
    ensures r.Rejected? && r.err.BadDetectionSize? <==>
      && IntOption(vm, WebUiPort, DefaultWebUiPort).Some?
      && IntOption(vm, DetectionDebounce, DefaultDebounceSeconds).Some?
      && !cmdline.help && !cmdline.version && SourceUrl in vm
      && urlParses(vm[SourceUrl]) && urlParses(Lookup(vm, HassUrl, ""))
      && DetectionSizeOption in vm && vm[DetectionSizeOption] != ""
      && ClassifySize(vm[DetectionSizeOption]).Failure?
    ensures r.Rejected? && r.err.BadDetectionSize? ==>
      DetectionSizeOption in vm && vm[DetectionSizeOption] != ""
      && ClassifySize(vm[DetectionSizeOption]) == Failure(r.err.e)
  {
    var port := IntOption(vm, WebUiPort, DefaultWebUiPort);
    var debounce := IntOption(vm, DetectionDebounce, DefaultDebounceSeconds);
    if port.None? || debounce.None? then Escaped(BadIntValue)
    else if cmdline.help then ShowHelp
    else if cmdline.version then ShowVersion
    else if SourceUrl !in vm then Rejected(MissingSourceUrl)
    else if !urlParses(vm[SourceUrl]) || !urlParses(Lookup(vm, HassUrl, "")) then Rejected(BadUrl)
    else
      var base := BaseOptions(vm, port.value);
      if DetectionSizeOption in vm && vm[DetectionSizeOption] == "" then Parsed(base)
      else
        var size :=
          if DetectionSizeOption in vm then ClassifySize(vm[DetectionSizeOption]) else Success(DefaultDetectionSize);
        match size
        case Failure(e) => Rejected(BadDetectionSize(e))
        case Success(sz) => Parsed(base.(detectionSize := sz, detectionDebounceSeconds := debounce.value))
  }

  /** The constructor: the command line and the environment stored, then the settings read. */
  function Parse(cmdline: CommandLine, env: map<string, string>, urlParses: string -> bool): Outcome {
    Settings(cmdline, Variables(cmdline, env), urlParses)
  }

  /** The command line wins over the environment, which wins over the default. */
  lemma Precedence(cmdline: CommandLine, env: map<string, string>, option: OptionName, default: string)
    ensures Lookup(Variables(cmdline, env), option, default)
      == if option in cmdline.values then cmdline.values[option]
         else if EnvVarFor(option) in env then env[EnvVarFor(option)]
         else default
  {
  }

  /** A successful parse can set up Home Assistant exactly when all three of its settings are non-empty. */
  lemma CanSetupHassIff(cmdline: CommandLine, vm: map<OptionName, string>, urlParses: string -> bool)
    requires Settings(cmdline, vm, urlParses).Parsed?
    ensures CanSetupHass(Settings(cmdline, vm, urlParses).opts) <==>
      Lookup(vm, HassUrl, "") != "" && Lookup(vm, HassEntityId, "") != "" && Lookup(vm, HassToken, "") != ""
  {
  }

  /**
    Home Assistant can be set up from the environment alone: the three
    variables, when the command line leaves the options out.
  */
  lemma HassFromEnvironment(cmdline: CommandLine, env: map<string, string>, urlParses: string -> bool)
    requires Parse(cmdline, env, urlParses).Parsed?
    requires HassUrl !in cmdline.values && HassEntityId !in cmdline.values && HassToken !in cmdline.values
    requires "HASS_URL" in env && "HASS_ENTITY_ID" in env && "HASS_TOKEN" in env
    ensures CanSetupHass(Parse(cmdline, env, urlParses).opts) <==>
      env["HASS_URL"] != "" && env["HASS_ENTITY_ID"] != "" && env["HASS_TOKEN"] != ""
  {
    var vm := Variables(cmdline, env);
    EnvironmentSupplies(cmdline, env, HassUrl);
    EnvironmentSupplies(cmdline, env, HassEntityId);
    EnvironmentSupplies(cmdline, env, HassToken);
    CanSetupHassIff(cmdline, vm, urlParses);
  }

  lemma EnvironmentSupplies(cmdline: CommandLine, env: map<string, string>, option: OptionName)
    requires option !in cmdline.values && EnvVarFor(option) in env
    ensures option in Variables(cmdline, env) && Variables(cmdline, env)[option] == env[EnvVarFor(option)]
  {
  }

  /** Variable names carrying a prefix such as `MODET_` are not in the table, so they set nothing. */
  lemma PrefixedNamesIgnored(name: string)
    ensures EnvNameMapper("MODET_" + name).None?
  {
    var v := "MODET_" + name;
    assert v[0] == 'M';
  }

  /** A size ending in `%` is a percentage of the text before it, and the debounce is still read. */
  lemma PercentSize(cmdline: CommandLine, vm: map<OptionName, string>, urlParses: string -> bool, number: string)
    requires Settings(cmdline, vm, urlParses).Parsed?
    requires DetectionSizeOption in vm && vm[DetectionSizeOption] == number + "%"
    requires StodFindsNumber(number)
    ensures Settings(cmdline, vm, urlParses).opts.detectionSize == Percent(number)
    ensures Settings(cmdline, vm, urlParses).opts.detectionDebounceSeconds
      == IntOption(vm, DetectionDebounce, DefaultDebounceSeconds).value
  {
    assert (number + "%")[..|number|] == number;
  }

  /** A size ending in `%` whose text before it holds no number for `stod` is rejected. */
  lemma PercentWithoutNumberRejected(cmdline: CommandLine, vm: map<OptionName, string>, urlParses: string -> bool, number: string)
    requires Settings(cmdline, vm, urlParses) !in {ShowHelp, ShowVersion, Rejected(MissingSourceUrl), Rejected(BadUrl), Escaped(BadIntValue)}
    requires DetectionSizeOption in vm && vm[DetectionSizeOption] == number + "%"
    requires !StodFindsNumber(number)
    ensures Settings(cmdline, vm, urlParses) == Rejected(BadDetectionSize(InvalidArgument))
  {
    assert (number + "%")[..|number|] == number;
  }

  /** `abc%` is rejected; ` -.5%` and `INF%` are percentages. */
  lemma PercentExamples()
    ensures ClassifySize("abc%") == Failure(InvalidArgument)
    ensures ClassifySize(" -.5%") == Success(Percent(" -.5"))
    ensures ClassifySize("INF%") == Success(Percent("INF"))
  {
    assert "abc%"[..3] == "abc";
    assert DropSpaces("abc") == "abc";
    assert " -.5%"[..4] == " -.5";
    assert SpaceRun(" -.5") == 1;
    assert DropSpaces(" -.5") == "-.5";
    assert NumberStart(" -.5") == ".5";
    assert "INF%"[..3] == "INF";
    assert DropSpaces("INF") == "INF";
  }

  /** The decimal text of an `int` classifies as that many pixels. */
  lemma ClassifyIntText(n: Int32)
    ensures ClassifySize(IntToString(n)) == Success(Pixels(n))
  {
    var s := IntToString(n);
    StoiReadsIntText(n, []);
    assert s + [] == s;
    IntTextEndsInDigit(n);
    ClassifyPixels(s, n);
  }

  lemma IntTextEndsInDigit(n: int)
    ensures var s := IntToString(n); s[|s| - 1] in DecimalAlphabet
  {
    var s := IntToString(n);
    var u := NatToString(Magnitude(n));
    IntTextShape(n);
    assert s[|s| - 1] == u[|u| - 1];
  }

  lemma ClassifyPixels(raw: string, n: Int32)
    requires raw != "" && raw[|raw| - 1] in DecimalAlphabet
    requires Stoi(raw) == Success(n)
    ensures ClassifySize(raw) == Success(Pixels(n))
  {
    assert raw[|raw| - 1] != '%';
  }

  /** A size written as a decimal `int` is that many pixels. */
  lemma PixelSize(cmdline: CommandLine, vm: map<OptionName, string>, urlParses: string -> bool, n: Int32)
    requires Settings(cmdline, vm, urlParses).Parsed?
    requires DetectionSizeOption in vm && vm[DetectionSizeOption] == IntToString(n)
    ensures Settings(cmdline, vm, urlParses).opts.detectionSize == Pixels(n)
  {
    ClassifyIntText(n);
  }

  /** A size with no digits after the sign is rejected. */
  lemma NonNumericSizeRejected(cmdline: CommandLine, vm: map<OptionName, string>, urlParses: string -> bool)
    requires Settings(cmdline, vm, urlParses) !in {ShowHelp, ShowVersion, Rejected(MissingSourceUrl), Rejected(BadUrl), Escaped(BadIntValue)}
    requires DetectionSizeOption in vm && vm[DetectionSizeOption] != ""
    requires vm[DetectionSizeOption][|vm[DetectionSizeOption]| - 1] != '%'
    requires DigitRun(NumberStart(vm[DetectionSizeOption])) == 0
    ensures Settings(cmdline, vm, urlParses) == Rejected(BadDetectionSize(InvalidArgument))
  {
  }

  /** A pixel count beyond `int` is rejected with `out_of_range`. */
  lemma PixelSizeOutOfRange(cmdline: CommandLine, vm: map<OptionName, string>, urlParses: string -> bool)
    requires Settings(cmdline, vm, urlParses) !in {ShowHelp, ShowVersion, Rejected(MissingSourceUrl), Rejected(BadUrl), Escaped(BadIntValue)}
    requires DetectionSizeOption in vm && vm[DetectionSizeOption] != ""
    requires vm[DetectionSizeOption][|vm[DetectionSizeOption]| - 1] != '%'
    requires Stoi(vm[DetectionSizeOption]) == Failure(OutOfRange)
    ensures Settings(cmdline, vm, urlParses) == Rejected(BadDetectionSize(OutOfRange))
  {
  }

  /** An empty size returns early: the default size stays and a given debounce is ignored. */
  lemma EmptySizeSkipsDebounce(cmdline: CommandLine, vm: map<OptionName, string>, urlParses: string -> bool)
    requires Settings(cmdline, vm, urlParses).Parsed?
    requires DetectionSizeOption in vm && vm[DetectionSizeOption] == ""
    ensures Settings(cmdline, vm, urlParses).opts.detectionSize == DefaultDetectionSize
    ensures Settings(cmdline, vm, urlParses).opts.detectionDebounceSeconds == DefaultDebounceSeconds
  {
  }

  /** The debounce is taken as a whole number of seconds. */
  lemma DebounceSeconds(cmdline: CommandLine, vm: map<OptionName, string>, urlParses: string -> bool, k: Int32)
    requires Settings(cmdline, vm, urlParses).Parsed?
    requires DetectionDebounce in vm && vm[DetectionDebounce] == IntToString(k)
    requires DetectionSizeOption in vm ==> vm[DetectionSizeOption] != ""
    ensures Settings(cmdline, vm, urlParses).opts.detectionDebounceSeconds == k
  {
    LexicalIntRoundTrip(k);
  }

  /** With nothing but the source URL, the defaults apply and Home Assistant is not set up. */
  lemma Defaults(url: string, urlParses: string -> bool)
    requires urlParses(url) && urlParses("")
    ensures var r := Settings(CommandLine(false, false, map[SourceUrl := url]), map[SourceUrl := url], urlParses);
      && r.Parsed?
      && r.opts.webUiHost == "0.0.0.0" && r.opts.webUiPort == 32834
      && r.opts.detectionSize == Percent("5") && r.opts.detectionDebounceSeconds == 30
      && !CanSetupHass(r.opts)
  {
  }
}
