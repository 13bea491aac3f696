/**
 * The command-line options of the Karma reporter that the IDE launches
 * (js-karma/src/js_reporter/karma-intellij/lib/ideConfig.js): arguments of
 * the form `--key=value` are collected into an options object, and three
 * getters read and validate single options.
 *
 * The process's argument vector is a parameter here instead of the
 * module-level read of `process.argv`; an exception thrown by the source is
 * an `Err` result.
 */
module KarmaIdeConfig {
  import opened Wrappers
  import opened Decimal

  const RunnerPortKey: string := "runnerPort"
  const ConfigFileKey: string := "configFile"
  const KarmaPackageDirKey: string := "karmaPackageDir"

  /**
   * The one property name an assignment `options[key] = value` with a
   * string value leaves without effect: it is the prototype accessor of
   * every JavaScript object.
   */
  const ProtoKey: string := "__proto__"

  /** The errors the source throws. */
  datatype ConfigError =
    | IllegalPrefix(arg: string)
    | NoEqualsSymbol(arg: string)
    | KarmaPackageDirNotSpecified
    | ConfigFileNotSpecified

  /** The message of the thrown `Error`. */
  function Message(e: ConfigError): string
  {
    match e
    case IllegalPrefix(arg) => "Illegal prefix " + arg
    case NoEqualsSymbol(arg) => "No \"=\" symbol found in " + arg
    case KarmaPackageDirNotSpecified => "Karma package dir isn't specified."
    case ConfigFileNotSpecified => "Config file isn't specified."
  }

  /**
   * The thrown text identifies the error: each kind of error has its own
   * first letter, and the two argument errors end with the offending
   * argument.
   */
  lemma MessageIdentifiesError(e1: ConfigError, e2: ConfigError)
    requires Message(e1) == Message(e2)
    ensures e1 == e2
  {
    assert Message(e1)[0] == Message(e2)[0];
    match e1
    case IllegalPrefix(a) =>
      assert a == Message(e1)[15..] && e2.arg == Message(e2)[15..];
    case NoEqualsSymbol(a) =>
      assert a == Message(e1)[23..] && e2.arg == Message(e2)[23..];
    case _ =>
  }

  // ---------------------------------------------------------------------
  // Parsing the arguments
  // ---------------------------------------------------------------------

  /** `s.indexOf(c)`: the first position of `c` in `s`, `None` for -1. */
  function IndexOf(s: string, c: char): (r: Option<nat>)
    ensures r.Some? ==> r.value < |s| && s[r.value] == c
    ensures r.Some? ==> forall j :: 0 <= j < r.value ==> s[j] != c
    ensures r.None? <==> c !in s
  {
    if s == [] then None
    else if s[0] == c then Some(0)
    else match IndexOf(s[1..], c)
      case None => None
      case Some(i) => Some(i + 1)
  }

  /** `arg.indexOf('--') === 0`: the argument starts with two dashes. */
  function HasDoubleDashPrefix(arg: string): (r: bool)
    ensures r <==> |arg| >= 2 && arg[..2] == "--"
  {
    |arg| >= 2 && arg[0] == '-' && arg[1] == '-'
  }

  /** The argument a key and a value are written as. */
  function RenderArgument(key: string, value: string): string
  {
    "--" + key + "=" + value
  }

  /**
   * One argument: its key (between `--` and the first `=`) and its value
   * (everything after the first `=`), or the error the loop body throws.
   */
  function ParseArgument(arg: string): (r: Result<(string, string), ConfigError>)
    ensures r.Err? <==> !HasDoubleDashPrefix(arg) || '=' !in arg
    ensures r.Err? ==> r.error == if HasDoubleDashPrefix(arg) then NoEqualsSymbol(arg) else IllegalPrefix(arg)
    ensures r.Ok? ==> arg == RenderArgument(r.value.0, r.value.1) && '=' !in r.value.0
  {
    if !HasDoubleDashPrefix(arg) then Err(IllegalPrefix(arg))
    else match IndexOf(arg, '=')
      case None => Err(NoEqualsSymbol(arg))
      case Some(ind) =>
        assert arg == "--" + arg[2..ind] + "=" + arg[ind + 1..];
        assert forall j :: 2 <= j < ind ==> arg[2..ind][j - 2] == arg[j];
        Ok((arg[2..ind], arg[ind + 1..]))
  }

  /** `options[key] = value` on a plain JavaScript object. */
  function SetOption(options: map<string, string>, key: string, value: string): (r: map<string, string>)
    ensures r.Keys == if key == ProtoKey then options.Keys else options.Keys + {key}
    ensures key != ProtoKey ==> r[key] == value
    ensures forall k :: k in options && k != key ==> r[k] == options[k]
  {
    if key == ProtoKey then options else options[key := value]
  }

  /**
   * The options object built from `args`, argument by argument, or the
   * error of the first argument that is not of the form `--key=value`.
   */
  function ParseArgumentList(args: seq<string>): (r: Result<map<string, string>, ConfigError>)
    ensures r.Ok? ==> ProtoKey !in r.value
    ensures r.Err? ==> r.error.IllegalPrefix? || r.error.NoEqualsSymbol?
  {
    if args == [] then Ok(map[])
    else match ParseArgumentList(args[..|args| - 1])
      case Err(e) => Err(e)
      case Ok(options) =>
        match ParseArgument(args[|args| - 1])
        case Err(e) => Err(e)
        case Ok((key, value)) => Ok(SetOption(options, key, value))
  }

  /** The arguments `parseArguments` reads: those from index 2 on. */
  function OptionArguments(argv: seq<string>): (args: seq<string>)
    ensures |args| == if |argv| <= 2 then 0 else |argv| - 2
    ensures forall i :: 0 <= i < |args| ==> args[i] == argv[i + 2]
  {
    if |argv| <= 2 then [] else argv[2..]
  }

  /**
   * `parseArguments`: the loop over `argv` from index 2 that fills the
   * options object and throws on the first malformed argument.
   */
  method ParseArguments(argv: seq<string>) returns (r: Result<map<string, string>, ConfigError>)
    ensures r == ParseArgumentList(OptionArguments(argv))
  {
    var options: map<string, string> := map[];
    var i := 2;
    while i < |argv|
      invariant 2 <= i && (i == 2 || i <= |argv|)
      invariant ParseArgumentList(OptionArguments(argv)[..i - 2]) == Ok(options)
    {
      ghost var args := OptionArguments(argv);
      assert args[..i - 1][..i - 2] == args[..i - 2];
      var arg := argv[i];
      if !HasDoubleDashPrefix(arg) {
        FirstBadArgumentDecides(args, i - 2);
        return Err(IllegalPrefix(arg));
      }
      var ind := IndexOf(arg, '=');
      if ind.None? {
        FirstBadArgumentDecides(args, i - 2);
        return Err(NoEqualsSymbol(arg));
      }
      var key := arg[2..ind.value];
      ParseStep(args, i - 2, options);
      options := SetOption(options, key, arg[ind.value + 1..]);
      i := i + 1;
    }
    assert OptionArguments(argv)[..i - 2] == OptionArguments(argv);
    return Ok(options);
  }

  /** One turn of the loop of `parseArguments`, on a well-formed argument. */
  lemma ParseStep(args: seq<string>, n: nat, options: map<string, string>)
    requires n < |args| && ParseArgumentList(args[..n]) == Ok(options)
    requires HasDoubleDashPrefix(args[n]) && IndexOf(args[n], '=').Some?
    ensures var ind := IndexOf(args[n], '=').value;
      ParseArgumentList(args[..n + 1]) == Ok(SetOption(options, args[n][2..ind], args[n][ind + 1..]))
  {
    var arg := args[n];
    var ind := IndexOf(arg, '=').value;
    assert ParseArgument(arg) == Ok((arg[2..ind], arg[ind + 1..]));
    ParseListSnoc(args[..n], arg);
    assert args[..n + 1] == args[..n] + [arg];
  }

  // ---------------------------------------------------------------------
  // Properties of the parser
  // ---------------------------------------------------------------------

  /** In arguments that parse, every argument is of the form `--key=value`. */
  lemma {:induction false} ParsedArgumentsWellFormed(args: seq<string>)
    requires ParseArgumentList(args).Ok?
    ensures forall i :: 0 <= i < |args| ==> ParseArgument(args[i]).Ok?
  {
    if args != [] {
      var init := args[..|args| - 1];
      ParsedArgumentsWellFormed(init);
      assert forall i :: 0 <= i < |init| ==> init[i] == args[i];
    }
  }

  /** Every prefix of arguments that parse parses. */
  lemma {:induction false} ParsedPrefix(args: seq<string>, n: nat)
    requires n <= |args| && ParseArgumentList(args).Ok?
    ensures ParseArgumentList(args[..n]).Ok?
  {
    if n < |args| {
      var init := args[..|args| - 1];
      ParsedPrefix(init, n);
      assert init[..n] == args[..n];
    } else {
      assert args[..n] == args;
    }
  }

  /**
   * Parsing stops at the first malformed argument and reports its error,
   * whatever follows it.
   */
  lemma {:induction false} FirstBadArgumentDecides(args: seq<string>, i: nat)
    requires i < |args| && ParseArgument(args[i]).Err?
    requires ParseArgumentList(args[..i]).Ok?
    ensures ParseArgumentList(args[..i + 1]) == Err(ParseArgument(args[i]).error)
    ensures ParseArgumentList(args) == Err(ParseArgument(args[i]).error)
    decreases |args|
  {
    assert args[..i + 1][..i] == args[..i];
    if |args| > i + 1 {
      var init := args[..|args| - 1];
      assert init[..i] == args[..i] && init[..i + 1] == args[..i + 1];
      FirstBadArgumentDecides(init, i);
    } else {
      assert args[..i + 1] == args;
    }
  }

  /** Parsing fails exactly when some argument is malformed. */
  lemma {:induction false} ParseFailsIffSomeArgumentMalformed(args: seq<string>)
    ensures ParseArgumentList(args).Err? <==>
      exists i :: 0 <= i < |args| && ParseArgument(args[i]).Err?
  {
    if ParseArgumentList(args).Ok? {
      ParsedArgumentsWellFormed(args);
    } else {
      var i := 0;
      while i < |args| && ParseArgument(args[i]).Ok?
        invariant 0 <= i <= |args|
        invariant forall j :: 0 <= j < i ==> ParseArgument(args[j]).Ok?
      {
        i := i + 1;
      }
      if i == |args| {
        AllWellFormedArgumentsParse(args);
      }
    }
  }

  /** Arguments that are all of the form `--key=value` parse. */
  lemma {:induction false} AllWellFormedArgumentsParse(args: seq<string>)
    requires forall i :: 0 <= i < |args| ==> ParseArgument(args[i]).Ok?
    ensures ParseArgumentList(args).Ok?
  {
    if args != [] {
      AllWellFormedArgumentsParse(args[..|args| - 1]);
    }
  }

  /** Arguments that parse: the options of all but the last, updated by the last. */
  lemma ParseListStep(args: seq<string>)
    requires ParseArgumentList(args).Ok? && args != []
    ensures ParseArgumentList(args[..|args| - 1]).Ok? && ParseArgument(args[|args| - 1]).Ok?
    ensures var last := ParseArgument(args[|args| - 1]).value;
      ParseArgumentList(args).value == SetOption(ParseArgumentList(args[..|args| - 1]).value, last.0, last.1)
  {
  }

  /** Parsing one more argument updates the options with its key and value. */
  lemma ParseListSnoc(args: seq<string>, arg: string)
    requires ParseArgumentList(args).Ok? && ParseArgument(arg).Ok?
    ensures var kv := ParseArgument(arg).value;
      ParseArgumentList(args + [arg]) == Ok(SetOption(ParseArgumentList(args).value, kv.0, kv.1))
  {
    assert (args + [arg])[..|args|] == args;
  }

  /**
   * A later argument with the same key overwrites an earlier one: the
   * value of a key is that of its last argument.
   */
  lemma {:induction false} LastArgumentWins(args: seq<string>, i: nat, key: string, value: string)
    requires ParseArgumentList(args).Ok? && i < |args|
    requires ParseArgument(args[i]) == Ok((key, value)) && key != ProtoKey
    requires forall j :: i < j < |args| ==> ParseArgument(args[j]).Ok? && ParseArgument(args[j]).value.0 != key
    ensures key in ParseArgumentList(args).value
    ensures ParseArgumentList(args).value[key] == value
  {
    var init := args[..|args| - 1];
    ParseListStep(args);
    var last := ParseArgument(args[|args| - 1]).value;
    if i < |init| {
      LastArgumentWins(init, i, key, value);
      assert last.0 != key;
    } else {
      assert i == |args| - 1;
      assert last == (key, value);
    }
  }

  /** `RenderOptions(m, keys)`: one `--key=value` argument per key, in the order of `keys`. */
  function RenderOptions(options: map<string, string>, keys: seq<string>): (args: seq<string>)
    requires forall i :: 0 <= i < |keys| ==> keys[i] in options
    ensures |args| == |keys|
    ensures forall i :: 0 <= i < |keys| ==> args[i] == RenderArgument(keys[i], options[keys[i]])
  {
    if keys == [] then []
    else
      var init := keys[..|keys| - 1];
      var key := keys[|keys| - 1];
      RenderOptions(options, init) + [RenderArgument(key, options[key])]
  }

  /** The keys can be written as arguments and read back. */
  predicate RenderableKey(key: string)
  {
    '=' !in key && key != ProtoKey
  }

  /** Every key written with its value reads back as that key and value. */
  lemma ParseArgumentRoundTrip(key: string, value: string)
    requires '=' !in key
    ensures ParseArgument(RenderArgument(key, value)) == Ok((key, value))
  {
    var arg := RenderArgument(key, value);
    assert arg[2..|key| + 2] == key;
    assert arg[|key| + 2] == '=';
    assert forall j :: 0 <= j < |key| + 2 ==> arg[j] != '=' by {
      forall j | 0 <= j < |key| + 2 ensures arg[j] != '=' {
        if j >= 2 { assert arg[j] == key[j - 2]; }
      }
    }
    assert IndexOf(arg, '=') == Some(|key| + 2);
    assert arg[|key| + 3..] == value;
  }

  /**
   * Round trip: writing an options map as arguments, its keys in any
   * order, and parsing them gives the map back.
   */
  lemma {:induction false} OptionsRoundTrip(options: map<string, string>, keys: seq<string>)
    requires forall k :: k in options <==> k in keys
    requires forall k :: k in options ==> RenderableKey(k)
    ensures ParseArgumentList(RenderOptions(options, keys)) == Ok(options)
  {
    RenderedKeysParse(options, keys);
    assert (map k | k in keys :: options[k]) == options;
  }

  /** Rendered arguments parse to the options of their keys. */
  lemma {:induction false} RenderedKeysParse(options: map<string, string>, keys: seq<string>)
    requires forall i :: 0 <= i < |keys| ==> keys[i] in options && RenderableKey(keys[i])
    ensures ParseArgumentList(RenderOptions(options, keys)) == Ok(map k | k in keys :: options[k])
  {
    if keys != [] {
      var init := keys[..|keys| - 1];
      var key := keys[|keys| - 1];
      var value := options[key];
      var arg := RenderArgument(key, value);
      var rendered := RenderOptions(options, init);
      var before := map k | k in init :: options[k];
      RenderedKeysParse(options, init);
      assert ParseArgumentList(rendered) == Ok(before);
      ParseArgumentRoundTrip(key, value);
      ParseListSnoc(rendered, arg);
      assert key != ProtoKey;
      assert ParseArgumentList(rendered + [arg]) == Ok(before[key := value]);
      OptionsOfKeysSnoc(options, keys);
      assert RenderOptions(options, keys) == rendered + [arg];
    }
  }

  /** Adding a key at the end of the keys adds its option. */
  lemma OptionsOfKeysSnoc(options: map<string, string>, keys: seq<string>)
    requires keys != [] && forall i :: 0 <= i < |keys| ==> keys[i] in options
    ensures var key := keys[|keys| - 1];
      (map k | k in keys[..|keys| - 1] :: options[k])[key := options[key]] == map k | k in keys :: options[k]
  {
    var init := keys[..|keys| - 1];
    var key := keys[|keys| - 1];
    assert keys == init + [key];
    var before := map k | k in init :: options[k];
    var after := map k | k in keys :: options[k];
    assert forall k :: k in keys <==> k in init || k == key;
    assert before[key := options[key]].Keys == after.Keys;
  }

  /** Only positions 2 and later of the argument vector matter. */
  lemma ProgramArgumentsIgnored(argv: seq<string>, argv': seq<string>)
    requires || (|argv| <= 2 && |argv'| <= 2)
             || (|argv| == |argv'| && forall i :: 2 <= i < |argv| ==> argv[i] == argv'[i])
    ensures ParseArgumentList(OptionArguments(argv)) == ParseArgumentList(OptionArguments(argv'))
  {
    assert OptionArguments(argv) == OptionArguments(argv');
  }

  // ---------------------------------------------------------------------
  // The getters
  // ---------------------------------------------------------------------

  /**
   * `getKarmaPackageDir`: the `karmaPackageDir` option; an absent option
   * and the empty string (both falsy) throw.
   */
  function GetKarmaPackageDir(options: map<string, string>): (r: Result<string, ConfigError>)
    ensures r.Ok? <==> KarmaPackageDirKey in options && options[KarmaPackageDirKey] != ""
    ensures r.Ok? ==> r.value == options[KarmaPackageDirKey]
    ensures r.Err? ==> r.error == KarmaPackageDirNotSpecified
  {
    if KarmaPackageDirKey !in options || options[KarmaPackageDirKey] == "" then
      Err(KarmaPackageDirNotSpecified)
    else
      Ok(options[KarmaPackageDirKey])
  }

  /**
   * `getConfigFile`: the `configFile` option; an absent option and the
   * empty string (both falsy) throw.
   */
  function GetConfigFile(options: map<string, string>): (r: Result<string, ConfigError>)
    ensures r.Ok? <==> ConfigFileKey in options && options[ConfigFileKey] != ""
    ensures r.Ok? ==> r.value == options[ConfigFileKey]
    ensures r.Err? ==> r.error == ConfigFileNotSpecified
  {
    if ConfigFileKey !in options || options[ConfigFileKey] == "" then
      Err(ConfigFileNotSpecified)
    else
      Ok(options[ConfigFileKey])
  }

  /**
   * `getRunnerPort`: `parseInt(options.runnerPort || '', 10)`, with NaN
   * returned as `undefined` (`None`).
   */
  function GetRunnerPort(options: map<string, string>): (r: Option<int>)
    ensures RunnerPortKey !in options ==> r.None?
    ensures RunnerPortKey in options ==> r == ParseInt(options[RunnerPortKey])
  {
    var runnerPortStr := if RunnerPortKey in options && options[RunnerPortKey] != "" then options[RunnerPortKey] else "";
    ParseInt(runnerPortStr)
  }

  /** The names of the three options the getters read can be given on the command line. */
  lemma GetterKeysRenderable()
    ensures RenderableKey(RunnerPortKey) && RenderableKey(ConfigFileKey) && RenderableKey(KarmaPackageDirKey)
  {
  }

  /** The last `--key=value` argument of a key that can be rendered sets that option. */
  lemma OptionFromCommandLine(args: seq<string>, i: nat, key: string, value: string)
    requires ParseArgumentList(args).Ok? && i < |args|
    requires RenderableKey(key) && args[i] == RenderArgument(key, value)
    requires forall j :: i < j < |args| ==> ParseArgument(args[j]).Ok? && ParseArgument(args[j]).value.0 != key
    ensures key in ParseArgumentList(args).value && ParseArgumentList(args).value[key] == value
  {
    ParseArgumentRoundTrip(key, value);
    LastArgumentWins(args, i, key, value);
  }

  /**
   * The getters read the last value given on the command line: an option
   * `--configFile=f` with a non-empty `f` and no later `--configFile=`
   * argument makes `getConfigFile` return `f`.
   */
  lemma ConfigFileFromCommandLine(args: seq<string>, i: nat, file: string)
    requires ParseArgumentList(args).Ok? && i < |args|
    requires args[i] == RenderArgument(ConfigFileKey, file) && file != ""
    requires forall j :: i < j < |args| ==> ParseArgument(args[j]).Ok? && ParseArgument(args[j]).value.0 != ConfigFileKey
    ensures GetConfigFile(ParseArgumentList(args).value) == Ok(file)
  {
    GetterKeysRenderable();
    OptionFromCommandLine(args, i, ConfigFileKey, file);
  }

  /**
   * An option given with an empty value counts as not given: a last
   * `--karmaPackageDir=` argument makes `getKarmaPackageDir` throw.
   */
  lemma EmptyKarmaPackageDirNotSpecified(args: seq<string>, i: nat)
    requires ParseArgumentList(args).Ok? && i < |args|
    requires args[i] == RenderArgument(KarmaPackageDirKey, "")
    requires forall j :: i < j < |args| ==> ParseArgument(args[j]).Ok? && ParseArgument(args[j]).value.0 != KarmaPackageDirKey
    ensures GetKarmaPackageDir(ParseArgumentList(args).value) == Err(KarmaPackageDirNotSpecified)
  {
    GetterKeysRenderable();
    OptionFromCommandLine(args, i, KarmaPackageDirKey, "");
  }

  /** An argument `--__proto__=v` is accepted and leaves the options unchanged. */
  lemma ProtoArgumentIgnored(args: seq<string>, value: string)
    requires ParseArgumentList(args).Ok?
    ensures ParseArgumentList(args + [RenderArgument(ProtoKey, value)]) == ParseArgumentList(args)
  {
    ParseArgumentRoundTrip(ProtoKey, value);
    ParseListSnoc(args, RenderArgument(ProtoKey, value));
  }

  // ---------------------------------------------------------------------
  // parseInt(string, 10), section 15.1.2.2 of ECMAScript 5.1
  // ---------------------------------------------------------------------

  /**
   * StrWhiteSpaceChar (section 9.3.1 of ECMAScript 5.1): TAB, VT, FF,
   * SP, NBSP and BOM (section 7.2), the line terminators LF, CR, LS and PS
   * (section 7.3), and the other space separators of Unicode category Zs.
   * TAB, LF, VT, FF and CR are the consecutive code points U+0009 to
   * U+000D, and U+2000 to U+200A are eleven consecutive Zs spaces.
   */
  predicate IsStrWhiteSpaceChar(c: char)
  {
    || '\t' <= c <= '\r'
    || c == ' ' || c == '\U{00A0}' || c == '\U{1680}'
    || '\U{2000}' <= c <= '\U{200A}'
    || c == '\U{2028}' || c == '\U{2029}' || c == '\U{202F}' || c == '\U{205F}'
    || c == '\U{3000}' || c == '\U{FEFF}'
  }

  predicate AllWhiteSpace(s: string)
  {
    forall i :: 0 <= i < |s| ==> IsStrWhiteSpaceChar(s[i])
  }

  /** Step 2: the string without its leading white space. */
  function TrimLeadingWhiteSpace(s: string): (r: string)
    ensures |r| <= |s| && r == s[|s| - |r|..]
    ensures AllWhiteSpace(s[..|s| - |r|])
    ensures r == [] || !IsStrWhiteSpaceChar(r[0])
  {
    if s != [] && IsStrWhiteSpaceChar(s[0]) then
      var r := TrimLeadingWhiteSpace(s[1..]);
      assert s[..|s| - |r|] == [s[0]] + s[1..][..|s| - 1 - |r|];
      r
    else s
  }

  /** Step 11: the longest prefix made of decimal digits. */
  function LeadingDigits(s: string): (r: string)
    ensures |r| <= |s| && r == s[..|r|] && AllDigits(r)
    ensures |r| == |s| || !IsDigit(s[|r|])
  {
    if s != [] && IsDigit(s[0]) then [s[0]] + LeadingDigits(s[1..]) else []
  }

  /** Steps 3 to 5: the sign the text starts with, and the text after it. */
  function Sign(t: string): (sign: int)
    ensures sign == -1 <==> t != [] && t[0] == '-'
    ensures sign == 1 || sign == -1
  {
    if t != [] && t[0] == '-' then -1 else 1
  }

  /** Exactly one leading `+` or `-` is dropped; any other text is kept whole. */
  function AfterSign(t: string): (u: string)
    ensures t != [] && (t[0] == '+' || t[0] == '-') ==> u == t[1..]
    ensures t == [] || (t[0] != '+' && t[0] != '-') ==> u == t
  {
    if t != [] && (t[0] == '+' || t[0] == '-') then t[1..] else t
  }

  /**
   * `parseInt(s, 10)`: skip leading white space, take an optional sign,
   * then the longest run of decimal digits; NaN (`None`) when that run is
   * empty.
   */
  function ParseInt(s: string): (r: Option<int>)
    ensures var u := AfterSign(TrimLeadingWhiteSpace(s));
      r.None? <==> u == [] || !IsDigit(u[0])
    ensures r.Some? && r.value < 0 ==> TrimLeadingWhiteSpace(s)[0] == '-'
  {
    var t := TrimLeadingWhiteSpace(s);
    var z := LeadingDigits(AfterSign(t));
    if z == [] then None else Some(Sign(t) * DigitsValue(z))
  }

  /**
   * `parseInt` reads back a rendered integer, whatever white space comes
   * before it and whatever non-digit text follows it (so "80x" gives 80).
   */
  lemma ParseIntReadsRenderedInteger(space: string, n: int, rest: string)
    requires AllWhiteSpace(space)
    requires rest == [] || !IsDigit(rest[0])
    ensures ParseInt(space + IntToDecimal(n) + rest) == Some(n)
  {
    var magnitude: nat := if n < 0 then -n else n;
    var digits := NatToDecimal(magnitude);
    var t := IntToDecimal(n) + rest;
    assert space + IntToDecimal(n) + rest == space + t;
    TrimSkipsWhiteSpace(space, t);
    SignOfRendering(n, rest);
    assert AfterSign(t) == digits + rest;
    LeadingDigitsOfDigits(digits, rest);
    assert LeadingDigits(AfterSign(t)) == digits;
    NatToDecimalRoundTrip(magnitude);
    assert Sign(t) * magnitude == n;
  }

  /**
   * The value `parseInt` reads: white space, then no sign, `+` or `-`,
   * then digits (leading zeros allowed) ending at a non-digit or at the
   * end of the text.
   */
  lemma ParseIntReadsDigits(space: string, sign: string, digits: string, rest: string)
    requires AllWhiteSpace(space)
    requires sign == "" || sign == "+" || sign == "-"
    requires digits != [] && AllDigits(digits)
    requires rest == [] || !IsDigit(rest[0])
    ensures ParseInt(space + sign + digits + rest) == Some((if sign == "-" then -1 else 1) * DigitsValue(digits))
  {
    var t := sign + digits + rest;
    assert space + sign + digits + rest == space + t;
    SignedDigits(sign, digits, rest);
    TrimSkipsWhiteSpace(space, t);
    LeadingDigitsOfDigits(digits, rest);
  }

  /** Steps 3 to 5 on an optional sign followed by digits. */
  lemma SignedDigits(sign: string, digits: string, rest: string)
    requires sign == "" || sign == "+" || sign == "-"
    requires digits != [] && AllDigits(digits)
    ensures var t := sign + digits + rest;
      && t != [] && !IsStrWhiteSpaceChar(t[0])
      && AfterSign(t) == digits + rest
      && Sign(t) == if sign == "-" then -1 else 1
  {
    var t := sign + digits + rest;
    if sign == "" {
      assert t == digits + rest;
      assert t[0] == digits[0];
    } else {
      assert t[0] == sign[0];
      assert t[1..] == digits + rest;
    }
  }

  /** A `+` sign and leading zeros are accepted: "+080" gives 80. */
  lemma ParseIntOfSignedLeadingZeros()
    ensures ParseInt("+080") == Some(80)
  {
    assert "+080" == "" + "+" + "080" + "";
    assert "080"[..2] == "08" && "08"[..1] == "0" && "0"[..0] == "";
    assert DigitsValue("080") == 80;
    ParseIntReadsDigits("", "+", "080", "");
  }

  lemma SignOfRendering(n: int, rest: string)
    ensures AfterSign(IntToDecimal(n) + rest) == NatToDecimal(if n < 0 then -n else n) + rest
    ensures Sign(IntToDecimal(n) + rest) == if n < 0 then -1 else 1
  {
    var digits := NatToDecimal(if n < 0 then -n else n);
    if n < 0 {
      assert IntToDecimal(n) + rest == ['-'] + (digits + rest);
    } else {
      assert IntToDecimal(n) + rest == digits + rest;
    }
  }

  lemma {:induction false} TrimSkipsWhiteSpace(space: string, t: string)
    requires AllWhiteSpace(space)
    requires t != [] && !IsStrWhiteSpaceChar(t[0])
    ensures TrimLeadingWhiteSpace(space + t) == t
  {
    if space != [] {
      assert (space + t)[1..] == space[1..] + t;
      TrimSkipsWhiteSpace(space[1..], t);
    }
  }

  lemma {:induction false} LeadingDigitsOfDigits(digits: string, rest: string)
    requires AllDigits(digits)
    requires rest == [] || !IsDigit(rest[0])
    ensures LeadingDigits(digits + rest) == digits
  {
    if digits != [] {
      assert (digits + rest)[1..] == digits[1..] + rest;
      LeadingDigitsOfDigits(digits[1..], rest);
    }
  }

  /** A string with no decimal digit at all is NaN, so the port is `undefined`. */
  lemma ParseIntWithoutDigits(s: string)
    requires forall i :: 0 <= i < |s| ==> !IsDigit(s[i])
    ensures ParseInt(s) == None
  {
    var u := AfterSign(TrimLeadingWhiteSpace(s));
    if u != [] {
      assert u[0] == s[|s| - |u|];
    }
  }

  /** A `--runnerPort=<p>` argument, the last of its key, sets the runner port to p. */
  lemma RunnerPortFromCommandLine(args: seq<string>, i: nat, port: int)
    requires ParseArgumentList(args).Ok? && i < |args|
    requires args[i] == RenderArgument(RunnerPortKey, IntToDecimal(port))
    requires forall j :: i < j < |args| ==> ParseArgument(args[j]).Ok? && ParseArgument(args[j]).value.0 != RunnerPortKey
    ensures GetRunnerPort(ParseArgumentList(args).value) == Some(port)
  {
    var text := IntToDecimal(port);
    GetterKeysRenderable();
    OptionFromCommandLine(args, i, RunnerPortKey, text);
    ParseIntOfRendering(port);
  }

  lemma ParseIntOfRendering(n: int)
    ensures ParseInt(IntToDecimal(n)) == Some(n)
  {
    var text := IntToDecimal(n);
    assert "" + text == text;
    assert text + "" == text;
    ParseIntReadsRenderedInteger("", n, "");
  }

  /**
   * A key that no argument names is absent from the options: the
   * options hold no key the command line did not give.
   */
  lemma {:induction false} KeysComeFromArguments(args: seq<string>, key: string)
    requires ParseArgumentList(args).Ok?
    requires forall i :: 0 <= i < |args| ==> ParseArgument(args[i]).Ok? && ParseArgument(args[i]).value.0 != key
    ensures key !in ParseArgumentList(args).value
  {
    if args != [] {
      ParseListStep(args);
      var init := args[..|args| - 1];
      assert forall i :: 0 <= i < |init| ==> init[i] == args[i];
      KeysComeFromArguments(init, key);
    }
  }

  /** Without a `--configFile=` argument `getConfigFile` throws. */
  lemma ConfigFileMissingNotSpecified(args: seq<string>)
    requires ParseArgumentList(args).Ok?
    requires forall i :: 0 <= i < |args| ==> ParseArgument(args[i]).Ok? && ParseArgument(args[i]).value.0 != ConfigFileKey
    ensures GetConfigFile(ParseArgumentList(args).value) == Err(ConfigFileNotSpecified)
  {
    KeysComeFromArguments(args, ConfigFileKey);
  }

  /** Without a `--karmaPackageDir=` argument `getKarmaPackageDir` throws. */
  lemma KarmaPackageDirMissingNotSpecified(args: seq<string>)
    requires ParseArgumentList(args).Ok?
    requires forall i :: 0 <= i < |args| ==> ParseArgument(args[i]).Ok? && ParseArgument(args[i]).value.0 != KarmaPackageDirKey
    ensures GetKarmaPackageDir(ParseArgumentList(args).value) == Err(KarmaPackageDirNotSpecified)
  {
    KeysComeFromArguments(args, KarmaPackageDirKey);
  }

  /** An absent or empty `runnerPort` option gives `undefined`. */
  lemma RunnerPortUndefinedWhenUnset(options: map<string, string>)
    requires RunnerPortKey !in options || options[RunnerPortKey] == ""
    ensures GetRunnerPort(options) == None
  {
    ParseIntWithoutDigits("");
  }

  /** `parseInt` stops at the first non-digit: "80x" gives 80. */
  lemma ParseIntOfTrailingText()
    ensures ParseInt("80x") == Some(80)
  {
    var s := "80x";
    assert TrimLeadingWhiteSpace(s) == s;
    assert AfterSign(s) == s;
    assert s[1..] == "0x" && s[1..][1..] == "x";
    assert LeadingDigits(s) == "80";
    assert "80"[..1] == "8";
    assert DigitsValue("80") == 80;
  }

  /** `parseInt` of "x80" is NaN: the digits must come first. */
  lemma ParseIntOfLeadingLetter()
    ensures ParseInt("x80") == None
  {
    assert "x80"[0] == 'x';
    ParseIntWithoutLeadingDigit("x80");
  }

  /**
   * Text whose first character is neither white space, a sign nor a digit
   * is NaN, whatever digits come later.
   */
  lemma ParseIntWithoutLeadingDigit(s: string)
    requires s != [] && !IsStrWhiteSpaceChar(s[0]) && !IsDigit(s[0]) && s[0] != '+' && s[0] != '-'
    ensures ParseInt(s) == None
  {
    assert TrimLeadingWhiteSpace(s) == s;
  }
}
