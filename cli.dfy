/**
 * The converter's command line: the argument loop that fills the options
 * record, the geometry-mode argument shared with the parity checker, and
 * the decisions main takes before any file is read.
 */
module Cli {
  import opened Wrappers
  import opened Strings
  import opened Json
  import opened ParityIo
  import PostprocessFaces

  type GeometryMode = PostprocessFaces.GeometryMode

  // ---------------------------------------------------------------------------
  // normalizeGeometryMode
  // ---------------------------------------------------------------------------

  /** The name a mode has in GEOMETRY_MODES. */
  function ModeName(mode: GeometryMode): string
  {
    match mode
    case Client => "client"
    case Server => "server"
  }

  /**
   * normalizeGeometryMode: the argument (missing reads as ''), trimmed and
   * lower-cased, must name one of the two modes; otherwise a ParseError
   * naming the flag and the raw value.
   */
  function NormalizeGeometryMode(raw: Option<string>, flagName: string): (r: Result<GeometryMode, ParseError>)
    ensures r.Ok? <==> ToLower(Trim(JsTrim, raw.GetOr(""))) in {"client", "server"}
    ensures r.Ok? ==> ModeName(r.value) == ToLower(Trim(JsTrim, raw.GetOr("")))
    ensures r.Err? ==> r.error == ParseError("Invalid " + flagName + " value: " + raw.GetOr("undefined")
                                             + ". Expected one of: client, server")
  {
    var mode := ToLower(Trim(JsTrim, raw.GetOr("")));
    if mode == "client" then Ok(PostprocessFaces.Client)
    else if mode == "server" then Ok(PostprocessFaces.Server)
    else Err(ParseError("Invalid " + flagName + " value: " + raw.GetOr("undefined") + ". Expected one of: client, server"))
  }

  /** Each mode's own name is accepted as that mode. */
  lemma GeometryModeRoundTrip(mode: GeometryMode, flagName: string)
    ensures NormalizeGeometryMode(Some(ModeName(mode)), flagName) == Ok(mode)
  {
    var name := ModeName(mode);
    TrimOfTrimmed(JsTrim, name);
    assert ToLower(name) == name;
  }

  /** Upper case and surrounding white space do not matter: the normalised text reads the same. */
  lemma GeometryModeNormalised(s: string, flagName: string)
    ensures NormalizeGeometryMode(Some(ToLower(Trim(JsTrim, s))), flagName).Ok? == NormalizeGeometryMode(Some(s), flagName).Ok?
    ensures NormalizeGeometryMode(Some(s), flagName).Ok? ==>
              NormalizeGeometryMode(Some(ToLower(Trim(JsTrim, s))), flagName) == NormalizeGeometryMode(Some(s), flagName)
  {
    var t := Trim(JsTrim, s);
    TrimSpec(JsTrim, s);
    LowerKeepsTrimmed(t);
    ToLowerIdempotent(t);
  }

  /** Lower-casing a trimmed text leaves it trimmed. */
  lemma LowerKeepsTrimmed(t: string)
    requires t != [] ==> !IsTrimmable(JsTrim, t[0]) && !IsTrimmable(JsTrim, t[|t| - 1])
    ensures Trim(JsTrim, ToLower(t)) == ToLower(t)
  {
    var l := ToLower(t);
    if t != [] {
      assert !IsTrimmable(JsTrim, l[0]) && !IsTrimmable(JsTrim, l[|l| - 1]);
    }
    TrimOfTrimmed(JsTrim, l);
  }

  // ---------------------------------------------------------------------------
  // parseArgs
  // ---------------------------------------------------------------------------

  /** The options record parseArgs fills; defaultGrid is None when parseInt gave NaN. */
  datatype CliArgs = CliArgs(
    help: bool,
    noCull: bool,
    defaultGrid: Option<int>,
    input: Option<string>,
    output: Option<string>,
    bin: Option<string>,
    textureBaseUri: string,
    geometryMode: GeometryMode,
    optimize: bool)

  /** The record before any argument is read. */
  function Defaults(): (d: CliArgs)
    ensures !d.help && !d.noCull && !d.optimize
    ensures d.defaultGrid == Some(16) && d.textureBaseUri == "" && d.geometryMode == PostprocessFaces.Client
    ensures d.input.None? && d.output.None? && d.bin.None?
  {
    CliArgs(false, false, Some(16), None, None, None, "", PostprocessFaces.Client, false)
  }

  /** A JavaScript string that is truthy: present and not empty. */
  predicate Present(s: Option<string>)
  {
    s.Some? && s.value != ""
  }

  /** argv[j], undefined past the end. */
  function At(argv: seq<string>, j: nat): (r: Option<string>)
    ensures r.Some? <==> j < |argv|
  {
    if j < |argv| then Some(argv[j]) else None
  }

  /** Where the loop goes on, and the record after one argument. */
  datatype Stepped = Stepped(next: nat, out: CliArgs)

  /** The words parseArgs recognises as flags. */
  predicate IsFlag(arg: string)
  {
    arg in {"-h", "--help", "--no-cull", "--default-grid", "-o", "--out", "--bin",
            "--texture-base-uri", "--texture-uri-prefix", "--geometry-mode", "--optimize"}
  }

  /**
   * One pass of the loop body at index i: a switch sets its field, a
   * value flag takes the next argument and skips it, the first two other
   * arguments are the input and the output, and a third is a ParseError.
   */
  function Step(argv: seq<string>, i: nat, out: CliArgs): (r: Result<Stepped, ParseError>)
    requires i < |argv|
    ensures r.Ok? ==> r.value.next == (if IsFlag(argv[i]) && !(argv[i] in {"-h", "--help", "--no-cull", "--optimize"}) then i + 2 else i + 1)
    ensures r.Err? <==> (argv[i] == "--geometry-mode" && NormalizeGeometryMode(At(argv, i + 1), "--geometry-mode").Err?)
                        || (!IsFlag(argv[i]) && Present(out.input) && Present(out.output))
    ensures r.Ok? ==> r.value.out.input == out.input || r.value.out.input == Some(argv[i])
    ensures r.Ok? ==> r.value.out.output in {out.output, Some(argv[i]), At(argv, i + 1)}
  {
    var arg := argv[i];
    if arg == "-h" || arg == "--help" then Ok(Stepped(i + 1, out.(help := true)))
    else if arg == "--no-cull" then Ok(Stepped(i + 1, out.(noCull := true)))
    else if arg == "--default-grid" then Ok(Stepped(i + 2, out.(defaultGrid := ParseInt(At(argv, i + 1).GetOr("")))))
    else if arg == "-o" || arg == "--out" then Ok(Stepped(i + 2, out.(output := At(argv, i + 1))))
    else if arg == "--bin" then Ok(Stepped(i + 2, out.(bin := At(argv, i + 1))))
    else if arg == "--texture-base-uri" then Ok(Stepped(i + 2, out.(textureBaseUri := At(argv, i + 1).GetOr(""))))
    else if arg == "--texture-uri-prefix" then Ok(Stepped(i + 2, out.(textureBaseUri := At(argv, i + 1).GetOr(""))))
    else if arg == "--geometry-mode" then
      var mode := NormalizeGeometryMode(At(argv, i + 1), "--geometry-mode");
      if mode.Err? then Err(mode.error) else Ok(Stepped(i + 2, out.(geometryMode := mode.value)))
    else if arg == "--optimize" then Ok(Stepped(i + 1, out.(optimize := true)))
    else if !Present(out.input) then Ok(Stepped(i + 1, out.(input := Some(arg))))
    else if !Present(out.output) then Ok(Stepped(i + 1, out.(output := Some(arg))))
    else Err(ParseError("Unexpected argument: " + arg))
  }

  /** The loop from index i on, starting from the record out: the first ParseError, or the final record. */
  function ParseArgsFrom(argv: seq<string>, i: nat, out: CliArgs): Result<CliArgs, ParseError>
    requires i <= |argv| + 1
    decreases |argv| + 1 - i
  {
    if i >= |argv| then Ok(out)
    else
      var s := Step(argv, i, out);
      if s.Err? then Err(s.error) else ParseArgsFrom(argv, s.value.next, s.value.out)
  }

  /** parseArgs: the index loop over argv, mutating the options record. */
  method ParseArgs(argv: seq<string>) returns (r: Result<CliArgs, ParseError>)
    ensures r == ParseArgsFrom(argv, 0, Defaults())
  {
    var out := Defaults();
    var i := 0;
    while i < |argv|
      invariant i <= |argv| + 1
      invariant ParseArgsFrom(argv, i, out) == ParseArgsFrom(argv, 0, Defaults())
      decreases |argv| + 1 - i
    {
      var s := Step(argv, i, out);
      if s.Err? {
        return Err(s.error);
      }
      i, out := s.value.next, s.value.out;
    }
    return Ok(out);
  }

  /** No argument at all leaves every default in place. */
  lemma NoArgumentsGiveDefaults()
    ensures ParseArgsFrom([], 0, Defaults()) == Ok(CliArgs(false, false, Some(16), None, None, None, "", PostprocessFaces.Client, false))
  {
  }

  /** The first non-flag argument is the input and the second the output; a third is rejected. */
  lemma Positionals(a: string, b: string, c: string)
    requires !IsFlag(a) && !IsFlag(b) && !IsFlag(c) && a != "" && b != ""
    ensures ParseArgsFrom([a], 0, Defaults()) == Ok(Defaults().(input := Some(a)))
    ensures ParseArgsFrom([a, b], 0, Defaults()) == Ok(Defaults().(input := Some(a), output := Some(b)))
    ensures ParseArgsFrom([a, b, c], 0, Defaults()) == Err(ParseError("Unexpected argument: " + c))
  {
    var one := Defaults().(input := Some(a));
    var two := one.(output := Some(b));
    assert Step([a], 0, Defaults()) == Ok(Stepped(1, one));
    assert Step([a, b], 0, Defaults()) == Ok(Stepped(1, one));
    assert Step([a, b], 1, one) == Ok(Stepped(2, two));
    assert ParseArgsFrom([a, b], 1, one) == ParseArgsFrom([a, b], 2, two) == Ok(two);
    assert Step([a, b, c], 0, Defaults()) == Ok(Stepped(1, one));
    assert Step([a, b, c], 1, one) == Ok(Stepped(2, two));
    assert Step([a, b, c], 2, two) == Err(ParseError("Unexpected argument: " + c));
    assert ParseArgsFrom([a, b, c], 2, two).Err?;
    assert ParseArgsFrom([a, b, c], 1, one) == ParseArgsFrom([a, b, c], 2, two);
  }

  /** --texture-uri-prefix is an alias: either flag gives the same record from the same place. */
  lemma TextureUriPrefixIsAlias(argv: seq<string>, i: nat, out: CliArgs)
    requires i < |argv|
    ensures Step(argv[i := "--texture-uri-prefix"], i, out) == Step(argv[i := "--texture-base-uri"], i, out)
  {
    assert At(argv[i := "--texture-uri-prefix"], i + 1) == At(argv[i := "--texture-base-uri"], i + 1);
  }

  /** A value flag consumes the next argument: the word after it is never read as a positional. */
  lemma ValueFlagConsumesNext(flag: string, v: string)
    requires flag in {"--default-grid", "-o", "--out", "--bin", "--texture-base-uri", "--texture-uri-prefix"}
    ensures ParseArgsFrom([flag, v], 0, Defaults()).Ok?
    ensures ParseArgsFrom([flag, v], 0, Defaults()).value.input.None?
  {
    var s := Step([flag, v], 0, Defaults());
    assert s.Ok? && s.value.next == 2 && s.value.out.input.None?;
  }

  /** Every input or output the loop settles on is one of the arguments. */
  lemma {:induction false} PathsComeFromArgv(argv: seq<string>, i: nat, out: CliArgs)
    requires i <= |argv| + 1
    requires out.input.Some? ==> out.input.value in argv
    requires out.output.Some? ==> out.output.value in argv
    ensures var r := ParseArgsFrom(argv, i, out);
            r.Ok? ==> (r.value.input.Some? ==> r.value.input.value in argv) && (r.value.output.Some? ==> r.value.output.value in argv)
    decreases |argv| + 1 - i
  {
    if i < |argv| {
      var s := Step(argv, i, out);
      if s.Ok? {
        assert At(argv, i + 1).Some? ==> At(argv, i + 1).value in argv;
        PathsComeFromArgv(argv, s.value.next, s.value.out);
      }
    }
  }

  // ---------------------------------------------------------------------------
  // main, up to reading the input
  // ---------------------------------------------------------------------------

  /** What the converter is asked to do, before the input is read. */
  datatype ConvertOptions = ConvertOptions(
    input: string,
    readsStdin: bool,
    output: Option<string>,
    bin: Option<string>,
    defaultGrid: Option<int>,
    evaluateInternalOcclusion: bool,
    geometryMode: GeometryMode,
    optimize: bool,
    textureUriPrefix: string)

  datatype Plan = ShowHelp(exitCode: int) | Convert(options: ConvertOptions)

  /**
   * main before any file is read: a missing input reads stdin when stdin is
   * not a terminal; help (or still no input) prints the usage and exits with
   * 0 for help and 1 otherwise; reading stdin needs --out; --no-cull turns
   * internal occlusion off.
   */
  function PlanRun(args: CliArgs, stdinIsTTY: bool): (r: Result<Plan, ParseError>)
    ensures r.Ok? && r.value.ShowHelp? ==> r.value.exitCode == (if args.help then 0 else 1)
    ensures r.Ok? && r.value.Convert? ==> r.value.options.evaluateInternalOcclusion == !args.noCull
    ensures r.Ok? && r.value.Convert? ==> (r.value.options.readsStdin <==> r.value.options.input == "-")
    ensures r.Ok? && r.value.Convert? && r.value.options.readsStdin ==> Present(r.value.options.output)
  {
    var input := if !Present(args.input) && !stdinIsTTY then Some("-") else args.input;
    if args.help || !Present(input) then Ok(ShowHelp(if args.help then 0 else 1))
    else
      var readsStdin := input.value == "-";
      if readsStdin && !Present(args.output) then Err(ParseError("`--out <output.gltf>` is required when reading input from stdin."))
      else Ok(Convert(ConvertOptions(input.value, readsStdin, args.output, args.bin, args.defaultGrid, !args.noCull,
                                     args.geometryMode, args.optimize, args.textureBaseUri)))
  }

  /** The run stops with a ParseError exactly when it would read stdin without an output path. */
  lemma StdinNeedsOut(args: CliArgs, stdinIsTTY: bool)
    ensures PlanRun(args, stdinIsTTY).Err? <==>
      !args.help && !Present(args.output)
      && ((Present(args.input) && args.input.value == "-") || (!Present(args.input) && !stdinIsTTY))
  {
  }
}
