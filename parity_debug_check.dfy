/**
 * The parity checker's command line: the argument loop, with the two
 * spellings of each value flag, and the PASS/FAIL bookkeeping of main.
 */
module ParityDebugCheck {
  import opened Wrappers
  import opened Strings
  import opened ParityIo
  import Cli
  import PostprocessFaces

  type GeometryMode = PostprocessFaces.GeometryMode

  /** The options record parseArgs fills. */
  datatype CheckArgs = CheckArgs(
    help: bool,
    json: bool,
    requireFaceStates: bool,
    candidateDiff: bool,
    candidateDiffLimit: int,
    geometryMode: Option<GeometryMode>,
    inputs: seq<string>)

  /** The record before any argument is read. */
  function Defaults(): (d: CheckArgs)
    ensures !d.help && !d.json && !d.requireFaceStates && !d.candidateDiff
    ensures d.candidateDiffLimit == 12 && d.geometryMode.None? && d.inputs == []
  {
    CheckArgs(false, false, false, false, 12, None, [])
  }

  const LIMIT_FLAG: string := "--candidate-diff-limit"
  const MODE_FLAG: string := "--geometry-mode"

  /** `const [, raw] = arg.split('=', 2)`: the text between the first '=' and the next one (or the end). */
  function ValueAfterEquals(arg: string): (raw: Option<string>)
    ensures raw.Some? <==> '=' in arg
  {
    var parts := Split(arg, '=');
    SplitHasSeparatorPiece(arg);
    if |parts| >= 2 then Some(parts[1]) else None
  }

  /** A split has a second piece exactly when the separator occurs. */
  lemma SplitHasSeparatorPiece(s: string)
    ensures |Split(s, '=')| >= 2 <==> '=' in s
  {
    IndexOfSpec(s, '=');
  }

  /** The text after "flag=" when it holds no further '='. */
  lemma ValueAfterFlag(flag: string, v: string)
    requires '=' !in flag && '=' !in v
    ensures ValueAfterEquals(flag + "=" + v) == Some(v)
  {
    SplitAfterPiece(flag, '=', v);
    IndexOfSpec(v, '=');
    assert flag + "=" + v == flag + ['='] + v;
  }

  /** The words with a meaning of their own; a word starting with "flag=" for a value flag is one too. */
  predicate IsOption(arg: string)
  {
    arg in {"-h", "--help", "--json", "--require-face-states", "--candidate-diff", LIMIT_FLAG, MODE_FLAG}
    || IsPrefix(LIMIT_FLAG + "=", arg) || IsPrefix(MODE_FLAG + "=", arg)
  }

  datatype Stepped = Stepped(next: nat, out: CheckArgs)

  /**
   * One pass of the loop body: switches set their field, the value flags
   * read the next argument or the text after '=', and every other
   * argument is appended to the inputs.
   */
  function Step(argv: seq<string>, i: nat, out: CheckArgs): (r: Result<Stepped, ParseError>)
    requires i < |argv|
    ensures !IsOption(argv[i]) ==> r == Ok(Stepped(i + 1, out.(inputs := out.inputs + [argv[i]])))
    ensures r.Ok? ==> r.value.next == (if argv[i] in {LIMIT_FLAG, MODE_FLAG} then i + 2 else i + 1)
    ensures r.Ok? && IsOption(argv[i]) ==> r.value.out.inputs == out.inputs
  {
    var arg := argv[i];
    if arg == "-h" || arg == "--help" then Ok(Stepped(i + 1, out.(help := true)))
    else if arg == "--json" then Ok(Stepped(i + 1, out.(json := true)))
    else if arg == "--require-face-states" then Ok(Stepped(i + 1, out.(requireFaceStates := true)))
    else if arg == "--candidate-diff" then Ok(Stepped(i + 1, out.(candidateDiff := true)))
    else if arg == LIMIT_FLAG then
      var limit := ParsePositiveIntArg(Cli.At(argv, i + 1), LIMIT_FLAG);
      if limit.Err? then Err(limit.error) else Ok(Stepped(i + 2, out.(candidateDiffLimit := limit.value)))
    else if IsPrefix(LIMIT_FLAG + "=", arg) then
      var limit := ParsePositiveIntArg(ValueAfterEquals(arg), LIMIT_FLAG);
      if limit.Err? then Err(limit.error) else Ok(Stepped(i + 1, out.(candidateDiffLimit := limit.value)))
    else if arg == MODE_FLAG then
      var mode := Cli.NormalizeGeometryMode(Cli.At(argv, i + 1), MODE_FLAG);
      if mode.Err? then Err(mode.error) else Ok(Stepped(i + 2, out.(geometryMode := Some(mode.value))))
    else if IsPrefix(MODE_FLAG + "=", arg) then
      var mode := Cli.NormalizeGeometryMode(ValueAfterEquals(arg), MODE_FLAG);
      if mode.Err? then Err(mode.error) else Ok(Stepped(i + 1, out.(geometryMode := Some(mode.value))))
    else Ok(Stepped(i + 1, out.(inputs := out.inputs + [arg])))
  }

  /** The loop from index i on: the first ParseError, or the final record. */
  function ParseArgsFrom(argv: seq<string>, i: nat, out: CheckArgs): Result<CheckArgs, ParseError>
    requires i <= |argv| + 1
    decreases |argv| + 1 - i
  {
    if i >= |argv| then Ok(out)
    else
      var s := Step(argv, i, out);
      if s.Err? then Err(s.error) else ParseArgsFrom(argv, s.value.next, s.value.out)
  }

  /** parseArgs: the index loop over argv, mutating the options record. */
  method ParseArgs(argv: seq<string>) returns (r: Result<CheckArgs, ParseError>)
    ensures r == ParseArgsFrom(argv, 0, Defaults())
  {
    var out := Defaults();
    var i := 0;
    while i < |argv|
      invariant i <= |argv| + 1
      invariant ParseArgsFrom(argv, i, out) == ParseArgsFrom(argv, 0, Defaults())
      decreases |argv| + 1 - i
    {
      var s := Step(argv, i, out);
      if s.Err? {
        return Err(s.error);
      }
      i, out := s.value.next, s.value.out;
    }
    return Ok(out);
  }

  /** Arguments that are not options are all inputs, in their order, and nothing else changes. */
  lemma {:induction false} PlainArgumentsAreInputs(argv: seq<string>, i: nat, out: CheckArgs)
    requires i <= |argv|
    requires forall k :: i <= k < |argv| ==> !IsOption(argv[k])
    ensures ParseArgsFrom(argv, i, out) == Ok(out.(inputs := out.inputs + argv[i..]))
    decreases |argv| - i
  {
    if i < |argv| {
      PlainArgumentsAreInputs(argv, i + 1, out.(inputs := out.inputs + [argv[i]]));
      assert out.inputs + [argv[i]] + argv[i + 1..] == out.inputs + argv[i..];
    } else {
      assert out.inputs + argv[i..] == out.inputs;
    }
  }

  /** The two spellings of the limit give the same record when the value holds no '='. */
  lemma LimitSpellingsAgree(v: string)
    requires '=' !in v
    ensures ParseArgsFrom([LIMIT_FLAG, v], 0, Defaults()) == ParseArgsFrom([LIMIT_FLAG + "=" + v], 0, Defaults())
  {
    ValueAfterFlag(LIMIT_FLAG, v);
    assert IsPrefix(LIMIT_FLAG + "=", LIMIT_FLAG + "=" + v);
    assert LIMIT_FLAG + "=" + v != LIMIT_FLAG;
  }

  /** The two spellings of the geometry mode give the same record when the value holds no '='. */
  lemma ModeSpellingsAgree(v: string)
    requires '=' !in v
    ensures ParseArgsFrom([MODE_FLAG, v], 0, Defaults()) == ParseArgsFrom([MODE_FLAG + "=" + v], 0, Defaults())
  {
    ModeInlineStep(v);
  }

  /** "--geometry-mode=v" reaches the inline branch, with v as its value. */
  lemma ModeInlineStep(v: string)
    requires '=' !in v
    ensures var m := Cli.NormalizeGeometryMode(Some(v), MODE_FLAG);
      Step([MODE_FLAG + "=" + v], 0, Defaults())
        == if m.Err? then Err(m.error) else Ok(Stepped(1, Defaults().(geometryMode := Some(m.value))))
  {
    ValueAfterFlag(MODE_FLAG, v);
    var a := MODE_FLAG + "=" + v;
    assert |a| >= 16 && a[2] == 'g';
    assert a != "--require-face-states" && a != "--candidate-diff" && a != LIMIT_FLAG && a != MODE_FLAG by {
      assert "--require-face-states"[2] == 'r' && "--candidate-diff"[2] == 'c' && LIMIT_FLAG[2] == 'c';
      assert |MODE_FLAG| == 15;
    }
    assert !IsPrefix(LIMIT_FLAG + "=", a) by {
      assert (LIMIT_FLAG + "=")[2] == 'c';
    }
    assert IsPrefix(MODE_FLAG + "=", a);
  }

  /** A limit that is missing, zero or negative is a ParseError. */
  lemma LimitMustBePositive()
    ensures ParseArgsFrom([LIMIT_FLAG], 0, Defaults()).Err?
    ensures ParseArgsFrom([LIMIT_FLAG, "0"], 0, Defaults()).Err?
  {
    NonPositiveRejected(0, LIMIT_FLAG);
  }

  // ---------------------------------------------------------------------------
  // main
  // ---------------------------------------------------------------------------

  /** Help, or no input at all, prints the usage: exit code 0 for help and 1 otherwise. */
  function HelpExitCode(args: CheckArgs): (code: Option<int>)
    ensures code.Some? <==> args.help || args.inputs == []
    ensures code == Some(0) <==> args.help
  {
    if args.help || |args.inputs| == 0 then Some(if args.help then 0 else 1) else None
  }

  /** The number of files with at least one failure. */
  function CountFailing(failureCounts: seq<nat>): (n: nat)
    ensures n <= |failureCounts|
  {
    if failureCounts == [] then 0
    else CountFailing(failureCounts[..|failureCounts| - 1]) + (if failureCounts[|failureCounts| - 1] > 0 then 1 else 0)
  }

  /** No file fails exactly when every file has no failure. */
  lemma {:induction false} CountFailingZero(failureCounts: seq<nat>)
    ensures CountFailing(failureCounts) == 0 <==> forall k :: 0 <= k < |failureCounts| ==> failureCounts[k] == 0
    decreases |failureCounts|
  {
    if failureCounts != [] {
      CountFailingZero(failureCounts[..|failureCounts| - 1]);
    }
  }

  /** The run's summary: files checked, files with failures, the status and the exit code. */
  datatype Summary = Summary(total: nat, failures: nat, status: string, exitCode: int)

  /**
   * main from the expanded file list on, given how many failures each
   * file's check reported (the check itself reads files and is not part of
   * this model): a ParseError when no file was found; otherwise PASS
   * exactly when no file failed, and exit code 1 on FAIL.
   */
  method Summarize(failureCounts: seq<nat>) returns (r: Result<Summary, ParseError>)
    ensures r.Err? <==> |failureCounts| == 0
    ensures r.Err? ==> r.error == ParseError("No JSON files found in provided inputs.")
    ensures r.Ok? ==> r.value.total == |failureCounts| && r.value.failures == CountFailing(failureCounts)
    ensures r.Ok? ==> (r.value.status == "PASS" <==> forall k :: 0 <= k < |failureCounts| ==> failureCounts[k] == 0)
    ensures r.Ok? ==> r.value.status in {"PASS", "FAIL"} && (r.value.exitCode == 0 <==> r.value.status == "PASS")
  {
    if |failureCounts| == 0 {
      return Err(ParseError("No JSON files found in provided inputs."));
    }
    var failures := 0;
    var total := 0;
    for i := 0 to |failureCounts|
      invariant total == i && failures == CountFailing(failureCounts[..i])
    {
      total := total + 1;
      if failureCounts[i] > 0 {
        failures := failures + 1;
      }
      assert failureCounts[..i + 1][..i] == failureCounts[..i];
    }
    assert failureCounts[..|failureCounts|] == failureCounts;
    CountFailingZero(failureCounts);
    var status := if failures == 0 then "PASS" else "FAIL";
    r := Ok(Summary(total, failures, status, if failures > 0 then 1 else 0));
  }
}
