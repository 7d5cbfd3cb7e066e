/**
 * The pure helpers of the parity tools' io module: the positive-integer
 * flag value and the runtime versions read from a debug export.
 */
module ParityIo {
  import opened Wrappers
  import opened Strings
  import opened Json

  /** The ParseError a command-line helper throws, with its message. */
  datatype ParseError = ParseError(message: string)

  /** Number(raw) for a flag value that may be missing (undefined is NaN, here None). */
  function FlagNumber(raw: Option<string>): Option<real>
  {
    if raw.None? then None else ToNumber(Some(JStr(raw.value)))
  }

  /**
   * parsePositiveIntArg: the number the flag value reads as when that is
   * a positive integer, and a ParseError naming the flag otherwise.
   */
  function ParsePositiveIntArg(raw: Option<string>, flagName: string): (r: Result<int, ParseError>)
    ensures r.Ok? <==> IsPositiveIntNumber(FlagNumber(raw))
    ensures r.Ok? ==> r.value > 0 && r.value as real == FlagNumber(raw).value
    ensures r.Err? ==> r.error == ParseError(flagName + " expects a positive integer value.")
  {
    var value := FlagNumber(raw);
    if !IsPositiveIntNumber(value) then Err(ParseError(flagName + " expects a positive integer value."))
    else Ok(PositiveIntOf(value))
  }

  /** The decimal text of a positive number reads back as that number. */
  lemma PositiveIntRoundTrip(n: nat, flagName: string)
    requires n > 0
    ensures ParsePositiveIntArg(Some(NatToString(n)), flagName) == Ok(n)
  {
    NatToStringValue(n);
    DigitsNumber(NatToString(n));
  }

  /** A string of decimal digits reads as its value. */
  lemma DigitsNumber(s: string)
    requires IsDigits(s)
    ensures FlagNumber(Some(s)) == Some(DigitsValue(s) as real)
  {
    assert !IsTrimmable(JsTrim, s[0]) && !IsTrimmable(JsTrim, s[|s| - 1]);
    TrimOfTrimmed(JsTrim, s);
    StringToNumberOfDigits(s);
  }

  /** A flag value with nothing to trim reads as `Number()` of its own text. */
  lemma FlagNumberOfTrimmed(t: string)
    requires |t| > 0 && !IsTrimmable(JsTrim, t[0]) && !IsTrimmable(JsTrim, t[|t| - 1])
    ensures FlagNumber(Some(t)) == StringToNumber(t)
  {
    TrimOfTrimmed(JsTrim, t);
  }

  /** A flag value that reads as a positive whole number n is accepted as n. */
  lemma AcceptedAs(t: string, n: nat, flagName: string)
    requires n > 0 && FlagNumber(Some(t)) == Some(n as real)
    ensures ParsePositiveIntArg(Some(t), flagName) == Ok(n)
  {
  }

  /** A flag value that reads as NaN or as a number that is not positive is rejected. */
  lemma RejectedWhen(t: string, flagName: string)
    requires FlagNumber(Some(t)).None? || FlagNumber(Some(t)).value <= 0.0
    ensures ParsePositiveIntArg(Some(t), flagName).Err?
  {
  }

  /** Digits, an 'e' and digits start and end with a digit, so there is nothing to trim. */
  lemma ExponentTextEnds(n: nat, k: nat)
    ensures var t := NatToString(n) + "e" + NatToString(k);
      |t| > 0 && !IsTrimmable(JsTrim, t[0]) && !IsTrimmable(JsTrim, t[|t| - 1])
  {
    var d := NatToString(n);
    var e := NatToString(k);
    var t := d + "e" + e;
    NatToStringValue(n);
    NatToStringValue(k);
    assert t[0] == d[0] && t[|t| - 1] == e[|e| - 1];
    DigitNotTrimmable(d[0]);
    DigitNotTrimmable(e[|e| - 1]);
  }

  /** No decimal digit is white space. */
  lemma DigitNotTrimmable(c: char)
    requires '0' <= c <= '9'
    ensures !IsTrimmable(JsTrim, c)
  {
  }

  /** The flag value `digits e digits` reads as the first number times ten to the second. */
  lemma ExponentFlag(n: nat, k: nat)
    ensures FlagNumber(Some(NatToString(n) + "e" + NatToString(k))) == Some((n * Pow10(k)) as real)
  {
    ExponentTextEnds(n, k);
    FlagNumberOfTrimmed(NatToString(n) + "e" + NatToString(k));
    StringToNumberExponent(n, k);
  }

  /** A positive number scaled by a power of ten stays positive. */
  lemma ScaledPositive(n: nat, k: nat)
    requires n > 0
    ensures n * Pow10(k) > 0
  {
  }

  /** A positive whole number written with an exponent (`1e3`) is accepted as its value. */
  lemma ExponentSpellingAccepted(n: nat, k: nat, flagName: string)
    requires n > 0
    ensures ParsePositiveIntArg(Some(NatToString(n) + "e" + NatToString(k)), flagName) == Ok(n * Pow10(k))
  {
    ExponentFlag(n, k);
    ScaledPositive(n, k);
    AcceptedAs(NatToString(n) + "e" + NatToString(k), n * Pow10(k), flagName);
  }

  /** A positive whole number written with a zero fraction (`10.0`) is accepted as its value. */
  lemma ZeroFractionAccepted(n: nat, flagName: string)
    requires n > 0
    ensures ParsePositiveIntArg(Some(NatToString(n) + ".0"), flagName) == Ok(n)
  {
    var t := NatToString(n) + ".0";
    assert t[0] == NatToString(n)[0] && t[|t| - 1] == '0';
    FlagNumberOfTrimmed(t);
    StringToNumberZeroFraction(n);
    AcceptedAs(t, n, flagName);
  }

  lemma HexFlag()
    ensures FlagNumber(Some("0x10")) == Some(16.0)
  {
    HexSpelling();
    FlagNumberOfTrimmed("0x10");
  }

  /** A hexadecimal literal is read in base 16: `0x10` is accepted as 16. */
  lemma HexSpellingAccepted(flagName: string)
    ensures ParsePositiveIntArg(Some("0x10"), flagName) == Ok(16)
  {
    HexFlag();
    AcceptedAs("0x10", 16, flagName);
  }

  lemma ZeroFlag()
    ensures FlagNumber(Some("0")) == Some(0.0)
  {
    FlagNumberOfTrimmed("0");
    StringToNumberOfDigits("0");
    assert DigitsValue("0") == 0 by { assert "0"[..0] == []; }
  }

  /** The text of a negative whole number reads as that number. */
  lemma NegativeFlag(n: nat)
    ensures FlagNumber(Some("-" + NatToString(n))) == Some(0.0 - n as real)
  {
    var d := NatToString(n);
    var t := "-" + d;
    assert t[|t| - 1] == d[|d| - 1];
    FlagNumberOfTrimmed(t);
    StringToNumberNegative(n);
  }

  /** A missing value, zero and every negative whole number are rejected. */
  lemma NonPositiveRejected(n: nat, flagName: string)
    ensures ParsePositiveIntArg(None, flagName).Err?
    ensures ParsePositiveIntArg(Some("0"), flagName).Err?
    ensures ParsePositiveIntArg(Some("-" + NatToString(n)), flagName).Err?
  {
    ZeroFlag();
    NegativeFlag(n);
    RejectedWhen("0", flagName);
    RejectedWhen("-" + NatToString(n), flagName);
  }


  /** The runtime versions of a debug export, each a non-blank trimmed string or null. */
  datatype RuntimeMetadata = RuntimeMetadata(
    minecraftVersion: Option<string>,
    littleTilesVersion: Option<string>,
    creativeCoreVersion: Option<string>,
    parityExporterVersion: Option<string>)

  /** stringOrNull: a string trimmed, when something is left; null for blank strings and non-strings. */
  function StringOrNull(v: Option<Json>): (r: Option<string>)
    ensures r.Some? <==> v.Some? && v.value.JStr? && Trim(JsTrim, v.value.s) != []
    ensures r.Some? ==> r.value == Trim(JsTrim, v.value.s)
  {
    if v.Some? && v.value.JStr? && Trim(JsTrim, v.value.s) != [] then Some(Trim(JsTrim, v.value.s)) else None
  }

  /** A kept version is non-blank and already trimmed, so reading it again gives the same version. */
  lemma StringOrNullStable(v: Option<Json>)
    ensures StringOrNull(v).Some? ==> StringOrNull(v).value != [] && Trim(JsTrim, StringOrNull(v).value) == StringOrNull(v).value
    ensures StringOrNull(v).Some? ==> StringOrNull(Some(JStr(StringOrNull(v).value))) == StringOrNull(v)
  {
    if v.Some? && v.value.JStr? {
      TrimIdempotent(JsTrim, v.value.s);
    }
  }

  /** `debug.runtime` when it is an object (or an array), null otherwise. */
  function RuntimeObject(debug: Option<Json>): (r: Option<Json>)
    ensures r.Some? ==> IsObjectLike(r) && r == GetOpt(debug, "runtime")
  {
    var runtime := GetOpt(debug, "runtime");
    if IsObjectLike(runtime) then runtime else None
  }

  /** One version: the runtime object's field, falling back to the top-level field when that is missing or null. */
  function VersionField(debug: Option<Json>, key: string): (r: Option<string>)
    ensures IsObjectLike(GetOpt(debug, "runtime")) && !IsNullish(GetOpt(GetOpt(debug, "runtime"), key)) ==>
              r == StringOrNull(GetOpt(GetOpt(debug, "runtime"), key))
    ensures !IsObjectLike(GetOpt(debug, "runtime")) || IsNullish(GetOpt(GetOpt(debug, "runtime"), key)) ==>
              r == StringOrNull(GetOpt(debug, key))
  {
    StringOrNull(Coalesce(GetOpt(RuntimeObject(debug), key), GetOpt(debug, key)))
  }

  /** sanitizeRuntimeMetadata: the four versions, or null when none of them is present. */
  function SanitizeRuntimeMetadata(debug: Option<Json>): (r: Option<RuntimeMetadata>)
    ensures r.None? <==>
      VersionField(debug, "minecraftVersion").None? && VersionField(debug, "littleTilesVersion").None?
      && VersionField(debug, "creativeCoreVersion").None? && VersionField(debug, "parityExporterVersion").None?
    ensures r.Some? ==> r.value == RuntimeMetadata(VersionField(debug, "minecraftVersion"),
      VersionField(debug, "littleTilesVersion"), VersionField(debug, "creativeCoreVersion"),
      VersionField(debug, "parityExporterVersion"))
  {
    var minecraft := VersionField(debug, "minecraftVersion");
    var littleTiles := VersionField(debug, "littleTilesVersion");
    var creativeCore := VersionField(debug, "creativeCoreVersion");
    var exporter := VersionField(debug, "parityExporterVersion");
    if minecraft.None? && littleTiles.None? && creativeCore.None? && exporter.None? then None
    else Some(RuntimeMetadata(minecraft, littleTiles, creativeCore, exporter))
  }
}
