/**
 * An already-parsed JSON (or SNBT) value as the JavaScript code sees it,
 * with the few JavaScript conversions the model relies on: optional-chained
 * field access, `Number(value)` and `Number.isInteger`.
 */
module Json {
  import opened Wrappers
  import opened Strings

  /** A JSON value. Numbers are exact reals; object key order is not kept. */
  datatype Json =
    | JNull
    | JBool(b: bool)
    | JNum(n: real)
    | JStr(s: string)
    | JArr(items: seq<Json>)
    | JObj(fields: map<string, Json>)

  /** value?.[key]: None when the value is not an object or has no such key. */
  function Get(j: Json, key: string): (r: Option<Json>)
    ensures r.Some? <==> j.JObj? && key in j.fields
  {
    if j.JObj? && key in j.fields then Some(j.fields[key]) else None
  }

  /** The same through an optional value. */
  function GetOpt(j: Option<Json>, key: string): (r: Option<Json>)
    ensures j.None? ==> r.None?
  {
    if j.None? then None else Get(j.value, key)
  }

  /** A chain of optional field accesses: value?.k1?.k2... */
  function GetPath(j: Option<Json>, keys: seq<string>): Option<Json>
    decreases |keys|
  {
    if keys == [] then j else GetPath(GetOpt(j, keys[0]), keys[1..])
  }

  /** The JavaScript isObject test: a non-null, non-array object. */
  predicate IsObject(j: Json)
  {
    j.JObj?
  }

  /** An optional value that is exactly the boolean `b` (`=== b`). */
  predicate IsBool(j: Option<Json>, b: bool)
  {
    j == Some(JBool(b))
  }

  /** An optional value that is exactly the string `s` (`=== s`). */
  predicate IsString(j: Option<Json>, s: string)
  {
    j == Some(JStr(s))
  }

  predicate IsIntegral(x: real)
  {
    x.Floor as real == x
  }

  /** Number.isInteger(value): a number with no fractional part. */
  predicate IsInteger(j: Option<Json>)
  {
    j.Some? && j.value.JNum? && IsIntegral(j.value.n)
  }

  /** The integer of an integral number. */
  function AsInt(j: Option<Json>): int
    requires IsInteger(j)
  {
    j.value.n.Floor
  }

  /** The value of a character as a digit of the base (2, 8, 10 or 16), or none. */
  function BaseDigit(c: char, base: nat): (d: Option<nat>)
    ensures d.Some? ==> d.value < base
  {
    var v := if '0' <= c <= '9' then c as int - '0' as int
             else if 'a' <= c <= 'f' then c as int - 'a' as int + 10
             else if 'A' <= c <= 'F' then c as int - 'A' as int + 10
             else 99;
    if 0 <= v < base then Some(v) else None
  }

  /** The value of a non-empty run of digits of the base; none when a character is not such a digit. */
  function BaseDigitsValue(s: string, base: nat): Option<nat>
    decreases |s|
  {
    if s == [] then None
    else
      var d := BaseDigit(s[|s| - 1], base);
      if d.None? then None
      else if |s| == 1 then Some(d.value)
      else
        var high := BaseDigitsValue(s[..|s| - 1], base);
        if high.None? then None else Some(base * high.value + d.value)
  }

  function Pow10(n: nat): (p: nat)
    ensures p >= 1
  {
    if n == 0 then 1 else 10 * Pow10(n - 1)
  }

  /** The index of the first exponent mark ('e' or 'E'), or the length. */
  function ExponentMark(s: string): (n: nat)
    ensures n <= |s|
    ensures forall k :: 0 <= k < n ==> s[k] != 'e' && s[k] != 'E'
    ensures n < |s| ==> s[n] == 'e' || s[n] == 'E'
  {
    if s == [] || s[0] == 'e' || s[0] == 'E' then 0 else 1 + ExponentMark(s[1..])
  }

  /** The exponent part of a decimal literal: nothing is 0, else a mark, an optional sign and digits. */
  function ExponentValue(x: string): (r: Option<int>)
    ensures x == [] ==> r == Some(0)
  {
    if x == [] then Some(0)
    else if x[0] != 'e' && x[0] != 'E' then None
    else
      var body := x[1..];
      if |body| > 0 && body[0] == '-' && IsDigits(body[1..]) then Some(0 - DigitsValue(body[1..]))
      else if |body| > 0 && body[0] == '+' && IsDigits(body[1..]) then Some(DigitsValue(body[1..]) as int)
      else if IsDigits(body) then Some(DigitsValue(body) as int)
      else None
  }

  /** An optional run of decimal digits: the empty run is 0. */
  function RunValue(s: string): nat
    requires s == [] || IsDigits(s)
  {
    if s == [] then 0 else DigitsValue(s)
  }

  /** The mantissa of a decimal literal: digits with an optional '.' and fraction digits, one digit at least in all. */
  function MantissaValue(mantissa: string): Option<real>
  {
    var dot := IndexOf(mantissa, '.');
    var intPart := if dot < 0 then mantissa else mantissa[..dot];
    var fracPart := if dot < 0 then "" else mantissa[dot + 1..];
    if (intPart == [] && fracPart == []) || !(intPart == [] || IsDigits(intPart)) || !(fracPart == [] || IsDigits(fracPart))
    then None
    else Some(RunValue(intPart) as real + FractionValue(fracPart))
  }

  /** The value of fraction digits: none is 0, else the digits over the power of ten of their count. */
  function FractionValue(f: string): real
    requires f == [] || IsDigits(f)
  {
    if f == [] then 0.0 else DigitsValue(f) as real / Pow10(|f|) as real
  }

  /** m times ten to the power e. */
  function ScaleBy10(m: real, e: int): real
  {
    if e >= 0 then m * Pow10(e) as real else m / Pow10(0 - e) as real
  }

  /**
   * An unsigned decimal literal of `Number()`: a mantissa, then an
   * optional exponent; its exact value.
   */
  function UnsignedDecimal(s: string): Option<real>
  {
    var e := ExponentMark(s);
    var m := MantissaValue(s[..e]);
    var exponent := ExponentValue(s[e..]);
    if m.None? || exponent.None? then None else Some(ScaleBy10(m.value, exponent.value))
  }

  /**
   * Number() of an already-trimmed text, with NaN as None: the blank text
   * is 0; `0x`, `0o` and `0b` literals read in their base; otherwise an
   * optional sign and an unsigned decimal literal.
   */
  function StringToNumber(t: string): (r: Option<real>)
    ensures t == [] ==> r == Some(0.0)
  {
    if t == [] then Some(0.0)
    else if |t| >= 2 && t[0] == '0' && t[1] in {'x', 'X', 'o', 'O', 'b', 'B'} then
      var base := if t[1] in {'x', 'X'} then 16 else if t[1] in {'o', 'O'} then 8 else 2;
      var v := BaseDigitsValue(t[2..], base);
      if v.None? then None else Some(v.value as real)
    else if t[0] == '-' then
      var u := UnsignedDecimal(t[1..]);
      if u.None? then None else Some(0.0 - u.value)
    else if t[0] == '+' then UnsignedDecimal(t[1..])
    else UnsignedDecimal(t)
  }

  /** A digit run has no exponent mark. */
  lemma {:induction false} DigitsHaveNoMark(s: string)
    requires IsDigits(s) || s == []
    ensures ExponentMark(s) == |s|
    decreases |s|
  {
    if s != [] {
      assert s[0] != 'e' && s[0] != 'E';
      if |s| > 1 {
        DigitsHaveNoMark(s[1..]);
      } else {
        assert s[1..] == [];
      }
    }
  }

  /** A digit run is a mantissa worth its decimal value. */
  lemma MantissaOfDigits(d: string)
    requires IsDigits(d)
    ensures MantissaValue(d) == Some(DigitsValue(d) as real)
  {
    IndexOfSpec(d, '.');
    assert IndexOf(d, '.') == -1;
    assert RunValue(d) == DigitsValue(d);
  }

  /** A digit run followed by ".0" is a mantissa worth the run's value. */
  lemma MantissaZeroFraction(d: string)
    requires IsDigits(d)
    ensures MantissaValue(d + ".0") == Some(DigitsValue(d) as real)
  {
    var t := d + ".0";
    IndexOfSpec(t, '.');
    assert IndexOf(t, '.') == |d| by {
      assert forall k :: 0 <= k < |d| ==> t[k] == d[k] && t[k] != '.';
      assert t[|d|] == '.';
    }
    assert t[..|d|] == d && t[|d| + 1..] == "0";
    assert FractionValue("0") == 0.0 by {
      assert DigitsValue("0") == 0 by { assert "0"[..0] == []; }
      assert Pow10(1) == 10;
    }
  }

  /** A text that neither is a base literal nor starts with a sign is read as an unsigned decimal. */
  lemma StringToNumberUnsigned(t: string)
    requires |t| > 0 && '0' <= t[0] <= '9'
    requires |t| >= 2 ==> t[1] !in {'x', 'X', 'o', 'O', 'b', 'B'}
    ensures StringToNumber(t) == UnsignedDecimal(t)
  {
  }

  /** An unsigned decimal is its mantissa scaled by its exponent. */
  lemma UnsignedDecimalParts(s: string, e: nat, m: real, x: int)
    requires e <= |s| && ExponentMark(s) == e
    requires MantissaValue(s[..e]) == Some(m) && ExponentValue(s[e..]) == Some(x)
    ensures UnsignedDecimal(s) == Some(ScaleBy10(m, x))
  {
  }

  /** An unsigned decimal with no exponent mark is its mantissa. */
  lemma UnsignedNoExponent(t: string, m: real)
    requires ExponentMark(t) == |t| && MantissaValue(t) == Some(m)
    ensures UnsignedDecimal(t) == Some(m)
  {
    assert t[..|t|] == t && t[|t|..] == [];
    UnsignedDecimalParts(t, |t|, m, 0);
    ScaleByZero(m);
  }

  /** Ten to the power zero leaves a value as it is. */
  lemma ScaleByZero(m: real)
    ensures ScaleBy10(m, 0) == m
  {
    assert Pow10(0) == 1;
  }

  /** A text that starts with a digit and holds no exponent mark is its mantissa. */
  lemma NoExponent(t: string, m: real)
    requires |t| > 0 && '0' <= t[0] <= '9'
    requires |t| >= 2 ==> t[1] !in {'x', 'X', 'o', 'O', 'b', 'B'}
    requires ExponentMark(t) == |t| && MantissaValue(t) == Some(m)
    ensures StringToNumber(t) == Some(m)
  {
    StringToNumberUnsigned(t);
    UnsignedNoExponent(t, m);
  }

  /** The second character of a number's digits followed by more text is never a base letter. */
  lemma NoBaseLetter(d: string, rest: string)
    requires IsDigits(d) && (rest == [] || rest[0] !in {'x', 'X', 'o', 'O', 'b', 'B'})
    ensures var t := d + rest; |t| > 0 && '0' <= t[0] <= '9' && (|t| >= 2 ==> t[1] !in {'x', 'X', 'o', 'O', 'b', 'B'})
  {
    var t := d + rest;
    assert t[0] == d[0];
    if |t| >= 2 {
      if |d| >= 2 {
        assert t[1] == d[1];
      } else {
        assert t[1] == rest[0];
      }
    }
  }

  /** A string of decimal digits is an unsigned decimal worth its value. */
  lemma UnsignedOfDigits(t: string)
    requires IsDigits(t)
    ensures UnsignedDecimal(t) == Some(DigitsValue(t) as real)
  {
    DigitsHaveNoMark(t);
    MantissaOfDigits(t);
    UnsignedNoExponent(t, DigitsValue(t) as real);
  }

  /** A string of decimal digits reads as its decimal value. */
  lemma StringToNumberOfDigits(t: string)
    requires IsDigits(t)
    ensures StringToNumber(t) == Some(DigitsValue(t) as real)
  {
    NoBaseLetter(t, []);
    assert t + [] == t;
    StringToNumberUnsigned(t);
    UnsignedOfDigits(t);
  }

  /** A '-' before a whole number's digits reads as its negation. */
  lemma StringToNumberNegative(n: nat)
    ensures StringToNumber("-" + NatToString(n)) == Some(0.0 - n as real)
  {
    var d := NatToString(n);
    assert ("-" + d)[0] == '-' && ("-" + d)[1..] == d;
    UnsignedOfDigits(d);
    NatToStringValue(n);
  }

  /** A whole number written with a zero fraction reads as that number, as Number("10.0") does. */
  lemma StringToNumberZeroFraction(n: nat)
    ensures StringToNumber(NatToString(n) + ".0") == Some(n as real)
  {
    var d := NatToString(n);
    var t := d + ".0";
    NoBaseLetter(d, ".0");
    assert ExponentMark(".0") == 2;
    ExponentMarkPastDigits(d, ".0");
    MantissaZeroFraction(d);
    NatToStringValue(n);
    NoExponent(t, n as real);
  }

  /** A digit run holds no exponent mark, so the mark of a text it starts is found in the rest. */
  lemma {:induction false} ExponentMarkPastDigits(d: string, rest: string)
    requires IsDigits(d) || d == []
    ensures ExponentMark(d + rest) == |d| + ExponentMark(rest)
    decreases |d|
  {
    if d == [] {
      assert d + rest == rest;
    } else {
      assert (d + rest)[1..] == d[1..] + rest;
      assert d[0] != 'e' && d[0] != 'E';
      if |d| == 1 {
        assert d[1..] == [];
      }
      ExponentMarkPastDigits(d[1..], rest);
    }
  }

  /** An 'e' before digits is the exponent they spell. */
  lemma ExponentOfDigits(e: string)
    requires IsDigits(e)
    ensures ExponentValue("e" + e) == Some(DigitsValue(e) as int)
  {
    assert ("e" + e)[1..] == e;
  }

  /** A natural number scaled by a non-negative power of ten. */
  lemma ScaleByNat(n: nat, k: nat)
    ensures ScaleBy10(n as real, k) == (n * Pow10(k)) as real
  {
  }

  /** The exponent mark of `digits e digits` follows the first run. */
  lemma ExponentTextMark(d: string, e: string)
    requires IsDigits(d)
    ensures ExponentMark(d + "e" + e) == |d|
  {
    assert d + "e" + e == d + ("e" + e);
    ExponentMarkPastDigits(d, "e" + e);
  }

  /** A whole number's digits are a mantissa worth the number. */
  lemma MantissaOfNat(n: nat)
    ensures MantissaValue(NatToString(n)) == Some(n as real)
  {
    MantissaOfDigits(NatToString(n));
    NatToStringValue(n);
  }

  /** An 'e' before a whole number's digits is an exponent worth the number. */
  lemma ExponentOfNat(k: nat)
    ensures ExponentValue("e" + NatToString(k)) == Some(k)
  {
    NatToStringValue(k);
    ExponentOfDigits(NatToString(k));
  }

  /** The pieces of `digits e digits`: the mark after the first run, the run itself and the exponent text. */
  lemma DigitsExponentParts(d: string, x: string)
    requires IsDigits(d)
    ensures var t := d + "e" + x;
      && ExponentMark(t) == |d| && t[..|d|] == d && t[|d|..] == "e" + x
  {
    ExponentTextMark(d, x);
    var t := d + "e" + x;
    assert t[..|d|] == d;
    assert t[|d|..] == "e" + x;
  }

  /** The pieces of a whole number, an 'e' and a whole number: the mark, the mantissa and the exponent. */
  lemma ExponentTextParts(n: nat, k: nat)
    ensures var d := NatToString(n); var t := d + "e" + NatToString(k);
      && ExponentMark(t) == |d|
      && MantissaValue(t[..|d|]) == Some(n as real)
      && ExponentValue(t[|d|..]) == Some(k)
  {
    var d := NatToString(n);
    assert IsDigits(d);
    DigitsExponentParts(d, NatToString(k));
    MantissaOfNat(n);
    ExponentOfNat(k);
  }

  /** Digits, an 'e' and any exponent text read as the mantissa scaled by the exponent. */
  lemma DecimalWithExponent(d: string, x: string, m: real, k: int)
    requires IsDigits(d)
    requires ExponentMark(d + "e" + x) == |d|
    requires MantissaValue((d + "e" + x)[..|d|]) == Some(m) && ExponentValue((d + "e" + x)[|d|..]) == Some(k)
    ensures StringToNumber(d + "e" + x) == Some(ScaleBy10(m, k))
  {
    var t := d + "e" + x;
    assert |t| > 0 && '0' <= t[0] <= '9' && (|t| >= 2 ==> t[1] !in {'x', 'X', 'o', 'O', 'b', 'B'}) by {
      assert t[0] == d[0];
      if |d| >= 2 { assert t[1] == d[1]; } else { assert t[1] == 'e'; }
    }
    StringToNumberUnsigned(t);
    UnsignedDecimalParts(t, |d|, m, k);
  }

  /** Digits, an 'e' and digits read as the first number times ten to the second, as Number("1e3") does. */
  lemma StringToNumberExponent(n: nat, k: nat)
    ensures StringToNumber(NatToString(n) + "e" + NatToString(k)) == Some((n * Pow10(k)) as real)
  {
    var d := NatToString(n);
    assert IsDigits(d);
    ExponentTextParts(n, k);
    DecimalWithExponent(d, NatToString(k), n as real, k);
    ScaleByNat(n, k);
  }

  /** "1e3" reads as 1000. */
  lemma ExponentSpelling()
    ensures StringToNumber("1e3") == Some(1000.0)
  {
    StringToNumberExponent(1, 3);
    assert NatToString(1) + "e" + NatToString(3) == "1e3";
    assert Pow10(3) == 1000;
  }

  /** "0x10" reads as 16. */
  lemma HexSpelling()
    ensures StringToNumber("0x10") == Some(16.0)
  {
    assert "0x10"[2..] == "10" && "10"[..1] == "1";
  }

  /** Texts that are not numbers: Infinity (taken as NaN here), a bare exponent mark and a bare point. */
  lemma NotNumbers()
    ensures StringToNumber("Infinity") == None && StringToNumber("1e") == None && StringToNumber(".") == None
  {
    InfinityNotNumber();
    BareExponentNotNumber();
    BareDotNotNumber();
  }

  lemma InfinityNotNumber()
    ensures StringToNumber("Infinity") == None
  {
    assert ExponentMark("Infinity") == 8;
    assert "Infinity"[..8] == "Infinity";
    IndexOfSpec("Infinity", '.');
  }

  lemma BareExponentNotNumber()
    ensures StringToNumber("1e") == None
  {
    StringToNumberUnsigned("1e");
    assert ExponentMark("1e") == 1 && "1e"[1..] == "e" && "e"[1..] == [];
  }

  lemma BareDotNotNumber()
    ensures StringToNumber(".") == None
  {
    assert ExponentMark(".") == 0 || ExponentMark(".") == 1;
    assert ExponentMark(".") == 1 && "."[..1] == ".";
    IndexOfSpec(".", '.');
    assert "."[..0] == [] && "."[1..] == [];
  }


  /** The other spellings `Number()` accepts for whole numbers: an exponent, a zero fraction and a hexadecimal literal. */
  lemma StringToNumberSpellings()
    ensures StringToNumber("1e3") == Some(1000.0)
    ensures StringToNumber("10.0") == Some(10.0)
    ensures StringToNumber("0x10") == Some(16.0)
    ensures StringToNumber("Infinity") == None && StringToNumber("1e") == None && StringToNumber(".") == None
  {
    ExponentSpelling();
    StringToNumberZeroFraction(10);
    assert NatToString(10) == "10";
    assert "10" + ".0" == "10.0";
    HexSpelling();
    NotNumbers();
  }

  /**
   * Number(value), with NaN as None: numbers are themselves, booleans 1
   * and 0, null and the empty array 0, a string the `Number()` reading of
   * its trimmed text (blank is 0); anything else (a missing value, an
   * object, a non-empty array) is NaN.
   */
  function ToNumber(j: Option<Json>): (r: Option<real>)
    ensures j.Some? && j.value.JNum? ==> r == Some(j.value.n)
    ensures j.None? || (j.Some? && j.value.JObj?) ==> r.None?
  {
    match j
    case None => None
    case Some(v) =>
      match v
      case JNull => Some(0.0)
      case JBool(b) => Some(if b then 1.0 else 0.0)
      case JNum(n) => Some(n)
      case JStr(s) => StringToNumber(Trim(JsTrim, s))
      case JArr(items) => if items == [] then Some(0.0) else None
      case JObj(_) => None
  }

  /** Number(value) is a positive integer: the test toGridCount, resolveGrid and toPositiveInt share. */
  predicate IsPositiveIntNumber(x: Option<real>)
  {
    x.Some? && IsIntegral(x.value) && x.value > 0.0
  }

  /** The integer of a positive-integer number. */
  function PositiveIntOf(x: Option<real>): (n: int)
    requires IsPositiveIntNumber(x)
    ensures n > 0 && n as real == x.value
  {
    x.value.Floor
  }

  /** A JavaScript truthy value: present and not null, false, 0 or the empty string. */
  predicate Truthy(j: Option<Json>)
  {
    j.Some? && j.value != JNull && j.value != JBool(false) && j.value != JNum(0.0) && j.value != JStr("")
  }

  /** The JavaScript test `value && typeof value === 'object'`: objects and arrays. */
  predicate IsObjectLike(v: Option<Json>)
  {
    v.Some? && (v.value.JObj? || v.value.JArr?)
  }

  /** value == null: null or missing. */
  predicate IsNullish(j: Option<Json>)
  {
    j.None? || j == Some(JNull)
  }

  /** a ?? b */
  function Coalesce(a: Option<Json>, b: Option<Json>): (r: Option<Json>)
    ensures IsNullish(a) ==> r == b
    ensures !IsNullish(a) ==> r == a
  {
    if IsNullish(a) then b else a
  }

  /**
   * The text String() gives a value: None for a number whose text is not
   * plain decimal digits (a fraction, or 10^21 and beyond).
   */
  function JsText(j: Json): Option<string>
  {
    match j
    case JNull => Some("null")
    case JBool(b) => Some(if b then "true" else "false")
    case JNum(n) => if IsIntegral(n) && -1_000_000_000_000_000_000_000 < n.Floor < 1_000_000_000_000_000_000_000 then Some(IntToString(n.Floor)) else None
    case JStr(s) => Some(s)
    case JObj(_) => Some("[object Object]")
    case JArr(items) => ItemsText(items)
  }

  /** Array.prototype.join(','): null elements give the empty text. */
  function ItemsText(items: seq<Json>): Option<string>
    decreases items
  {
    if items == [] then Some("")
    else
      var head := if items[0] == JNull then Some("") else JsText(items[0]);
      if |items| == 1 then head
      else
        var tail := ItemsText(items[1..]);
        if head.None? || tail.None? then None else Some(head.value + "," + tail.value)
  }

  /**
   * parseInt(String(x), 10) for a number: its integer part, truncated
   * toward zero, when its text is plain decimal (zero, or a magnitude from
   * 10^-6 up to 10^21); the exponent forms outside that range are not read
   * here (None).
   */
  function NumberParseInt(x: real): (r: Option<int>)
    ensures 1.0 <= x < 1_000_000_000_000_000_000_000.0 ==> r == Some(x.Floor)
    ensures x < 1.0 ==> r.None? || r.value <= 0
  {
    if x == 0.0 then Some(0)
    else if 0.000001 <= x < 1_000_000_000_000_000_000_000.0 then Some(x.Floor)
    else if -1_000_000_000_000_000_000_000.0 < x <= -0.000001 then Some(0 - (0.0 - x).Floor)
    else None
  }

  /** parseInt(String(value ?? ''), 10). */
  function ParseIntOfValue(value: Option<Json>): (r: Option<int>)
    ensures IsNullish(value) ==> r.None?
  {
    match value
    case None => None
    case Some(JNull) => None
    case Some(JNum(x)) => NumberParseInt(x)
    case Some(v) => var text := JsText(v); if text.None? then None else ParseInt(text.value)
  }

  /** The failure of iterating over a value that is not iterable (a number, a boolean or an object). */
  datatype IterError = NotIterable

  /**
   * `value ?? []` iterated with for-of: nothing for a missing or null
   * value, the elements of an array, and nothing for a string (its
   * characters carry none of the fields the loops of the model read).
   */
  function Iterated(v: Option<Json>): Result<seq<Json>, IterError>
  {
    match v
    case None => Ok([])
    case Some(JNull) => Ok([])
    case Some(JArr(items)) => Ok(items)
    case Some(JStr(_)) => Ok([])
    case Some(_) => Err(NotIterable)
  }
}
