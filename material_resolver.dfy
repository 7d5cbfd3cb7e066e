/**
 * The material resolver of the glTF writer: the colour, alpha mode, texture
 * and grouping key of the material a visible face is drawn with, looked up
 * in the texture lookup tables the texture report provides.
 */
module MaterialResolver {
  import opened Wrappers
  import opened Strings
  import opened Json
  import opened Scene
  import TileNormalization

  /** The alpha of a non-solid face when no finite translucent alpha is configured. */
  const DEFAULT_TRANSLUCENT_ALPHA: real := 0.35

  /** 2^32: `>>>` reads its operand as an unsigned 32-bit pattern. */
  const TWO_POW_32: int := 0x1_0000_0000

  /** 2^24: a tint keeps the low 24 bits of its integer. */
  const TWO_POW_24: int := 0x100_0000

  datatype Rgb = Rgb(r: real, g: real, b: real)
  datatype Rgba = Rgba(r: real, g: real, b: real, a: real)
  datatype AlphaMode = Opaque | Blend

  /**
   * The options resolveMaterial reads: translucentAlpha when it is a finite
   * number (None otherwise) and the texture lookup object, if any.
   */
  datatype MaterialOptions = MaterialOptions(translucentAlpha: Option<real>, textureLookup: Option<Json>)

  /**
   * A resolved material. Its alphaCutoff is always null and its textureKey
   * always equals its textureUri, so neither is kept separately.
   */
  datatype Material = Material(
    materialKey: string,
    materialName: string,
    baseColorFactor: Rgba,
    alphaMode: AlphaMode,
    doubleSided: bool,
    textureUri: Option<string>,
    textureAnimation: Option<Json>)

  predicate InUnit(x: real)
  {
    0.0 <= x <= 1.0
  }

  predicate RgbInUnit(c: Rgb)
  {
    InUnit(c.r) && InUnit(c.g) && InUnit(c.b)
  }

  predicate RgbaInUnit(c: Rgba)
  {
    InUnit(c.r) && InUnit(c.g) && InUnit(c.b) && InUnit(c.a)
  }

  // ---------------------------------------------------------------------------
  // Numbers
  // ---------------------------------------------------------------------------

  /**
   * clamp01: a non-finite value (None) gives 0, a value at or below 0 gives
   * 0, one at or above 1 gives 1, and a value in between is kept.
   */
  function Clamp01(x: Option<real>): (r: real)
    ensures InUnit(r)
    ensures x.None? ==> r == 0.0
    ensures x.Some? && InUnit(x.value) ==> r == x.value
    ensures x.Some? && x.value < 0.0 ==> r == 0.0
    ensures x.Some? && x.value > 1.0 ==> r == 1.0
  {
    if x.None? then 0.0
    else if x.value <= 0.0 then 0.0
    else if x.value >= 1.0 then 1.0
    else x.value
  }

  /** Math.round: the nearest integer, halves rounded up. */
  function Round(x: real): int
  {
    (x + 0.5).Floor
  }

  /** A channel value byte/255 rounds back to its byte. */
  lemma RoundByte(b: int)
    ensures Round((b as real / 255.0) * 255.0) == b
  {
    assert (b as real / 255.0) * 255.0 == b as real;
  }

  /** The byte of a channel value in [0, 1]. */
  function ChannelByte(x: real): (b: int)
    requires InUnit(x)
    ensures 0 <= b < 256
  {
    Round(x * 255.0)
  }

  /** Three bytes, most significant first, taken from a 24-bit number, put back together give the number. */
  lemma ThreeBytes(u: int)
    requires 0 <= u < TWO_POW_24
    ensures ((u / 0x1_0000) % 256 * 256 + (u / 0x100) % 256) * 256 + u % 256 == u
  {
    var hi := u / 0x1_0000;
    var rest := u % 0x1_0000;
    assert u == hi * 0x1_0000 + rest;
    assert hi < 256;
    assert u / 0x100 == hi * 256 + rest / 0x100;
    assert (u / 0x100) % 256 == rest / 0x100;
    assert u % 256 == rest % 256;
  }

  // ---------------------------------------------------------------------------
  // rgbaFromArgb
  // ---------------------------------------------------------------------------

  /** (argb >>> 8k) & 255: byte k of the colour's unsigned 32-bit pattern. */
  function ArgbByte(argb: int, k: nat): (b: int)
    requires k < 4
    ensures 0 <= b < 256
  {
    var u := argb % TWO_POW_32;
    (u / (if k == 0 then 1 else if k == 1 then 0x100 else if k == 2 then 0x1_0000 else 0x100_0000)) % 256
  }

  /**
   * rgbaFromArgb: each channel is its byte over 255, in (r, g, b, a) order,
   * with alpha the top byte of the 32-bit pattern (so a negative Java int
   * and its unsigned counterpart give the same colour).
   */
  function RgbaFromArgb(argb: int): (c: Rgba)
    ensures RgbaInUnit(c)
  {
    Rgba(ArgbByte(argb, 2) as real / 255.0, ArgbByte(argb, 1) as real / 255.0,
         ArgbByte(argb, 0) as real / 255.0, ArgbByte(argb, 3) as real / 255.0)
  }

  /** The four bytes of a 32-bit pattern, most significant first, put back together give the pattern. */
  lemma FourBytes(u: int)
    requires 0 <= u < TWO_POW_32
    ensures (((u / 0x100_0000) % 256 * 256 + (u / 0x1_0000) % 256) * 256 + (u / 0x100) % 256) * 256 + u % 256 == u
  {
    var top := u / 0x100_0000;
    var low := u % 0x100_0000;
    assert u == top * 0x100_0000 + low;
    assert top < 256;
    HighBytes(top, low);
    ThreeBytes(low);
  }

  /** Adding a top byte above 24 low bits leaves the three lower bytes alone. */
  lemma HighBytes(top: int, low: int)
    requires 0 <= top < 256 && 0 <= low < TWO_POW_24
    ensures ((top * 0x100_0000 + low) / 0x1_0000) % 256 == (low / 0x1_0000) % 256
    ensures ((top * 0x100_0000 + low) / 0x100) % 256 == (low / 0x100) % 256
    ensures (top * 0x100_0000 + low) % 256 == low % 256
  {
    var u := top * 0x100_0000 + low;
    assert u / 0x1_0000 == top * 256 + low / 0x1_0000;
    assert u / 0x100 == top * 0x1_0000 + low / 0x100;
  }

  /** Each channel of the decoded colour rounds back to its byte. */
  lemma RgbaChannelBytes(argb: int)
    ensures var c := RgbaFromArgb(argb);
            && ChannelByte(c.a) == ArgbByte(argb, 3) && ChannelByte(c.r) == ArgbByte(argb, 2)
            && ChannelByte(c.g) == ArgbByte(argb, 1) && ChannelByte(c.b) == ArgbByte(argb, 0)
  {
    RoundByte(ArgbByte(argb, 0));
    RoundByte(ArgbByte(argb, 1));
    RoundByte(ArgbByte(argb, 2));
    RoundByte(ArgbByte(argb, 3));
  }

  /** The colour's four channel bytes, alpha first, rebuild the low 32 bits of the ARGB integer. */
  lemma RgbaFromArgbBytes(argb: int)
    ensures var c := RgbaFromArgb(argb);
            ((ChannelByte(c.a) * 256 + ChannelByte(c.r)) * 256 + ChannelByte(c.g)) * 256 + ChannelByte(c.b)
            == argb % TWO_POW_32
  {
    RgbaChannelBytes(argb);
    FourBytes(argb % TWO_POW_32);
  }

  /** The case in the resolver's tests: 0x80ff0000 is opaque-red at alpha 128/255, signed or not. */
  lemma RgbaFromArgbExample()
    ensures RgbaFromArgb(0x80ff_0000) == Rgba(1.0, 0.0, 0.0, 128.0 / 255.0)
    ensures RgbaFromArgb(0x80ff_0000 - TWO_POW_32) == RgbaFromArgb(0x80ff_0000)
    ensures RgbaFromArgb(-1) == Rgba(1.0, 1.0, 1.0, 1.0)
  {
  }

  // ---------------------------------------------------------------------------
  // quantizeColor and materialKey
  // ---------------------------------------------------------------------------

  /** The lower-case hex digit of 0..15. */
  function HexDigit(d: int): (c: char)
    requires 0 <= d < 16
    ensures IsHexChar(c) && HexCharValue(c) == d
  {
    if d < 10 then ('0' as int + d) as char else ('a' as int + d - 10) as char
  }

  predicate IsHexChar(c: char)
  {
    '0' <= c <= '9' || 'a' <= c <= 'f'
  }

  function HexCharValue(c: char): int
    requires IsHexChar(c)
  {
    if '0' <= c <= '9' then c as int - '0' as int else c as int - 'a' as int + 10
  }

  /** Number.prototype.toString(16) on a natural number: lower-case hex digits. */
  function HexText(n: nat): (s: string)
    ensures |s| >= 1
    decreases n
  {
    if n < 16 then [HexDigit(n)] else HexText(n / 16) + [HexDigit(n % 16)]
  }

  /** padStart(len, fill) with a one-character fill. */
  function PadStart(s: string, len: nat, fill: char): (r: string)
    ensures |r| == if |s| >= len then |s| else len
  {
    if |s| >= len then s else seq(len - |s|, _ => fill) + s
  }

  /** The byte quantizeColor writes: round(clamp01(v) * 255). */
  function QuantizedByte(v: Option<real>): (b: int)
    ensures 0 <= b < 256
  {
    ChannelByte(Clamp01(v))
  }

  /**
   * quantizeColor: the channel's byte as exactly two lower-case hex digits,
   * which read back as that byte.
   */
  function QuantizeColor(v: Option<real>): (s: string)
    ensures |s| == 2 && IsHexChar(s[0]) && IsHexChar(s[1])
    ensures HexCharValue(s[0]) * 16 + HexCharValue(s[1]) == QuantizedByte(v)
  {
    ByteHex(QuantizedByte(v));
    PadStart(HexText(QuantizedByte(v)), 2, '0')
  }

  /** A byte's hex text, padded to two characters, is its high digit and then its low digit. */
  lemma ByteHex(n: nat)
    requires n < 256
    ensures PadStart(HexText(n), 2, '0') == [HexDigit(n / 16), HexDigit(n % 16)]
  {
    if n >= 16 {
      assert HexText(n / 16) == [HexDigit(n / 16)];
    }
  }

  /** A colour channel decoded from a byte quantizes back to that byte. */
  lemma QuantizeArgbChannel(argb: int, k: nat)
    requires k < 4
    ensures QuantizedByte(Some(ArgbByte(argb, k) as real / 255.0)) == ArgbByte(argb, k)
  {
    RoundByte(ArgbByte(argb, k));
  }

  /** The pieces materialKey joins: block id, texture URI (empty when null) and the four quantized channels. */
  function KeyParts(blockId: string, textureUri: Option<string>, c: Rgba): seq<string>
  {
    [blockId, if textureUri.Some? then textureUri.value else "",
     QuantizeColor(Some(c.r)), QuantizeColor(Some(c.g)), QuantizeColor(Some(c.b)), QuantizeColor(Some(c.a))]
  }

  /** materialKey: the pieces joined with '|'. */
  function MaterialKey(blockId: string, textureUri: Option<string>, c: Rgba): string
  {
    Join(KeyParts(blockId, textureUri, c), "|")
  }

  /**
   * When neither the block id nor the URI contains '|', the key splits back
   * into its six pieces; so two such keys are equal exactly when block id,
   * URI text and the four channel bytes agree.
   */
  lemma MaterialKeySplit(blockId: string, textureUri: Option<string>, c: Rgba)
    requires '|' !in blockId && (textureUri.Some? ==> '|' !in textureUri.value)
    ensures Split(MaterialKey(blockId, textureUri, c), '|') == KeyParts(blockId, textureUri, c)
  {
    var parts := KeyParts(blockId, textureUri, c);
    forall i | 2 <= i < 6
      ensures '|' !in parts[i]
    {
      assert IsHexChar(parts[i][0]) && IsHexChar(parts[i][1]);
      assert parts[i] == [parts[i][0], parts[i][1]];
    }
    SplitJoin(parts, '|');
  }

  lemma MaterialKeyInjective(id1: string, uri1: Option<string>, c1: Rgba, id2: string, uri2: Option<string>, c2: Rgba)
    requires '|' !in id1 && (uri1.Some? ==> '|' !in uri1.value)
    requires '|' !in id2 && (uri2.Some? ==> '|' !in uri2.value)
    requires MaterialKey(id1, uri1, c1) == MaterialKey(id2, uri2, c2)
    ensures id1 == id2
    ensures (if uri1.Some? then uri1.value else "") == (if uri2.Some? then uri2.value else "")
    ensures QuantizedByte(Some(c1.r)) == QuantizedByte(Some(c2.r))
    ensures QuantizedByte(Some(c1.g)) == QuantizedByte(Some(c2.g))
    ensures QuantizedByte(Some(c1.b)) == QuantizedByte(Some(c2.b))
    ensures QuantizedByte(Some(c1.a)) == QuantizedByte(Some(c2.a))
  {
    MaterialKeySplit(id1, uri1, c1);
    MaterialKeySplit(id2, uri2, c2);
    var p1 := KeyParts(id1, uri1, c1);
    var p2 := KeyParts(id2, uri2, c2);
    assert p1 == p2;
    assert p1[2] == p2[2] && p1[3] == p2[3] && p1[4] == p2[4] && p1[5] == p2[5];
  }

  // ---------------------------------------------------------------------------
  // canonicalizeBlockState
  // ---------------------------------------------------------------------------

  /** One property pair of a block state: key=value, both trimmed. */
  datatype Prop = Prop(key: string, value: string)

  /**
   * A comma-separated piece of the property body as a pair: the trimmed
   * piece must hold '=' neither first nor last, and the trimmed key and
   * value must be non-empty; anything else is dropped.
   */
  function ParseProp(partRaw: string): (p: Option<Prop>)
    ensures p.Some? ==> p.value.key != [] && p.value.value != []
  {
    var part := Trim(JsTrim, partRaw);
    if part == [] then None
    else
      var eq := IndexOf(part, '=');
      if eq <= 0 || eq >= |part| - 1 then None
      else
        var key := Trim(JsTrim, part[..eq]);
        var value := Trim(JsTrim, part[eq + 1..]);
        if key == [] || value == [] then None else Some(Prop(key, value))
  }

  /** The property map being built: keys in first-insertion order and the latest value per key. */
  datatype PropMap = PropMap(order: seq<string>, values: map<string, string>)

  ghost predicate PropMapValid(pm: PropMap)
  {
    (forall i, j :: 0 <= i < j < |pm.order| ==> pm.order[i] != pm.order[j])
    && (forall k :: k in pm.values <==> k in pm.order)
  }

  /** map.set(key, value) for each well-formed piece in turn. */
  function PropsFold(parts: seq<string>): (pm: PropMap)
    ensures PropMapValid(pm)
    decreases |parts|
  {
    if parts == [] then PropMap([], map[])
    else
      var pm := PropsFold(parts[..|parts| - 1]);
      var p := ParseProp(parts[|parts| - 1]);
      if p.None? then pm
      else if p.value.key in pm.values then PropMap(pm.order, pm.values[p.value.key := p.value.value])
      else PropMap(pm.order + [p.value.key], pm.values[p.value.key := p.value.value])
  }

  /** The keys of the well-formed pieces. */
  ghost function ParsedKeys(parts: seq<string>): set<string>
  {
    set j | 0 <= j < |parts| && ParseProp(parts[j]).Some? :: ParseProp(parts[j]).value.key
  }

  /** The keys of a list are those of its prefix and that of its last piece, if well-formed. */
  lemma ParsedKeysSnoc(parts: seq<string>)
    requires parts != []
    ensures var last := ParseProp(parts[|parts| - 1]);
            ParsedKeys(parts) == ParsedKeys(parts[..|parts| - 1]) + (if last.Some? then {last.value.key} else {})
  {
    var init := parts[..|parts| - 1];
    forall j | 0 <= j < |init|
      ensures init[j] == parts[j]
    {
    }
  }

  /** The keys that survive are exactly the keys of the well-formed pieces. */
  lemma {:induction false} PropsFoldKeys(parts: seq<string>)
    ensures PropsFold(parts).values.Keys == ParsedKeys(parts)
    decreases |parts|
  {
    if parts != [] {
      PropsFoldKeys(parts[..|parts| - 1]);
      ParsedKeysSnoc(parts);
    }
  }

  /** A key's value is the value of the last well-formed piece with that key. */
  lemma {:induction false} PropsFoldLastValue(parts: seq<string>, j: nat)
    requires j < |parts| && ParseProp(parts[j]).Some?
    requires forall i :: j < i < |parts| && ParseProp(parts[i]).Some? ==> ParseProp(parts[i]).value.key != ParseProp(parts[j]).value.key
    ensures var p := ParseProp(parts[j]).value;
            p.key in PropsFold(parts).values && PropsFold(parts).values[p.key] == p.value
    decreases |parts|
  {
    if j < |parts| - 1 {
      var init := parts[..|parts| - 1];
      assert init[j] == parts[j];
      forall i | j < i < |init| && ParseProp(init[i]).Some?
        ensures ParseProp(init[i]).value.key != ParseProp(init[j]).value.key
      {
        assert init[i] == parts[i];
      }
      PropsFoldLastValue(init, j);
    }
  }

  /** Strictly increasing in code-unit order. */
  predicate StrictlySorted(ks: seq<string>)
  {
    forall i :: 0 <= i < |ks| - 1 ==> StringLess(ks[i], ks[i + 1])
  }

  function InsertKey(k: string, ks: seq<string>): (r: seq<string>)
    ensures |r| == |ks| + 1
    decreases |ks|
  {
    if ks == [] then [k]
    else if StringLess(ks[0], k) then [ks[0]] + InsertKey(k, ks[1..])
    else [k] + ks
  }

  /** The sort of the property keys (by key, the comparison keys are distinct). */
  function SortKeys(ks: seq<string>): (r: seq<string>)
    ensures |r| == |ks|
    decreases |ks|
  {
    if ks == [] then [] else InsertKey(ks[0], SortKeys(ks[1..]))
  }

  lemma {:induction false} InsertKeySpec(k: string, ks: seq<string>)
    requires StrictlySorted(ks) && k !in ks
    ensures StrictlySorted(InsertKey(k, ks))
    ensures multiset(InsertKey(k, ks)) == multiset(ks) + multiset{k}
    ensures InsertKey(k, ks)[0] == k || (ks != [] && InsertKey(k, ks)[0] == ks[0])
    decreases |ks|
  {
    if ks != [] {
      StringLessTrichotomy(ks[0], k);
      if StringLess(ks[0], k) {
        InsertKeySpec(k, ks[1..]);
        var rest := InsertKey(k, ks[1..]);
        assert ks == [ks[0]] + ks[1..];
        assert InsertKey(k, ks) == [ks[0]] + rest;
        assert rest[0] == k || rest[0] == ks[1];
      }
    }
  }

  /** Sorting distinct keys gives them strictly increasing, each exactly once. */
  lemma {:induction false} SortKeysSpec(ks: seq<string>)
    requires forall i, j :: 0 <= i < j < |ks| ==> ks[i] != ks[j]
    ensures StrictlySorted(SortKeys(ks))
    ensures multiset(SortKeys(ks)) == multiset(ks)
    decreases |ks|
  {
    if ks != [] {
      SortKeysSpec(ks[1..]);
      assert forall j :: 0 <= j < |ks| - 1 ==> ks[1..][j] == ks[j + 1];
      assert ks[0] !in ks[1..];
      assert ks[0] !in multiset(SortKeys(ks[1..]));
      InsertKeySpec(ks[0], SortKeys(ks[1..]));
      assert ks == [ks[0]] + ks[1..];
    }
  }

  /** The property keys in sorted order: strictly increasing, exactly the keys present. */
  function SortedKeysOf(pm: PropMap): (ks: seq<string>)
    requires PropMapValid(pm)
    ensures StrictlySorted(ks)
    ensures forall k :: k in ks <==> k in pm.values
  {
    SortKeysSpec(pm.order);
    var ks := SortKeys(pm.order);
    assert forall k :: k in ks <==> k in multiset(pm.order);
    ks
  }

  /** The "key=value" texts of the sorted keys. */
  function PairTexts(ks: seq<string>, values: map<string, string>): (r: seq<string>)
    requires forall k :: k in ks ==> k in values
    ensures |r| == |ks|
  {
    seq(|ks|, i requires 0 <= i < |ks| => ks[i] + "=" + values[ks[i]])
  }

  /** The trimmed state text. */
  function RawState(state: string): string
  {
    Trim(JsTrim, state)
  }

  /**
   * The property body: between the first '[' and the last ']' when that
   * comes after it, empty when it does not, and None when there is no '['.
   */
  function PropertyBody(state: string): (body: Option<string>)
  {
    var raw := RawState(state);
    var index := IndexOf(raw, '[');
    if index < 0 then None
    else
      var end := LastIndexOf(raw, ']');
      Some(if end > index then raw[index + 1..end] else "")
  }

  /** The properties parsed from the body's comma-separated pieces. */
  function StateProps(state: string): (pm: PropMap)
    ensures PropMapValid(pm)
  {
    var body := PropertyBody(state);
    if body.None? then PropMap([], map[]) else PropsFold(Split(body.value, ','))
  }

  /**
   * canonicalizeBlockState: the trimmed name before the first '[' followed,
   * when any well-formed property remains, by "[k=v,...]" with the keys
   * sorted and each key's last value; the whole trimmed text when there is
   * no '['.
   */
  function CanonicalizeBlockState(state: string): string
  {
    var raw := RawState(state);
    var index := IndexOf(raw, '[');
    if index < 0 then raw
    else
      var name := raw[..index];
      var body := PropertyBody(state).value;
      if IsBlank(JsTrim, body) then name
      else
        var pm := StateProps(state);
        if |pm.values| == 0 then name
        else name + "[" + Join(PairTexts(SortedKeysOf(pm), pm.values), ",") + "]"
  }

  /**
   * The canonical form: the bare name when no property survives; otherwise
   * the name, then the pairs in strictly increasing key order, one per
   * surviving key, each with the last value given for its key.
   */
  lemma CanonicalizeBlockStateSpec(state: string)
    ensures var raw := RawState(state);
            var pm := StateProps(state);
            '[' !in raw ==> CanonicalizeBlockState(state) == raw
    ensures var raw := RawState(state);
            var pm := StateProps(state);
            '[' in raw && |pm.values| == 0 ==> CanonicalizeBlockState(state) == TileNormalization.BlockStateName(raw)
    ensures var raw := RawState(state);
            var pm := StateProps(state);
            var keys := SortedKeysOf(pm);
            '[' in raw && |pm.values| > 0 ==>
              && StrictlySorted(keys)
              && (forall k :: k in keys <==> k in pm.values)
              && CanonicalizeBlockState(state) == TileNormalization.BlockStateName(raw) + "[" + Join(PairTexts(keys, pm.values), ",") + "]"
  {
    var raw := RawState(state);
    var pm := StateProps(state);
    IndexOfSpec(raw, '[');
    if '[' in raw && |pm.values| > 0 {
      var body := PropertyBody(state).value;
      if IsBlank(JsTrim, body) {
        BlankBodyHasNoProps(body);
      }
    }
  }

  /** A blank body has no comma, so it is one piece, and that piece is not well-formed. */
  lemma BlankBodyHasNoProps(body: string)
    requires IsBlank(JsTrim, body)
    ensures |PropsFold(Split(body, ',')).values| == 0
  {
    BlankAll(body);
    assert !IsTrimmable(JsTrim, ',');
    assert ',' !in body;
    IndexOfSpec(body, ',');
    assert Split(body, ',') == [body];
    assert ParseProp(body).None?;
    assert [body][..0] == [];
  }

  /** A blank text consists of trimmable characters only. */
  lemma BlankAll(s: string)
    requires IsBlank(JsTrim, s)
    ensures forall k :: 0 <= k < |s| ==> IsTrimmable(JsTrim, s[k])
  {
    TrimSpec(JsTrim, s);
    LeadingCountSpec(JsTrim, s);
  }

  // ---------------------------------------------------------------------------
  // legacyTextureAliases
  // ---------------------------------------------------------------------------

  /** The fixed aliases from legacy (pre-flattening) names to modern texture keys. */
  const LEGACY_TEXTURE_ALIASES: map<string, string> := map[
    "littletiles:ltcoloredblock" := "littletiles:colored_clean",
    "littletiles:ltcoloredblock:10" := "littletiles:colored_clay",
    "littletiles:ltcoloredblock2:2" := "littletiles:colored_stone",
    "minecraft:planks" := "minecraft:oak_planks",
    "minecraft:stone:0" := "minecraft:stone",
    "minecraft:stone:2" := "minecraft:polished_granite",
    "minecraft:stone:4" := "minecraft:polished_diorite",
    "minecraft:leaves:2" := "minecraft:birch_leaves"
  ]

  function AliasOf(key: string): Option<string>
  {
    if key in LEGACY_TEXTURE_ALIASES then Some(LEGACY_TEXTURE_ALIASES[key]) else None
  }

  /** normalizeLegacyStateKey: trimmed and lower-cased. */
  function LegacyKey(value: string): string
  {
    ToLower(Trim(JsTrim, value))
  }

  /** replace(/:-?\d+$/, ''): drop a final ':' followed by an optional '-' and digits. */
  function StripMetaSuffix(s: string): (r: string)
    ensures |r| <= |s|
  {
    var i := LastIndexOf(s, ':');
    if i >= 0 && TileNormalization.IsMeta(s[i + 1..]) then s[..i] else s
  }

  /** pushLegacyAlias: append a found alias unless it is already there. */
  function PushAlias(out: seq<string>, alias: Option<string>): seq<string>
  {
    if alias.None? || alias.value in out then out else out + [alias.value]
  }

  /** The alias of a key and, when it has a ':' and a metadata suffix, of the key without the suffix. */
  function PushKeyAliases(out: seq<string>, key: string): seq<string>
  {
    PushAlias(out, AliasOf(key))
  }

  function PushStrippedAlias(out: seq<string>, key: string): seq<string>
  {
    if ':' in key && StripMetaSuffix(key) != key then PushAlias(out, AliasOf(StripMetaSuffix(key))) else out
  }

  /**
   * legacyTextureAliases: the aliases of the normalised state and id, then
   * of both without their metadata suffix, each once.
   */
  function LegacyTextureAliases(blockState: string, blockId: string): seq<string>
  {
    var ns := LegacyKey(blockState);
    var ni := LegacyKey(blockId);
    PushStrippedAlias(PushStrippedAlias(PushKeyAliases(PushKeyAliases([], ns), ni), ns), ni)
  }

  predicate NoDuplicates(xs: seq<string>)
  {
    forall i, j :: 0 <= i < j < |xs| ==> xs[i] != xs[j]
  }

  lemma PushAliasSpec(out: seq<string>, alias: Option<string>)
    requires NoDuplicates(out)
    ensures NoDuplicates(PushAlias(out, alias))
    ensures forall a :: a in PushAlias(out, alias) <==> a in out || (alias.Some? && a == alias.value)
  {
  }

  /**
   * The aliases hold no duplicates; each is an alias-table value; and the
   * aliases of the normalised state and id, with or without a metadata
   * suffix, are all present.
   */
  lemma LegacyTextureAliasesSpec(blockState: string, blockId: string)
    ensures NoDuplicates(LegacyTextureAliases(blockState, blockId))
    ensures forall a :: a in LegacyTextureAliases(blockState, blockId) ==> a in LEGACY_TEXTURE_ALIASES.Values
    ensures forall key :: (key == LegacyKey(blockState) || key == LegacyKey(blockId)) ==>
              (AliasOf(key).Some? ==> AliasOf(key).value in LegacyTextureAliases(blockState, blockId))
              && (AliasOf(StripMetaSuffix(key)).Some? ==> AliasOf(StripMetaSuffix(key)).value in LegacyTextureAliases(blockState, blockId))
  {
    var ns := LegacyKey(blockState);
    var ni := LegacyKey(blockId);
    var o1 := PushKeyAliases([], ns);
    var o2 := PushKeyAliases(o1, ni);
    var o3 := PushStrippedAlias(o2, ns);
    var o4 := PushStrippedAlias(o3, ni);
    PushAliasSpec([], AliasOf(ns));
    PushAliasSpec(o1, AliasOf(ni));
    PushAliasSpec(o2, AliasOf(StripMetaSuffix(ns)));
    PushAliasSpec(o3, AliasOf(StripMetaSuffix(ni)));
    forall key | key == ns || key == ni
      ensures AliasOf(StripMetaSuffix(key)).Some? ==> AliasOf(StripMetaSuffix(key)).value in o4
    {
      StripMetaSuffixSpec(key);
    }
  }

  /** Stripping changes a key only when it has a ':'. */
  lemma StripMetaSuffixSpec(s: string)
    ensures StripMetaSuffix(s) != s ==> ':' in s
  {
    LastIndexOfSpec(s, ':');
  }

  // ---------------------------------------------------------------------------
  // Texture lookups
  // ---------------------------------------------------------------------------

  /**
   * table[key] for a lookup table that must be an object: nothing when the
   * table is missing or not an object.
   */
  function TableEntry(table: Option<Json>, key: string): Option<Json>
  {
    GetOpt(table, key)
  }

  /** The entry, when it is a non-empty string. */
  function UriEntry(table: Option<Json>, key: string): (r: Option<string>)
    ensures r.Some? ==> r.value != [] && TableEntry(table, key) == Some(JStr(r.value))
  {
    var v := TableEntry(table, key);
    if v.Some? && v.value.JStr? && v.value.s != [] then Some(v.value.s) else None
  }

  /** Which of the two tables a candidate key is looked up in. */
  datatype TableName = ByBlockState | ByBlockId

  /** The alias candidates, in order: the alias as a state, canonicalised as a state, as an id. */
  function AliasCandidates(aliases: seq<string>): seq<(TableName, string)>
  {
    if aliases == [] then []
    else [(ByBlockState, aliases[0]), (ByBlockState, CanonicalizeBlockState(aliases[0])), (ByBlockId, aliases[0])]
         + AliasCandidates(aliases[1..])
  }

  /**
   * The order in which the texture URI is searched: the raw state, the
   * canonical state, the block id, then the legacy aliases.
   */
  function UriCandidates(blockState: string, blockId: string): seq<(TableName, string)>
  {
    CandidatesFrom(blockState, CanonicalizeBlockState(blockState), blockId, LegacyTextureAliases(blockState, blockId))
  }

  function CandidatesFrom(blockState: string, canonical: string, blockId: string, aliases: seq<string>): seq<(TableName, string)>
  {
    [(ByBlockState, blockState), (ByBlockState, canonical), (ByBlockId, blockId)] + AliasCandidates(aliases)
  }

  function CandidateUri(lookup: Option<Json>, c: (TableName, string)): Option<string>
  {
    UriEntry(GetOpt(lookup, if c.0 == ByBlockState then "byBlockState" else "byBlockId"), c.1)
  }

  /** The first candidate whose entry is a non-empty string. */
  function FirstUri(lookup: Option<Json>, cs: seq<(TableName, string)>): (r: Option<string>)
    ensures r.Some? ==> r.value != [] && exists i :: 0 <= i < |cs| && CandidateUri(lookup, cs[i]) == r
    ensures r.None? ==> forall i :: 0 <= i < |cs| ==> CandidateUri(lookup, cs[i]).None?
  {
    if cs == [] then None
    else if CandidateUri(lookup, cs[0]).Some? then CandidateUri(lookup, cs[0])
    else
      var r := FirstUri(lookup, cs[1..]);
      assert forall i :: 1 <= i < |cs| ==> cs[i] == cs[1..][i - 1];
      r
  }

  /** FirstUri on a list with a first candidate. */
  lemma FirstUriCons(lookup: Option<Json>, c: (TableName, string), rest: seq<(TableName, string)>)
    ensures FirstUri(lookup, [c] + rest) == if CandidateUri(lookup, c).Some? then CandidateUri(lookup, c) else FirstUri(lookup, rest)
  {
    assert ([c] + rest)[1..] == rest;
  }

  /** The alias loop of resolveTextureUri. */
  function AliasUri(byState: Option<Json>, byId: Option<Json>, aliases: seq<string>): Option<string>
  {
    if aliases == [] then None
    else
      var fromState := UriEntry(byState, aliases[0]);
      if fromState.Some? then fromState
      else
        var fromCanonicalAlias := UriEntry(byState, CanonicalizeBlockState(aliases[0]));
        if fromCanonicalAlias.Some? then fromCanonicalAlias
        else
          var fromAliasId := UriEntry(byId, aliases[0]);
          if fromAliasId.Some? then fromAliasId else AliasUri(byState, byId, aliases[1..])
  }

  /** resolveTextureUri. */
  function ResolveTextureUri(blockState: string, blockId: string, lookup: Option<Json>): Option<string>
  {
    UriSearch(lookup, blockState, CanonicalizeBlockState(blockState), blockId, LegacyTextureAliases(blockState, blockId))
  }

  /** The body of resolveTextureUri, given the canonical state and the aliases. */
  function UriSearch(lookup: Option<Json>, blockState: string, canonical: string, blockId: string, aliases: seq<string>): Option<string>
  {
    var byState := GetOpt(lookup, "byBlockState");
    var byId := GetOpt(lookup, "byBlockId");
    var direct := UriEntry(byState, blockState);
    if direct.Some? then direct
    else
      var fromCanonical := UriEntry(byState, canonical);
      if fromCanonical.Some? then fromCanonical
      else
        var fromId := UriEntry(byId, blockId);
        if fromId.Some? then fromId
        else AliasUri(byState, byId, aliases)
  }

  lemma {:induction false} AliasUriFirst(lookup: Option<Json>, aliases: seq<string>)
    ensures AliasUri(GetOpt(lookup, "byBlockState"), GetOpt(lookup, "byBlockId"), aliases) == FirstUri(lookup, AliasCandidates(aliases))
    decreases |aliases|
  {
    if aliases != [] {
      AliasUriFirst(lookup, aliases[1..]);
      var a := aliases[0];
      var c0, c1, c2 := (ByBlockState, a), (ByBlockState, CanonicalizeBlockState(a)), (ByBlockId, a);
      var tail := AliasCandidates(aliases[1..]);
      assert AliasCandidates(aliases) == [c0] + ([c1] + ([c2] + tail));
      FirstUriCons(lookup, c0, [c1] + ([c2] + tail));
      FirstUriCons(lookup, c1, [c2] + tail);
      FirstUriCons(lookup, c2, tail);
    }
  }

  lemma UriSearchFirst(lookup: Option<Json>, blockState: string, canonical: string, blockId: string, aliases: seq<string>)
    ensures UriSearch(lookup, blockState, canonical, blockId, aliases) == FirstUri(lookup, CandidatesFrom(blockState, canonical, blockId, aliases))
  {
    var c0, c1, c2 := (ByBlockState, blockState), (ByBlockState, canonical), (ByBlockId, blockId);
    var tail := AliasCandidates(aliases);
    AliasUriFirst(lookup, aliases);
    assert CandidatesFrom(blockState, canonical, blockId, aliases) == [c0] + ([c1] + ([c2] + tail));
    FirstUriCons(lookup, c0, [c1] + ([c2] + tail));
    FirstUriCons(lookup, c1, [c2] + tail);
    FirstUriCons(lookup, c2, tail);
  }

  /**
   * The texture URI is the first non-empty string met in the candidate
   * order; it is never empty, and it is None only when no candidate has one.
   */
  lemma ResolveTextureUriFirst(blockState: string, blockId: string, lookup: Option<Json>)
    ensures ResolveTextureUri(blockState, blockId, lookup) == FirstUri(lookup, UriCandidates(blockState, blockId))
    ensures ResolveTextureUri(blockState, blockId, lookup).Some? ==> ResolveTextureUri(blockState, blockId, lookup).value != []
  {
    UriSearchFirst(lookup, blockState, CanonicalizeBlockState(blockState), blockId, LegacyTextureAliases(blockState, blockId));
  }

  /** The trimmed text of an optional URI (String(uri ?? '').trim()). */
  function UriKey(uri: Option<string>): string
  {
    if uri.None? then "" else Trim(JsTrim, uri.value)
  }

  /** resolveTextureAnimation: the object stored under the trimmed URI in animationByTextureUri. */
  function ResolveTextureAnimation(textureUri: Option<string>, lookup: Option<Json>): (r: Option<Json>)
    ensures r.Some? ==> UriKey(textureUri) != [] && (r.value.JObj? || r.value.JArr?)
  {
    var key := UriKey(textureUri);
    if key == [] then None
    else
      var metadata := TableEntry(GetOpt(lookup, "animationByTextureUri"), key);
      if metadata.Some? && (metadata.value.JObj? || metadata.value.JArr?) then metadata else None
  }

  /** resolveTextureHasAlpha: alphaByTextureUri holds exactly true under the trimmed URI. */
  function ResolveTextureHasAlpha(textureUri: Option<string>, lookup: Option<Json>): (r: bool)
    ensures r ==> UriKey(textureUri) != []
  {
    var key := UriKey(textureUri);
    key != [] && IsBool(TableEntry(GetOpt(lookup, "alphaByTextureUri"), key), true)
  }

  // ---------------------------------------------------------------------------
  // Tints
  // ---------------------------------------------------------------------------

  /**
   * normalizeTintRgb: an integer tint keeps its low 24 bits (value & 0xFFFFFF)
   * and gives its three bytes over 255; anything else gives no tint.
   */
  function NormalizeTintRgb(v: Option<Json>): (t: Option<Rgb>)
    ensures t.Some? <==> IsInteger(v)
    ensures t.Some? ==> RgbInUnit(t.value)
  {
    if !IsInteger(v) then None
    else
      var tint := AsInt(v) % TWO_POW_24;
      Some(Rgb(((tint / 0x1_0000) % 256) as real / 255.0, ((tint / 0x100) % 256) as real / 255.0,
               (tint % 256) as real / 255.0))
  }

  /** The tint's bytes rebuild the tint integer masked to 24 bits. */
  lemma NormalizeTintRgbBytes(v: Option<Json>)
    requires IsInteger(v)
    ensures var t := NormalizeTintRgb(v).value;
            (ChannelByte(t.r) * 256 + ChannelByte(t.g)) * 256 + ChannelByte(t.b) == AsInt(v) % TWO_POW_24
  {
    var tint := AsInt(v) % TWO_POW_24;
    RoundByte((tint / 0x1_0000) % 256);
    RoundByte((tint / 0x100) % 256);
    RoundByte(tint % 256);
    ThreeBytes(tint);
  }

  /** The tint of one key of a tint table (skipped when the key is empty). */
  function StateTint(byState: Option<Json>, candidate: string): Option<Rgb>
  {
    if candidate == [] then None else NormalizeTintRgb(TableEntry(byState, candidate))
  }

  /** The alias loop of resolveTintRgb: the alias's state entry (or, when that is null, its canonical entry), then its id entry. */
  function AliasTint(byState: Option<Json>, byId: Option<Json>, aliases: seq<string>): (t: Option<Rgb>)
    ensures t.Some? ==> RgbInUnit(t.value)
  {
    if aliases == [] then None
    else
      var fromState := NormalizeTintRgb(Coalesce(TableEntry(byState, aliases[0]), TableEntry(byState, CanonicalizeBlockState(aliases[0]))));
      if fromState.Some? then fromState
      else
        var fromId := NormalizeTintRgb(TableEntry(byId, aliases[0]));
        if fromId.Some? then fromId else AliasTint(byState, byId, aliases[1..])
  }

  /**
   * resolveTintRgb: the integer tint of the raw state, else of the canonical
   * state, else of the block id, else of the legacy aliases.
   */
  function ResolveTintRgb(blockState: string, blockId: string, lookup: Option<Json>): (t: Option<Rgb>)
    ensures t.Some? ==> RgbInUnit(t.value)
    ensures blockState != [] && IsInteger(TableEntry(GetOpt(lookup, "tintByBlockState"), blockState)) ==>
              t == NormalizeTintRgb(TableEntry(GetOpt(lookup, "tintByBlockState"), blockState))
  {
    var byState := GetOpt(lookup, "tintByBlockState");
    var byId := GetOpt(lookup, "tintByBlockId");
    var raw := StateTint(byState, blockState);
    if raw.Some? then raw
    else
      var canonical := StateTint(byState, CanonicalizeBlockState(blockState));
      if canonical.Some? then canonical
      else
        var fromId := NormalizeTintRgb(TableEntry(byId, blockId));
        if fromId.Some? then fromId
        else AliasTint(byState, byId, LegacyTextureAliases(blockState, blockId))
  }

  /**
   * applyTintRgb: without a tint the colour is unchanged; with one each
   * channel is the clamped product, which is the plain product when both
   * factors lie in [0, 1].
   */
  function ApplyTintRgb(rgb: Rgb, tint: Option<Rgb>): (r: Rgb)
    ensures tint.None? ==> r == rgb
    ensures tint.Some? ==> RgbInUnit(r)
    ensures tint.Some? && RgbInUnit(rgb) && RgbInUnit(tint.value) ==>
              r == Rgb(rgb.r * tint.value.r, rgb.g * tint.value.g, rgb.b * tint.value.b)
  {
    if tint.None? then rgb
    else
      ProductInUnit(rgb.r, tint.value.r);
      ProductInUnit(rgb.g, tint.value.g);
      ProductInUnit(rgb.b, tint.value.b);
      Rgb(Clamp01(Some(rgb.r * tint.value.r)), Clamp01(Some(rgb.g * tint.value.g)), Clamp01(Some(rgb.b * tint.value.b)))
  }

  lemma ProductInUnit(x: real, y: real)
    ensures InUnit(x) && InUnit(y) ==> InUnit(x * y)
  {
    if InUnit(x) && InUnit(y) {
      MulNonneg(x, y);
      MulNonneg(1.0 - x, y);
    }
  }

  lemma MulNonneg(a: real, b: real)
    requires 0.0 <= a && 0.0 <= b
    ensures 0.0 <= a * b
  {
  }

  // ---------------------------------------------------------------------------
  // resolveMaterial
  // ---------------------------------------------------------------------------

  /** The alpha of a face before texture alpha is considered. */
  function BaseAlpha(colorAlpha: real, providesSolidFace: bool, translucentAlpha: Option<real>): real
  {
    if colorAlpha < 1.0 then colorAlpha
    else if !providesSolidFace then Clamp01(Some(if translucentAlpha.Some? then translucentAlpha.value else DEFAULT_TRANSLUCENT_ALPHA))
    else 1.0
  }

  /** resolveMaterial for a visible face. */
  function ResolveMaterial(face: VisibleFace, options: MaterialOptions): Material
  {
    var lookup := options.textureLookup;
    var textureUri := ResolveTextureUri(face.blockState, face.blockId, lookup);
    var textureAnimation := ResolveTextureAnimation(textureUri, lookup);
    var textureHasAlpha := ResolveTextureHasAlpha(textureUri, lookup);
    var tintRgb := ResolveTintRgb(face.blockState, face.blockId, lookup);
    var rgba := RgbaFromArgb(face.color);
    var baseAlpha := BaseAlpha(rgba.a, face.providesSolidFace, options.translucentAlpha);
    var hasTranslucency := baseAlpha < 1.0 || textureHasAlpha;
    var tinted := ApplyTintRgb(Rgb(rgba.r, rgba.g, rgba.b), tintRgb);
    var color := Rgba(tinted.r, tinted.g, tinted.b, baseAlpha);
    Material(
      MaterialKey(face.blockId, textureUri, color),
      face.blockState,
      color,
      if hasTranslucency then Blend else Opaque,
      hasTranslucency,
      textureUri,
      textureAnimation)
  }

  /**
   * The resolved material's alpha is the colour's alpha when below 1, else
   * the clamped translucent alpha (0.35 by default) for a non-solid face,
   * else 1; it blends, and is double-sided, exactly when that alpha is
   * below 1 or the texture has alpha.
   */
  lemma ResolveMaterialAlpha(face: VisibleFace, options: MaterialOptions)
    ensures var m := ResolveMaterial(face, options);
            var argb := RgbaFromArgb(face.color);
            && (argb.a < 1.0 ==> m.baseColorFactor.a == argb.a)
            && (argb.a == 1.0 && !face.providesSolidFace ==>
                 m.baseColorFactor.a == Clamp01(Some(if options.translucentAlpha.Some? then options.translucentAlpha.value else DEFAULT_TRANSLUCENT_ALPHA)))
            && (argb.a == 1.0 && face.providesSolidFace ==> m.baseColorFactor.a == 1.0)
            && (m.alphaMode == Blend <==> m.baseColorFactor.a < 1.0 || ResolveTextureHasAlpha(m.textureUri, options.textureLookup))
            && (m.doubleSided <==> m.alphaMode == Blend)
  {
    var argb := RgbaFromArgb(face.color);
    assert argb.a <= 1.0;
  }

  /**
   * The resolved colour lies in [0, 1]: the face colour passed through
   * applyTintRgb with the resolved tint (so unchanged without a tint, the
   * channel-wise product with one), with the base alpha.
   */
  lemma ResolveMaterialColor(face: VisibleFace, options: MaterialOptions)
    ensures var m := ResolveMaterial(face, options);
            var argb := RgbaFromArgb(face.color);
            var tinted := ApplyTintRgb(Rgb(argb.r, argb.g, argb.b), ResolveTintRgb(face.blockState, face.blockId, options.textureLookup));
            && RgbaInUnit(m.baseColorFactor)
            && m.baseColorFactor == Rgba(tinted.r, tinted.g, tinted.b, BaseAlpha(argb.a, face.providesSolidFace, options.translucentAlpha))
  {
    var argb := RgbaFromArgb(face.color);
    var tint := ResolveTintRgb(face.blockState, face.blockId, options.textureLookup);
    var tinted := ApplyTintRgb(Rgb(argb.r, argb.g, argb.b), tint);
    assert RgbInUnit(Rgb(argb.r, argb.g, argb.b));
    assert RgbInUnit(tinted);
    var alpha := BaseAlpha(argb.a, face.providesSolidFace, options.translucentAlpha);
    assert InUnit(alpha);
  }

  /** The name is the block state, and the key is built from the block id, the URI and the colour. */
  lemma ResolveMaterialKey(face: VisibleFace, options: MaterialOptions)
    ensures var m := ResolveMaterial(face, options);
            && m.materialName == face.blockState
            && m.textureUri == ResolveTextureUri(face.blockState, face.blockId, options.textureLookup)
            && m.materialKey == MaterialKey(face.blockId, m.textureUri, m.baseColorFactor)
  {
  }
}
