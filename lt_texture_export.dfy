/**
 * The texture exporter's text handling (the server command that lists the
 * block states of a LittleTiles structure and resolves their textures):
 * block ids and state properties as the command reads them, the canonical
 * state text, resource ids, the blockstate variant and multipart `when`
 * matchers, the '#key' texture reference chains and the output file name.
 * Java's String.trim is the JavaTrim rule, and String.split drops the
 * trailing empty pieces.
 */
module LtTextureExport {
  import opened Wrappers
  import opened Strings
  import opened Json
  import SchemaTreeCompare

  // ---------------------------------------------------------------------------
  // Java string helpers
  // ---------------------------------------------------------------------------

  /** String.trim on a possibly null string, null read as "". */
  function JavaTrimmed(value: Option<string>): (t: string)
    ensures Trim(JavaTrim, t) == t
  {
    var s := if value.None? then "" else value.value;
    TrimIdempotent(JavaTrim, s);
    Trim(JavaTrim, s)
  }

  /** The pieces with the empty ones at the end dropped. */
  function DropTrailingEmpty(parts: seq<string>): (r: seq<string>)
    ensures |r| <= |parts| && r == parts[..|r|]
    ensures r != [] ==> r[|r| - 1] != []
    ensures forall k :: |r| <= k < |parts| ==> parts[k] == []
    decreases |parts|
  {
    if parts == [] || parts[|parts| - 1] != [] then parts
    else DropTrailingEmpty(parts[..|parts| - 1])
  }

  /**
   * String.split with a one-character pattern: the whole text when the
   * separator does not occur, and otherwise the pieces between separators
   * with the empty ones at the end dropped.
   */
  function JavaSplit(s: string, sep: char): (parts: seq<string>)
    ensures sep !in s ==> parts == [s]
  {
    if sep !in s then [s] else DropTrailingEmpty(Split(s, sep))
  }

  /** Joining pieces free of the separator, the last one non-empty, and splitting again gives them back. */
  lemma JavaSplitJoin(parts: seq<string>, sep: char)
    requires |parts| >= 1 && parts[|parts| - 1] != []
    requires forall i :: 0 <= i < |parts| ==> sep !in parts[i]
    ensures JavaSplit(Join(parts, [sep]), sep) == parts
  {
    SplitJoin(parts, sep);
    if sep !in Join(parts, [sep]) {
      IndexOfSpec(Join(parts, [sep]), sep);
    }
  }

  // ---------------------------------------------------------------------------
  // normalizeBlockId
  // ---------------------------------------------------------------------------

  /** The pattern -?\d+: an optional minus sign and at least one ASCII digit. */
  predicate IsSignedDigits(t: string)
  {
    IsDigits(t) || (|t| >= 2 && t[0] == '-' && IsDigits(t[1..]))
  }

  /**
   * normalizeBlockId: the trimmed id; minecraft:air when it is blank; the
   * id without its metadata when it has the form ns:path:meta with an
   * integer meta; minecraft: in front when it has no colon.
   */
  function NormalizeBlockId(value: Option<string>): (id: string)
    ensures id != [] && ':' in id
  {
    var t := JavaTrimmed(value);
    if t == [] then "minecraft:air"
    else
      var parts := Split(t, ':');
      if |parts| == 3 && parts[0] != [] && parts[1] != [] && IsSignedDigits(parts[2]) then
        assert (parts[0] + ":" + parts[1])[|parts[0]|] == ':';
        parts[0] + ":" + parts[1]
      else if ':' !in t then
        assert ("minecraft:" + t)[9] == ':';
        "minecraft:" + t
      else t
  }

  /** A blank id is air, and an id without a colon gets the minecraft namespace. */
  lemma NormalizeBlockIdDefaults(value: Option<string>)
    ensures JavaTrimmed(value) == [] ==> NormalizeBlockId(value) == "minecraft:air"
    ensures var t := JavaTrimmed(value);
            t != [] && ':' !in t ==> NormalizeBlockId(value) == "minecraft:" + t
  {
    var t := JavaTrimmed(value);
    if t != [] && ':' !in t {
      IndexOfSpec(t, ':');
      assert Split(t, ':') == [t];
    }
  }

  /** ns:path:meta with an integer meta loses the meta. */
  lemma NormalizeBlockIdStripsMeta(ns: string, path: string, meta: string)
    requires ns != [] && path != [] && ':' !in ns && ':' !in path
    requires IsSignedDigits(meta)
    requires !IsTrimmable(JavaTrim, ns[0])
    ensures NormalizeBlockId(Some(ns + ":" + path + ":" + meta)) == ns + ":" + path
  {
    var s := ns + ":" + path + ":" + meta;
    SignedDigitsText(meta);
    MetaTextTrimmed(ns, path, meta);
    SplitThree(ns, path, meta);
    assert JavaTrimmed(Some(s)) == s;
  }

  /** A signed number has no ':' and ends in a digit. */
  lemma SignedDigitsText(meta: string)
    requires IsSignedDigits(meta)
    ensures ':' !in meta && '0' <= meta[|meta| - 1] <= '9'
  {
    if IsDigits(meta) {
      assert forall k :: 0 <= k < |meta| ==> meta[k] != ':';
    } else {
      assert forall k :: 1 <= k < |meta| ==> meta[k] == meta[1..][k - 1];
      assert meta[|meta| - 1] == meta[1..][|meta| - 2];
    }
  }

  /** ns:path:meta is its own trim. */
  lemma MetaTextTrimmed(ns: string, path: string, meta: string)
    requires ns != [] && meta != [] && !IsTrimmable(JavaTrim, ns[0]) && '0' <= meta[|meta| - 1] <= '9'
    ensures Trim(JavaTrim, ns + ":" + path + ":" + meta) == ns + ":" + path + ":" + meta
  {
    var s := ns + ":" + path + ":" + meta;
    assert s[0] == ns[0] && s[|s| - 1] == meta[|meta| - 1];
    TrimOfTrimmed(JavaTrim, s);
  }

  /** ns:path:meta splits on ':' into its three parts. */
  lemma SplitThree(ns: string, path: string, meta: string)
    requires ':' !in ns && ':' !in path && ':' !in meta
    ensures Split(ns + ":" + path + ":" + meta, ':') == [ns, path, meta]
  {
    assert ns + ":" + path + ":" + meta == ns + [':'] + (path + [':'] + meta);
    SplitAfterPiece(ns, ':', path + [':'] + meta);
    SplitAfterPiece(path, ':', meta);
    IndexOfSpec(meta, ':');
  }

  /** ns:path, trimmed, is kept as it is. */
  lemma NormalizeBlockIdKeepsNamespacedId(ns: string, path: string)
    requires ns != [] && path != [] && ':' !in ns && ':' !in path
    requires !IsTrimmable(JavaTrim, ns[0]) && !IsTrimmable(JavaTrim, path[|path| - 1])
    ensures NormalizeBlockId(Some(ns + ":" + path)) == ns + ":" + path
  {
    var u := ns + ":" + path;
    assert u == ns + [':'] + path;
    assert u[0] == ns[0] && u[|u| - 1] == path[|path| - 1];
    TrimOfTrimmed(JavaTrim, u);
    SplitAfterPiece(ns, ':', path);
    IndexOfSpec(path, ':');
    assert Split(u, ':') == [ns, path];
    assert u[|ns|] == ':';
    assert JavaTrimmed(Some(u)) == u;
  }

  // ---------------------------------------------------------------------------
  // parseStateProperties and canonicalStateString
  // ---------------------------------------------------------------------------

  /**
   * One comma-separated entry: the trimmed key and value on either side of
   * the first '=' of the trimmed entry, when the '=' is neither first nor
   * last and both sides are non-empty once trimmed.
   */
  function PropertyEntry(entry: string): (p: Option<(string, string)>)
  {
    var pair := Trim(JavaTrim, entry);
    var equals := IndexOf(pair, '=');
    if pair == [] || equals <= 0 || equals >= |pair| - 1 then None
    else
      var key := Trim(JavaTrim, pair[..equals]);
      var value := Trim(JavaTrim, pair[equals + 1..]);
      if key != [] && value != [] then Some((key, value)) else None
  }

  /** A property key and value as parsing leaves them: non-empty, trimmed, and the key without '='. */
  predicate IsCleanProperty(key: string, value: string)
  {
    key != [] && value != [] && '=' !in key
    && Trim(JavaTrim, key) == key && Trim(JavaTrim, value) == value
  }

  /** Every entry that parses gives a clean key and value. */
  lemma PropertyEntryClean(entry: string)
    ensures var p := PropertyEntry(entry);
            p.Some? ==> IsCleanProperty(p.value.0, p.value.1)
  {
    var pair := Trim(JavaTrim, entry);
    var equals := IndexOf(pair, '=');
    if PropertyEntry(entry).Some? {
      IndexOfSpec(pair, '=');
      var left := pair[..equals];
      TrimIdempotent(JavaTrim, left);
      TrimIdempotent(JavaTrim, pair[equals + 1..]);
      TrimKeepsAbsent(left, '=');
    }
  }

  /** Trimming adds no character. */
  lemma TrimKeepsAbsent(s: string, c: char)
    requires c !in s
    ensures c !in Trim(JavaTrim, s)
  {
    TrimSpec(JavaTrim, s);
    var t := Trim(JavaTrim, s);
    var i := LeadingCount(JavaTrim, s);
    forall k | 0 <= k < |t|
      ensures t[k] != c
    {
      assert t[k] == s[i + k];
    }
  }

  /** The entries folded into a sorted map, one after the other: a later entry for a key replaces an earlier one. */
  function PropertiesOf(entries: seq<string>): (m: map<string, string>)
    decreases |entries|
  {
    if entries == [] then map[]
    else
      var p := PropertyEntry(entries[|entries| - 1]);
      var m := PropertiesOf(entries[..|entries| - 1]);
      if p.Some? then m[p.value.0 := p.value.1] else m
  }

  /** parseStateProperties: no properties for a missing or blank text, otherwise the entries between commas. */
  function StatePropertiesOf(text: Option<string>): map<string, string>
  {
    if text.None? || IsBlank(JavaTrim, text.value) then map[] else PropertiesOf(JavaSplit(text.value, ','))
  }

  /** parseStateProperties as the source runs it: a loop over the comma-separated entries filling the map. */
  method ParseStateProperties(text: Option<string>) returns (out: map<string, string>)
    ensures out == StatePropertiesOf(text)
  {
    if text.None? || IsBlank(JavaTrim, text.value) {
      return map[];
    }
    var entries := JavaSplit(text.value, ',');
    out := map[];
    for i := 0 to |entries|
      invariant out == PropertiesOf(entries[..i])
    {
      assert entries[..i + 1][..i] == entries[..i];
      var p := PropertyEntry(entries[i]);
      if p.Some? {
        out := out[p.value.0 := p.value.1];
      }
    }
    assert entries[..|entries|] == entries;
  }

  /**
   * The parsed map holds exactly the keys of the entries that parse, each
   * clean, and each with the value of the last entry that has its key.
   */
  lemma {:induction false} PropertiesOfSpec(entries: seq<string>)
    ensures forall k :: k in PropertiesOf(entries) ==> IsCleanProperty(k, PropertiesOf(entries)[k])
    ensures forall i :: 0 <= i < |entries| && PropertyEntry(entries[i]).Some? ==> PropertyEntry(entries[i]).value.0 in PropertiesOf(entries)
    ensures forall k :: k in PropertiesOf(entries) ==>
              exists i :: 0 <= i < |entries| && PropertyEntry(entries[i]) == Some((k, PropertiesOf(entries)[k]))
    decreases |entries|
  {
    if entries != [] {
      var init := entries[..|entries| - 1];
      PropertiesOfSpec(init);
      PropertyEntryClean(entries[|entries| - 1]);
      forall i | 0 <= i < |init|
        ensures init[i] == entries[i]
      {
      }
    }
  }

  /** A later entry for a key wins over every earlier one. */
  lemma {:induction false} PropertiesOfLastWins(entries: seq<string>, j: nat)
    requires j < |entries| && PropertyEntry(entries[j]).Some?
    requires forall i :: j < i < |entries| ==> PropertyEntry(entries[i]).None? || PropertyEntry(entries[i]).value.0 != PropertyEntry(entries[j]).value.0
    ensures var p := PropertyEntry(entries[j]).value;
            p.0 in PropertiesOf(entries) && PropertiesOf(entries)[p.0] == p.1
    decreases |entries|
  {
    if j < |entries| - 1 {
      var init := entries[..|entries| - 1];
      assert init[j] == entries[j];
      forall i | j < i < |init|
        ensures PropertyEntry(init[i]).None? || PropertyEntry(init[i]).value.0 != PropertyEntry(init[j]).value.0
      {
        assert init[i] == entries[i];
      }
      PropertiesOfLastWins(init, j);
    }
  }

  /** The "key=value" texts of the keys in order. */
  function PairTexts(keys: seq<string>, props: map<string, string>): (r: seq<string>)
    requires forall k :: k in keys ==> k in props
    ensures |r| == |keys|
    ensures forall i :: 0 <= i < |keys| ==> r[i] == keys[i] + "=" + props[keys[i]]
    decreases |keys|
  {
    if keys == [] then []
    else
      var init := keys[..|keys| - 1];
      var key := keys[|keys| - 1];
      assert forall i :: 0 <= i < |init| ==> init[i] == keys[i];
      PairTexts(init, props) + [key + "=" + props[key]]
  }

  /** The properties as "k=v" pairs joined by ',', in ascending key order. */
  function PropertyText(props: map<string, string>): string
  {
    var keys := SchemaTreeCompare.SortedKeys(props.Keys);
    Join(PairTexts(keys, props), ",")
  }

  /** canonicalStateString: the block id alone, or followed by "[k=v,...]" in ascending key order. */
  function CanonicalStateString(blockId: ResourceId, props: map<string, string>): (s: string)
    ensures |props| == 0 ==> s == blockId.Text()
    ensures |props| > 0 ==> s == blockId.Text() + "[" + PropertyText(props) + "]"
  {
    if |props| == 0 then blockId.Text() else blockId.Text() + "[" + PropertyText(props) + "]"
  }

  /** A property map that prints and parses back: clean pairs, no ',' anywhere and a value that ends the entry. */
  predicate IsPrintable(props: map<string, string>)
  {
    forall k :: k in props ==> IsCleanProperty(k, props[k]) && ',' !in k && ',' !in props[k]
  }

  /** Printing the properties and parsing the text gives the same map. */
  lemma PropertyTextRoundTrip(props: map<string, string>)
    requires |props| > 0 && IsPrintable(props)
    ensures StatePropertiesOf(Some(PropertyText(props))) == props
  {
    var keys := SchemaTreeCompare.SortedKeys(props.Keys);
    assert keys != [] by {
      var k :| k in props;
      assert k in keys;
    }
    KeysRoundTrip(keys, props);
  }

  /** The pairs of all keys, in any order, print to a text that parses back to the map. */
  lemma KeysRoundTrip(keys: seq<string>, props: map<string, string>)
    requires keys != [] && IsPrintable(props)
    requires forall k :: k in keys <==> k in props
    ensures StatePropertiesOf(Some(Join(PairTexts(keys, props), ","))) == props
  {
    var pairs := PairTexts(keys, props);
    PrintablePairs(keys, props);
    JavaSplitJoin(pairs, ',');
    JoinStartsWithFirst(pairs, ",");
    NonBlankStart(Join(pairs, ","));
    PairsParse(keys, props);
    RestrictedAll(keys, props);
    ParsedText(Join(pairs, ","), pairs, props);
  }

  /** A non-blank text that splits into entries parsing to a map parses to that map. */
  lemma ParsedText(text: string, entries: seq<string>, m: map<string, string>)
    requires !IsBlank(JavaTrim, text) && JavaSplit(text, ',') == entries && PropertiesOf(entries) == m
    ensures StatePropertiesOf(Some(text)) == m
  {
  }

  /** Restricting a map to a list of all its keys leaves it whole. */
  lemma RestrictedAll(keys: seq<string>, props: map<string, string>)
    requires forall k :: k in keys <==> k in props
    ensures Restricted(keys, props) == props
  {
  }

  /** The pairs of printable properties: none empty or holding ',', the first starting with a kept character. */
  lemma PrintablePairs(keys: seq<string>, props: map<string, string>)
    requires keys != [] && IsPrintable(props)
    requires forall k :: k in keys ==> k in props
    ensures var pairs := PairTexts(keys, props);
            (forall i :: 0 <= i < |pairs| ==> ',' !in pairs[i] && pairs[i] != [])
            && !IsTrimmable(JavaTrim, pairs[0][0])
  {
    var pairs := PairTexts(keys, props);
    forall i | 0 <= i < |pairs|
      ensures ',' !in pairs[i] && pairs[i] != []
    {
      assert keys[i] in props;
      assert pairs[i] == keys[i] + "=" + props[keys[i]];
    }
    assert keys[0] in props;
    TrimEnds(JavaTrim, keys[0]);
    assert pairs[0][0] == keys[0][0];
  }

  /** A text whose first character is kept is not blank. */
  lemma NonBlankStart(text: string)
    requires text != [] && !IsTrimmable(JavaTrim, text[0])
    ensures !IsBlank(JavaTrim, text)
  {
    TrimSpec(JavaTrim, text);
    LeadingCountSpec(JavaTrim, text);
  }

  /** The first character of a join is the first character of its first piece. */
  lemma JoinStartsWithFirst(parts: seq<string>, sep: string)
    requires |parts| >= 1 && parts[0] != []
    ensures Join(parts, sep) != [] && Join(parts, sep)[0] == parts[0][0]
  {
  }

  /** "key=value" of a clean, printable pair parses back to the pair. */
  lemma PairEntry(key: string, value: string)
    requires IsCleanProperty(key, value)
    ensures PropertyEntry(key + "=" + value) == Some((key, value))
  {
    PairParts(key, value);
  }

  /** "key=value" of a clean pair is its own trim, with its first '=' right after the key. */
  lemma PairParts(key: string, value: string)
    requires IsCleanProperty(key, value)
    ensures var pair := key + "=" + value;
            Trim(JavaTrim, pair) == pair && IndexOf(pair, '=') == |key|
            && pair[..|key|] == key && pair[|key| + 1..] == value
  {
    var pair := key + "=" + value;
    TrimEnds(JavaTrim, key);
    TrimEnds(JavaTrim, value);
    assert pair[0] == key[0] && pair[|pair| - 1] == value[|value| - 1];
    TrimOfTrimmed(JavaTrim, pair);
    assert pair == key + ['='] + value;
    IndexOfFromBefore(key, '=', value, 0);
  }

  /** An entry that parses, appended, updates the map with its key and value. */
  lemma PropertiesOfSnoc(entries: seq<string>, entry: string, key: string, value: string)
    requires PropertyEntry(entry) == Some((key, value))
    ensures PropertiesOf(entries + [entry]) == PropertiesOf(entries)[key := value]
  {
    assert (entries + [entry])[..|entries|] == entries;
  }

  /** The map restricted to the listed keys. */
  function Restricted(keys: seq<string>, props: map<string, string>): (m: map<string, string>)
    requires forall k :: k in keys ==> k in props
  {
    map k | k in keys :: props[k]
  }

  /** Listing one more key adds its entry to the restriction. */
  lemma RestrictedSnoc(keys: seq<string>, props: map<string, string>)
    requires keys != [] && forall k :: k in keys ==> k in props
    ensures var key := keys[|keys| - 1];
            Restricted(keys, props) == Restricted(keys[..|keys| - 1], props)[key := props[key]]
  {
    var init := keys[..|keys| - 1];
    assert forall k :: k in keys <==> k in init || k == keys[|keys| - 1] by {
      assert keys == init + [keys[|keys| - 1]];
    }
  }

  /** The sorted pairs of the listed keys parse to the map restricted to those keys. */
  lemma {:induction false} PairsParse(keys: seq<string>, props: map<string, string>)
    requires forall i :: 0 <= i < |keys| ==> keys[i] in props && IsCleanProperty(keys[i], props[keys[i]])
    ensures PropertiesOf(PairTexts(keys, props)) == Restricted(keys, props)
    decreases |keys|
  {
    if keys != [] {
      var init := keys[..|keys| - 1];
      var key := keys[|keys| - 1];
      assert forall i :: 0 <= i < |init| ==> init[i] == keys[i];
      PairsParse(init, props);
      PairEntry(key, props[key]);
      PropertiesOfSnoc(PairTexts(init, props), key + "=" + props[key], key, props[key]);
      RestrictedSnoc(keys, props);
    }
  }

  // ---------------------------------------------------------------------------
  // ResourceId
  // ---------------------------------------------------------------------------

  /** A namespaced resource id after its canonical constructor. */
  datatype ResourceId = ResourceId(namespace: string, path: string)
  {
    /** toString: "namespace:path". */
    function Text(): string
    {
      namespace + ":" + path
    }
  }

  /** normalizeNamespace: trimmed and lower-cased, minecraft when blank. */
  function NormalizeNamespace(value: Option<string>): (ns: string)
    ensures ns != [] && ToLower(ns) == ns
  {
    var out := ToLower(JavaTrimmed(value));
    ToLowerIdempotent(JavaTrimmed(value));
    if out == [] then "minecraft" else out
  }

  /** normalizePath: trimmed, one leading '/' dropped, air when empty. */
  function NormalizePath(value: Option<string>): (path: string)
    ensures path != []
  {
    var out := JavaTrimmed(value);
    var rest := if IsPrefix("/", out) then out[1..] else out;
    if rest == [] then "air" else rest
  }

  /** The record's canonical constructor: both parts normalised. */
  function MakeResourceId(namespace: Option<string>, path: Option<string>): (r: ResourceId)
    ensures r.namespace != [] && r.path != [] && ToLower(r.namespace) == r.namespace
  {
    ResourceId(NormalizeNamespace(namespace), NormalizePath(path))
  }

  /** Normalising a namespace twice is normalising it once. */
  lemma NormalizeNamespaceIdempotent(value: Option<string>)
    ensures NormalizeNamespace(Some(NormalizeNamespace(value))) == NormalizeNamespace(value)
  {
    var ns := NormalizeNamespace(value);
    var t := JavaTrimmed(value);
    TrimIdempotent(JavaTrim, t);
    if ToLower(t) != [] {
      assert forall k :: 0 <= k < |t| ==> (IsTrimmable(JavaTrim, t[k]) <==> IsTrimmable(JavaTrim, LowerChar(t[k])));
      TrimEnds(JavaTrim, t);
      TrimOfTrimmed(JavaTrim, ToLower(t));
    } else {
      TrimOfTrimmed(JavaTrim, "minecraft");
    }
  }

  /**
   * ResourceId.parse: the default namespace and air for a missing or empty
   * text (after trimming and dropping a leading '#'); the default namespace
   * and the whole text when it has no ':'; otherwise the parts before and
   * after the first ':', with an empty path read as air.
   */
  function ParseResourceId(raw: Option<string>, defaultNamespace: Option<string>): (r: ResourceId)
    ensures r.namespace != [] && r.path != [] && ToLower(r.namespace) == r.namespace
    ensures raw.None? ==> r == MakeResourceId(defaultNamespace, Some("air"))
  {
    if raw.None? then MakeResourceId(defaultNamespace, Some("air"))
    else
      var trimmed := Trim(JavaTrim, raw.value);
      var value := if IsPrefix("#", trimmed) then trimmed[1..] else trimmed;
      if value == [] then MakeResourceId(defaultNamespace, Some("air"))
      else
        var split := IndexOf(value, ':');
        if split < 0 then MakeResourceId(defaultNamespace, Some(value))
        else
          var path := value[split + 1..];
          MakeResourceId(Some(value[..split]), Some(if path == [] then "air" else path))
  }

  /** A text without ':' is a path in the default namespace. */
  lemma ParseWithoutNamespace(raw: string, defaultNamespace: Option<string>)
    requires ':' !in raw && raw != [] && raw[0] != '#'
    requires !IsTrimmable(JavaTrim, raw[0]) && !IsTrimmable(JavaTrim, raw[|raw| - 1])
    ensures ParseResourceId(Some(raw), defaultNamespace) == MakeResourceId(defaultNamespace, Some(raw))
  {
    TrimOfTrimmed(JavaTrim, raw);
    IndexOfSpec(raw, ':');
    ParseWithoutColon(raw, defaultNamespace);
  }

  /** A trimmed text without '#' in front and without ':' is a path in the default namespace. */
  lemma ParseWithoutColon(s: string, defaultNamespace: Option<string>)
    requires s != [] && Trim(JavaTrim, s) == s && !IsPrefix("#", s) && IndexOf(s, ':') < 0
    ensures ParseResourceId(Some(s), defaultNamespace) == MakeResourceId(defaultNamespace, Some(s))
  {
  }

  /** An id as the constructor leaves it that also prints and parses back unchanged. */
  predicate IsCanonicalId(id: ResourceId)
  {
    && id.namespace != [] && ':' !in id.namespace && id.namespace[0] != '#'
    && ToLower(id.namespace) == id.namespace && Trim(JavaTrim, id.namespace) == id.namespace
    && id.path != [] && id.path[0] != '/' && Trim(JavaTrim, id.path) == id.path
  }

  /** Printing a canonical id and parsing the text, in any default namespace, gives the id back. */
  lemma ResourceIdRoundTrip(id: ResourceId, defaultNamespace: Option<string>)
    requires IsCanonicalId(id)
    ensures ParseResourceId(Some(id.Text()), defaultNamespace) == id
  {
    TrimEnds(JavaTrim, id.namespace);
    TrimEnds(JavaTrim, id.path);
    IdTextParts(id.namespace, id.path);
    ParseAtColon(id.Text(), id.namespace, id.path, defaultNamespace);
    CanonicalParts(id.namespace, id.path);
  }

  /** A lower-case trimmed namespace and a trimmed path without '/' in front are their own normal forms. */
  lemma CanonicalParts(ns: string, path: string)
    requires ns != [] && Trim(JavaTrim, ns) == ns && ToLower(ns) == ns
    requires path != [] && Trim(JavaTrim, path) == path && path[0] != '/'
    ensures NormalizeNamespace(Some(ns)) == ns && NormalizePath(Some(path)) == path
  {
    assert JavaTrimmed(Some(ns)) == ns;
    assert JavaTrimmed(Some(path)) == path;
  }

  /** A trimmed text without '#' in front whose first ':' separates ns from a non-empty path parses to the two parts. */
  lemma ParseAtColon(s: string, ns: string, path: string, defaultNamespace: Option<string>)
    requires s != [] && Trim(JavaTrim, s) == s && !IsPrefix("#", s)
    requires IndexOf(s, ':') == |ns| && s[..|ns|] == ns && s[|ns| + 1..] == path && path != []
    ensures ParseResourceId(Some(s), defaultNamespace) == MakeResourceId(Some(ns), Some(path))
  {
  }

  /** ns:path, trimmed at both ends and without '#' in front, splits at its first ':' into the two parts. */
  lemma IdTextParts(ns: string, path: string)
    requires ns != [] && ':' !in ns && ns[0] != '#' && !IsTrimmable(JavaTrim, ns[0])
    requires path != [] && !IsTrimmable(JavaTrim, path[|path| - 1])
    ensures var s := ns + ":" + path;
            Trim(JavaTrim, s) == s && !IsPrefix("#", s) && IndexOf(s, ':') == |ns|
            && s[..|ns|] == ns && s[|ns| + 1..] == path
  {
    var s := ns + ":" + path;
    assert s == ns + [':'] + path;
    assert s[0] == ns[0] && s[|s| - 1] == path[|path| - 1];
    TrimOfTrimmed(JavaTrim, s);
    IndexOfFromBefore(ns, ':', path, 0);
  }

  // ---------------------------------------------------------------------------
  // parseBlockStateRef
  // ---------------------------------------------------------------------------

  /** What the exporter records for one block state name. */
  datatype BlockStateRef = BlockStateRef(
    rawState: string,
    canonicalState: string,
    blockId: string,
    namespace: string,
    path: string,
    properties: map<string, string>)

  /** The text between the first '[' and the last ']' after it, or "" when there is none. */
  function PropertyTextOf(state: string): (t: string)
  {
    var bracketStart := IndexOf(state, '[');
    var bracketEnd := LastIndexOf(state, ']');
    if bracketStart >= 0 && bracketEnd > bracketStart then state[bracketStart + 1..bracketEnd] else ""
  }

  /** The text before the first '[', or the whole text. */
  function StateNameOf(state: string): (t: string)
    ensures |t| <= |state|
  {
    var bracketStart := IndexOf(state, '[');
    if bracketStart >= 0 then state[..bracketStart] else state
  }

  /**
   * parseBlockStateRef: the trimmed name (minecraft:air when missing or
   * blank) split into the block id before the first '[' and the properties
   * between it and the last ']', with the id normalised and parsed in the
   * minecraft namespace and the canonical text rebuilt from both.
   */
  function ParseBlockStateRef(raw: Option<string>): (r: BlockStateRef)
    ensures r.rawState != [] && r.namespace != [] && r.path != []
    ensures r.blockId == r.namespace + ":" + r.path
    ensures r.canonicalState == CanonicalStateString(ResourceId(r.namespace, r.path), r.properties)
  {
    var trimmed := JavaTrimmed(raw);
    var state := if trimmed == [] then "minecraft:air" else trimmed;
    var blockResource := ParseResourceId(Some(NormalizeBlockId(Some(StateNameOf(state)))), Some("minecraft"));
    var properties := StatePropertiesOf(Some(PropertyTextOf(state)));
    BlockStateRef(state, CanonicalStateString(blockResource, properties), blockResource.Text(),
      blockResource.namespace, blockResource.path, properties)
  }

  /** Brackets and colons may not appear inside a canonical state's parts. */
  predicate IsPlainStatePart(s: string)
  {
    '[' !in s && ']' !in s
  }

  /**
   * A canonical state text reads back to itself: parsing the text of a
   * canonical id with printable properties gives the same id, the same
   * properties and the same canonical text.
   */
  lemma CanonicalStateRoundTrip(id: ResourceId, props: map<string, string>)
    requires IsCanonicalId(id) && ':' !in id.path && !IsSignedDigits(id.path)
    requires IsPlainStatePart(id.namespace) && IsPlainStatePart(id.path)
    requires IsPrintable(props)
    requires forall k :: k in props ==> IsPlainStatePart(k) && IsPlainStatePart(props[k])
    ensures var r := ParseBlockStateRef(Some(CanonicalStateString(id, props)));
            ResourceId(r.namespace, r.path) == id && r.properties == props
            && r.canonicalState == CanonicalStateString(id, props)
  {
    var text := CanonicalStateString(id, props);
    var idText := id.Text();
    CanonicalIdPlain(id);
    CanonicalIdBlockId(id);
    TextOfCanonicalId(id);
    ResourceIdRoundTrip(id, Some("minecraft"));
    if |props| == 0 {
      BareStateParts(idText);
      assert StatePropertiesOf(Some("")) == props;
      StateOfParts(text, idText, "", id, props);
    } else {
      PropertyTextPlain(props);
      BracketedStateParts(idText, PropertyText(props));
      PropertyTextRoundTrip(props);
      StateOfParts(text, idText, PropertyText(props), id, props);
    }
  }

  /** A trimmed state whose name reads as the id and whose bracketed text reads as the properties parses to them. */
  lemma StateOfParts(state: string, name: string, body: string, id: ResourceId, props: map<string, string>)
    requires state != [] && Trim(JavaTrim, state) == state
    requires StateNameOf(state) == name && PropertyTextOf(state) == body
    requires ParseResourceId(Some(NormalizeBlockId(Some(name))), Some("minecraft")) == id
    requires StatePropertiesOf(Some(body)) == props
    ensures var r := ParseBlockStateRef(Some(state));
            ResourceId(r.namespace, r.path) == id && r.properties == props
            && r.canonicalState == CanonicalStateString(id, props)
  {
    assert JavaTrimmed(Some(state)) == state;
  }

  /** The text of a canonical id holds a ':' and no bracket. */
  lemma CanonicalIdPlain(id: ResourceId)
    requires IsPlainStatePart(id.namespace) && IsPlainStatePart(id.path)
    ensures IsPlainStatePart(id.Text()) && ':' in id.Text()
  {
    PlainConcat(id.namespace, ":");
    PlainConcat(id.namespace + ":", id.path);
    assert id.Text()[|id.namespace|] == ':';
  }

  /** A bracket-free state name is all name and no properties. */
  lemma BareStateParts(name: string)
    requires IsPlainStatePart(name)
    ensures StateNameOf(name) == name && PropertyTextOf(name) == ""
  {
    IndexOfSpec(name, '[');
  }

  /** name[body], with neither part holding a bracket, is its own trim and splits into the two parts. */
  lemma BracketedStateParts(name: string, body: string)
    requires name != [] && !IsTrimmable(JavaTrim, name[0])
    requires IsPlainStatePart(name) && IsPlainStatePart(body)
    ensures var text := name + "[" + body + "]";
            Trim(JavaTrim, text) == text && StateNameOf(text) == name && PropertyTextOf(text) == body
  {
    var text := name + "[" + body + "]";
    assert text[0] == name[0] && text[|text| - 1] == ']';
    TrimOfTrimmed(JavaTrim, text);
    assert text == name + ['['] + (body + "]");
    IndexOfFromBefore(name, '[', body + "]", 0);
    assert text == name + "[" + body + [']'] + [];
    LastIndexOfAfter(name + "[" + body, ']', []);
    assert text[..|name|] == name;
    assert text[|name| + 1..|text| - 1] == body;
  }

  /** The text of a canonical id is its own trim, non-blank, and a non-empty first character. */
  lemma TextOfCanonicalId(id: ResourceId)
    requires IsCanonicalId(id)
    ensures var t := id.Text();
            t != [] && t[0] == id.namespace[0] && !IsTrimmable(JavaTrim, t[0])
            && !IsTrimmable(JavaTrim, t[|t| - 1]) && Trim(JavaTrim, t) == t
  {
    var t := id.Text();
    TrimEnds(JavaTrim, id.namespace);
    TrimEnds(JavaTrim, id.path);
    assert t[|t| - 1] == id.path[|id.path| - 1];
    TrimOfTrimmed(JavaTrim, t);
  }

  /** normalizeBlockId keeps the text of a canonical id whose path has no ':' and is not a number. */
  lemma CanonicalIdBlockId(id: ResourceId)
    requires IsCanonicalId(id) && ':' !in id.path && !IsSignedDigits(id.path)
    ensures NormalizeBlockId(Some(id.Text())) == id.Text()
  {
    var t := id.Text();
    TextOfCanonicalId(id);
    assert JavaTrimmed(Some(t)) == t;
    assert t == id.namespace + [':'] + id.path;
    SplitAfterPiece(id.namespace, ':', id.path);
    IndexOfSpec(id.path, ':');
    assert Split(t, ':') == [id.namespace, id.path];
    assert t[|id.namespace|] == ':';
  }

  /** The property text of plain properties holds no bracket. */
  lemma PropertyTextPlain(props: map<string, string>)
    requires forall k :: k in props ==> IsPlainStatePart(k) && IsPlainStatePart(props[k])
    ensures IsPlainStatePart(PropertyText(props))
  {
    var keys := SchemaTreeCompare.SortedKeys(props.Keys);
    var pairs := PairTexts(keys, props);
    forall i | 0 <= i < |pairs|
      ensures IsPlainStatePart(pairs[i])
    {
      assert keys[i] in props;
      PlainConcat(keys[i], "=");
      PlainConcat(keys[i] + "=", props[keys[i]]);
    }
    JoinPlain(pairs);
  }

  /** Two bracket-free texts joined are bracket-free. */
  lemma PlainConcat(a: string, b: string)
    requires IsPlainStatePart(a) && IsPlainStatePart(b)
    ensures IsPlainStatePart(a + b)
  {
    assert forall c :: c in a + b ==> c in a || c in b;
  }

  /** Joining bracket-free pieces with ',' gives a bracket-free text. */
  lemma {:induction false} JoinPlain(parts: seq<string>)
    requires forall i :: 0 <= i < |parts| ==> IsPlainStatePart(parts[i])
    ensures IsPlainStatePart(Join(parts, ","))
    decreases |parts|
  {
    if |parts| > 1 {
      JoinPlain(parts[1..]);
      PlainConcat(parts[0], ",");
      PlainConcat(parts[0] + ",", Join(parts[1..], ","));
    }
  }

  // ---------------------------------------------------------------------------
  // variantMatchesState, whenMatchesState, propertyValueMatches
  // ---------------------------------------------------------------------------

  /** propertyValueMatches: some '|'-separated option, trimmed, is the actual value. */
  predicate PropertyValueMatches(expected: string, actual: string)
  {
    var options := JavaSplit(expected, '|');
    exists i :: 0 <= i < |options| && Trim(JavaTrim, options[i]) == actual
  }

  /** An alternative list matches exactly the values it names. */
  lemma AlternativesMatch(options: seq<string>, actual: string)
    requires |options| >= 1
    requires forall i :: 0 <= i < |options| ==> options[i] != [] && '|' !in options[i] && Trim(JavaTrim, options[i]) == options[i]
    ensures PropertyValueMatches(Join(options, "|"), actual) <==> actual in options
  {
    JavaSplitJoin(options, '|');
  }

  /**
   * One clause of a variant key: a blank clause is skipped; otherwise it
   * needs a '=' neither first nor last, a state property under the trimmed
   * key, and that property among the trimmed expected alternatives.
   */
  predicate ClauseMatches(clauseRaw: string, props: map<string, string>)
  {
    var clause := Trim(JavaTrim, clauseRaw);
    var equals := IndexOf(clause, '=');
    clause == [] ||
      (0 < equals < |clause| - 1
       && var key := Trim(JavaTrim, clause[..equals]);
          key in props && PropertyValueMatches(Trim(JavaTrim, clause[equals + 1..]), props[key]))
  }

  /** variantMatchesState: a missing or blank key matches every state, otherwise every clause must. */
  predicate VariantMatches(variantKey: Option<string>, props: map<string, string>)
  {
    variantKey.None? || IsBlank(JavaTrim, variantKey.value)
    || var clauses := JavaSplit(variantKey.value, ',');
       forall i :: 0 <= i < |clauses| ==> ClauseMatches(clauses[i], props)
  }

  /** variantMatchesState as the source runs it: a loop that stops at the first clause that fails. */
  method VariantMatchesState(variantKey: Option<string>, props: map<string, string>) returns (b: bool)
    ensures b == VariantMatches(variantKey, props)
  {
    if variantKey.None? || IsBlank(JavaTrim, variantKey.value) {
      return true;
    }
    var clauses := JavaSplit(variantKey.value, ',');
    for i := 0 to |clauses|
      invariant forall j :: 0 <= j < i ==> ClauseMatches(clauses[j], props)
    {
      if !ClauseMatches(clauses[i], props) {
        return false;
      }
    }
    return true;
  }

  /** A state matches the variant key written from its own properties. */
  lemma VariantOfOwnState(props: map<string, string>)
    requires |props| > 0 && IsPrintable(props)
    requires forall k :: k in props ==> '|' !in props[k]
    ensures VariantMatches(Some(PropertyText(props)), props)
  {
    var keys := SchemaTreeCompare.SortedKeys(props.Keys);
    assert keys != [] by {
      var k :| k in props;
      assert k in keys;
    }
    VariantOfKeys(keys, props);
  }

  /** The pairs of some of a state's own properties, joined by ',', match the state. */
  lemma VariantOfKeys(keys: seq<string>, props: map<string, string>)
    requires keys != [] && IsPrintable(props)
    requires forall k :: k in keys ==> k in props && '|' !in props[k]
    ensures VariantMatches(Some(Join(PairTexts(keys, props), ",")), props)
  {
    var pairs := PairTexts(keys, props);
    PrintablePairs(keys, props);
    JavaSplitJoin(pairs, ',');
    JoinStartsWithFirst(pairs, ",");
    NonBlankStart(Join(pairs, ","));
    forall i | 0 <= i < |pairs|
      ensures ClauseMatches(pairs[i], props)
    {
      assert keys[i] in props;
      OwnClauseMatches(keys[i], props);
    }
  }

  /** "key=value" of a state's own clean property matches the state. */
  lemma OwnClauseMatches(key: string, props: map<string, string>)
    requires key in props && IsCleanProperty(key, props[key]) && '|' !in props[key]
    ensures ClauseMatches(key + "=" + props[key], props)
  {
    PairParts(key, props[key]);
    AlternativesMatch([props[key]], props[key]);
  }

  /** A clause naming a property the state lacks fails the whole variant key. */
  lemma VariantMissingProperty(variantKey: string, props: map<string, string>, i: nat)
    requires !IsBlank(JavaTrim, variantKey)
    requires i < |JavaSplit(variantKey, ',')|
    requires var clause := Trim(JavaTrim, JavaSplit(variantKey, ',')[i]);
             var equals := IndexOf(clause, '=');
             0 < equals < |clause| - 1 && Trim(JavaTrim, clause[..equals]) !in props
    ensures !VariantMatches(Some(variantKey), props)
  {
  }

  /**
   * whenMatchesState on a multipart condition: null matches; anything but
   * an object does not; an "OR" list needs a matching member and an "AND"
   * list needs all of them (an empty or non-list value never matches); any
   * other object needs every property it names present in the state with
   * a string value among whose alternatives the state's value is.
   */
  predicate WhenHolds(when: Json, props: map<string, string>)
  {
    match when
    case JNull => true
    case JObj(fields) =>
      if "OR" in fields then
        fields["OR"].JArr? && |fields["OR"].items| > 0
        && exists i :: 0 <= i < |fields["OR"].items| && WhenHolds(fields["OR"].items[i], props)
      else if "AND" in fields then
        fields["AND"].JArr? && |fields["AND"].items| > 0
        && forall i :: 0 <= i < |fields["AND"].items| ==> WhenHolds(fields["AND"].items[i], props)
      else
        forall key :: key in fields ==> key in props && fields[key].JStr? && PropertyValueMatches(fields[key].s, props[key])
    case _ => false
  }

  /** whenMatchesState: a missing condition always matches. */
  predicate WhenMatchesState(when: Option<Json>, props: map<string, string>)
  {
    when.None? || WhenHolds(when.value, props)
  }

  /** An object naming no property matches every state. */
  lemma EmptyWhenMatches(props: map<string, string>)
    ensures WhenMatchesState(Some(JObj(map[])), props)
  {
  }

  /** Wrapping one condition in an "OR" or an "AND" list does not change what it matches. */
  lemma SingleAlternative(when: Json, props: map<string, string>)
    ensures WhenHolds(JObj(map["OR" := JArr([when])]), props) <==> WhenHolds(when, props)
    ensures WhenHolds(JObj(map["AND" := JArr([when])]), props) <==> WhenHolds(when, props)
  {
    var orFields := map["OR" := JArr([when])];
    assert "OR" in orFields && orFields["OR"].items[0] == when;
    var andFields := map["AND" := JArr([when])];
    assert "OR" !in andFields;
    assert "AND" in andFields && andFields["AND"].items[0] == when;
  }

  /** A condition on a property the state lacks never matches. */
  lemma WhenMissingProperty(fields: map<string, Json>, key: string, props: map<string, string>)
    requires "OR" !in fields && "AND" !in fields
    requires key in fields && key !in props
    ensures !WhenMatchesState(Some(JObj(fields)), props)
  {
  }

  /** A condition written from a state's own properties matches the state. */
  lemma WhenOfOwnState(fields: map<string, Json>, props: map<string, string>)
    requires "OR" !in fields && "AND" !in fields
    requires forall key :: key in fields ==> key in props && fields[key] == JStr(props[key])
    requires forall key :: key in props ==> props[key] != [] && '|' !in props[key] && Trim(JavaTrim, props[key]) == props[key]
    ensures WhenMatchesState(Some(JObj(fields)), props)
  {
    forall key | key in fields
      ensures PropertyValueMatches(fields[key].s, props[key])
    {
      AlternativesMatch([props[key]], props[key]);
    }
  }

  // ---------------------------------------------------------------------------
  // resolveTextureRef
  // ---------------------------------------------------------------------------

  /**
   * The loop of resolveTextureRef from a trimmed text on: while it starts
   * with '#', the rest is a key that must be non-blank and not yet
   * visited, and its non-blank value, trimmed, becomes the text.
   */
  function ResolveFrom(current: string, textures: map<string, string>, visiting: set<string>): (r: Option<string>)
    decreases textures.Keys - visiting
  {
    if !IsPrefix("#", current) then Some(current)
    else
      var key := current[1..];
      if IsBlank(JavaTrim, key) || key in visiting || key !in textures || IsBlank(JavaTrim, textures[key]) then None
      else
        ResolveFrom(Trim(JavaTrim, textures[key]), textures, visiting + {key})
  }

  /** resolveTextureRef with a fresh visited set: nothing for a missing or blank reference. */
  function ResolveTextureRef(value: Option<string>, textures: map<string, string>): Option<string>
  {
    if value.None? || IsBlank(JavaTrim, value.value) then None
    else ResolveFrom(Trim(JavaTrim, value.value), textures, {})
  }

  /** resolveTextureRef as the source runs it: a while loop that records every key it follows. */
  method ResolveTextureRefLoop(value: Option<string>, textures: map<string, string>) returns (r: Option<string>)
    ensures r == ResolveTextureRef(value, textures)
  {
    if value.None? || IsBlank(JavaTrim, value.value) {
      return None;
    }
    var current := Trim(JavaTrim, value.value);
    var visiting: set<string> := {};
    while IsPrefix("#", current)
      invariant ResolveFrom(current, textures, visiting) == ResolveTextureRef(value, textures)
      decreases textures.Keys - visiting
    {
      var key := current[1..];
      if IsBlank(JavaTrim, key) || key in visiting {
        return None;
      }
      if key !in textures || IsBlank(JavaTrim, textures[key]) {
        return None;
      }
      visiting := visiting + {key};
      current := Trim(JavaTrim, textures[key]);
    }
    return Some(current);
  }

  /**
   * A resolved reference is a non-empty trimmed text that does not start
   * with '#', and it is either the reference itself or the value of one
   * of the texture keys.
   */
  lemma {:induction false} ResolveFromSpec(current: string, textures: map<string, string>, visiting: set<string>)
    requires current != [] && Trim(JavaTrim, current) == current
    ensures var r := ResolveFrom(current, textures, visiting);
            r.Some? ==> r.value != [] && Trim(JavaTrim, r.value) == r.value && !IsPrefix("#", r.value)
                        && (r.value == current || exists k :: k in textures && r.value == Trim(JavaTrim, textures[k]))
    decreases textures.Keys - visiting
  {
    if IsPrefix("#", current) {
      var key := current[1..];
      if !(IsBlank(JavaTrim, key) || key in visiting || key !in textures || IsBlank(JavaTrim, textures[key])) {
        TrimIdempotent(JavaTrim, textures[key]);
        ResolveFromSpec(Trim(JavaTrim, textures[key]), textures, visiting + {key});
      }
    }
  }

  /** The shape of every resolved reference, from the reference itself on. */
  lemma ResolveTextureRefSpec(value: Option<string>, textures: map<string, string>)
    ensures var r := ResolveTextureRef(value, textures);
            r.Some? ==> r.value != [] && Trim(JavaTrim, r.value) == r.value && !IsPrefix("#", r.value)
                        && (r.value == Trim(JavaTrim, value.value) || exists k :: k in textures && r.value == Trim(JavaTrim, textures[k]))
  {
    if value.Some? && !IsBlank(JavaTrim, value.value) {
      TrimIdempotent(JavaTrim, value.value);
      ResolveFromSpec(Trim(JavaTrim, value.value), textures, {});
    }
  }

  /** A key whose value refers back to the key resolves to nothing. */
  lemma SelfReference(key: string, textures: map<string, string>)
    requires key in textures && textures[key] == "#" + key
    requires !IsBlank(JavaTrim, key) && !IsTrimmable(JavaTrim, key[|key| - 1])
    ensures ResolveTextureRef(Some("#" + key), textures) == None
  {
    var t := "#" + key;
    assert t[0] == '#' && t[|t| - 1] == key[|key| - 1];
    TrimOfTrimmed(JavaTrim, t);
    assert !IsBlank(JavaTrim, t);
    assert t[1..] == key && IsPrefix("#", t);
    assert ResolveFrom(t, textures, {}) == ResolveFrom(t, textures, {key});
  }

  /** A reference to a key holding a plain texture resolves to that texture. */
  lemma OneHop(key: string, texture: string, textures: map<string, string>)
    requires key in textures && textures[key] == texture
    requires !IsBlank(JavaTrim, key) && !IsTrimmable(JavaTrim, key[|key| - 1])
    requires texture != [] && Trim(JavaTrim, texture) == texture && !IsPrefix("#", texture)
    ensures ResolveTextureRef(Some("#" + key), textures) == Some(texture)
  {
    var t := "#" + key;
    assert t[0] == '#' && t[|t| - 1] == key[|key| - 1];
    TrimOfTrimmed(JavaTrim, t);
    assert t[1..] == key && IsPrefix("#", t);
    assert !IsBlank(JavaTrim, textures[key]);
    assert ResolveTextureRef(Some(t), textures) == ResolveFrom(t, textures, {});
    assert ResolveFrom(t, textures, {}) == ResolveFrom(texture, textures, {} + {key});
    assert ResolveFrom(texture, textures, {} + {key}) == Some(texture);
  }

  // ---------------------------------------------------------------------------
  // toOutputFileName
  // ---------------------------------------------------------------------------

  /**
   * toOutputFileName: the name without its last extension (a dot at the
   * start does not count, and a blank base keeps the whole name), then
   * the suffix.
   */
  function OutputFileName(name: string, suffix: string): (r: string)
    ensures |r| >= |suffix| && r[|r| - |suffix|..] == suffix
  {
    var dot := LastIndexOf(name, '.');
    var base := if dot > 0 then name[..dot] else name;
    (if IsBlank(JavaTrim, base) then name else base) + suffix
  }

  /** The texture report's name for an input file. */
  function TexturesFileName(name: string): (r: string)
    ensures |r| >= 14 && r[|r| - 14..] == ".textures.json"
  {
    OutputFileName(name, ".textures.json")
  }

  /** A name without a dot keeps all of it. */
  lemma NoExtension(name: string, suffix: string)
    requires '.' !in name
    ensures OutputFileName(name, suffix) == name + suffix
  {
    LastIndexOfSpec(name, '.');
  }

  /** The last extension is replaced, and only the last, when the base is not blank. */
  lemma ReplacesLastExtension(base: string, ext: string, suffix: string)
    requires '.' !in ext && !IsBlank(JavaTrim, base)
    ensures OutputFileName(base + "." + ext, suffix) == base + suffix
  {
    LastIndexOfAfter(base, '.', ext);
    assert base != [];
    assert (base + "." + ext)[..|base|] == base;
  }

  /** A name whose only dot is its first character is kept whole. */
  lemma LeadingDotKept(ext: string, suffix: string)
    requires '.' !in ext
    ensures OutputFileName("." + ext, suffix) == "." + ext + suffix
  {
    LastIndexOfAfter([], '.', ext);
    assert [] + ['.'] + ext == "." + ext;
  }
}
