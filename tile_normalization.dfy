/**
 * Tile normalisation: turns the decoded tile list (or a flat box list) into
 * the scene the face pipeline works on. Tiles and boxes get consecutive ids,
 * grids fall back from tile to box to the tile's own grid to 16, block
 * states are reduced to block ids, and each tile's solidity and
 * cull-over-edge flags are inferred from its block id and colour, with
 * optional per-block overrides.
 */
module TileNormalization {
  import opened Wrappers
  import opened Strings
  import opened Json
  import opened Scene
  import opened TransformableCache

  const DEFAULT_GRID_COUNT: PositiveInt := 16
  const DEFAULT_BLOCK_STATE: string := "minecraft:air"
  const NO_COLLISION_STRUCTURE: string := "noclip"

  /** Path tokens that make a block translucent. */
  const TRANSLUCENT_PATH_TOKENS: seq<string> := ["air", "leaves", "glass", "pane", "ice", "water", "lava", "barrier"]
  /** Path tokens that switch cull-over-edge off. */
  const CULL_OVER_EDGE_DISABLED_PATH_TOKENS: seq<string> := ["leaves"]
  /** The separators of a block id's path. */
  const PATH_SEPARATORS: set<char> := {'_', '.', '/', '-'}

  /**
   * A decoded box before normalisation. Grids are numbers already (None is
   * a missing grid); a box of a flat box list carries its tile's fields.
   */
  datatype RawBox = RawBox(
    kind: BoxKind,
    grid: Option<real>,
    minX: int, minY: int, minZ: int,
    maxX: int, maxY: int, maxZ: int,
    transformData: Option<seq<int>>,
    blockState: Option<string>,
    color: Option<real>,
    structureId: Option<string>)

  /** A decoded tile before normalisation; colour None is a missing or non-numeric colour. */
  datatype RawTile = RawTile(
    blockState: Option<string>,
    color: Option<real>,
    structureId: Option<string>,
    grid: Option<real>,
    boxes: seq<RawBox>)

  /** The accepted input shapes: an object with a tile list, a bare box list, or anything else. */
  datatype Input = WithTiles(tiles: seq<RawTile>) | FlatBoxes(boxes: seq<RawBox>) | Neither

  /** The colour rule: an integral number, or -1. */
  function ColorOf(color: Option<real>): (c: int)
    ensures color.Some? && IsIntegral(color.value) ==> c as real == color.value
    ensures !(color.Some? && IsIntegral(color.value)) ==> c == -1
  {
    if color.Some? && IsIntegral(color.value) then color.value.Floor else -1
  }

  /** A flat box becomes a one-box tile with the box's own block state, colour, structure and grid. */
  function TileOfBox(box: RawBox): (t: RawTile)
    ensures t.boxes == [box] && t.grid == box.grid && t.structureId == box.structureId
    ensures ColorOf(t.color) == ColorOf(box.color)
    ensures t.blockState.Some? && (box.blockState.Some? ==> t.blockState == box.blockState)
  {
    RawTile(Some(if box.blockState.Some? then box.blockState.value else DEFAULT_BLOCK_STATE),
            Some(ColorOf(box.color) as real), box.structureId, box.grid, [box])
  }

  /** The raw tiles of an input. */
  function RawTilesOf(input: Input): (ts: seq<RawTile>)
    ensures input.WithTiles? ==> ts == input.tiles
    ensures input.FlatBoxes? ==> |ts| == |input.boxes| && forall i :: 0 <= i < |ts| ==> ts[i] == TileOfBox(input.boxes[i])
    ensures input.Neither? ==> ts == []
  {
    match input
    case WithTiles(tiles) => tiles
    case FlatBoxes(boxes) => seq(|boxes|, i requires 0 <= i < |boxes| => TileOfBox(boxes[i]))
    case Neither => []
  }

  // ---------------------------------------------------------------------
  // Grid fallback
  // ---------------------------------------------------------------------

  /** The first positive integral grid among the boxes, searching from the front. */
  function FirstBoxGrid(boxes: seq<RawBox>): (g: Option<PositiveInt>)
    ensures g.Some? <==> exists i :: 0 <= i < |boxes| && IsPositiveIntNumber(boxes[i].grid)
  {
    if boxes == [] then None
    else if IsPositiveIntNumber(boxes[0].grid) then Some(PositiveIntOf(boxes[0].grid))
    else
      var rest := FirstBoxGrid(boxes[1..]);
      assert forall i :: 1 <= i < |boxes| ==> boxes[i] == boxes[1..][i - 1];
      rest
  }

  /** The grid preference: the grid itself, then the first box grid, then the fallback, then 16. */
  function GridPreference(grid: Option<real>, boxes: seq<RawBox>, fallback: Option<real>): PositiveInt
  {
    if IsPositiveIntNumber(grid) then PositiveIntOf(grid)
    else if FirstBoxGrid(boxes).Some? then FirstBoxGrid(boxes).value
    else if IsPositiveIntNumber(fallback) then PositiveIntOf(fallback)
    else DEFAULT_GRID_COUNT
  }

  /** The box grid FirstBoxGrid finds is the grid of the first box that has a positive one. */
  lemma {:induction false} FirstBoxGridIsFirst(boxes: seq<RawBox>, i: nat)
    requires i < |boxes| && IsPositiveIntNumber(boxes[i].grid)
    requires forall k :: 0 <= k < i ==> !IsPositiveIntNumber(boxes[k].grid)
    ensures FirstBoxGrid(boxes) == Some(PositiveIntOf(boxes[i].grid))
    decreases i
  {
    if i > 0 {
      FirstBoxGridIsFirst(boxes[1..], i - 1);
    }
  }

  /**
   * toGridCount: the first positive integer among the grid, the boxes' grids
   * in order and the fallback; 16 when there is none.
   */
  method ToGridCount(grid: Option<real>, boxes: seq<RawBox>, fallback: Option<real>) returns (g: PositiveInt)
    ensures g == GridPreference(grid, boxes, fallback)
    ensures IsPositiveIntNumber(grid) ==> g as real == grid.value
  {
    if IsPositiveIntNumber(grid) {
      return PositiveIntOf(grid);
    }
    var i := 0;
    while i < |boxes|
      invariant 0 <= i <= |boxes|
      invariant forall k :: 0 <= k < i ==> !IsPositiveIntNumber(boxes[k].grid)
    {
      if IsPositiveIntNumber(boxes[i].grid) {
        FirstBoxGridIsFirst(boxes, i);
        return PositiveIntOf(boxes[i].grid);
      }
      i := i + 1;
    }
    if IsPositiveIntNumber(fallback) {
      return PositiveIntOf(fallback);
    }
    return DEFAULT_GRID_COUNT;
  }

  /** The grid is always positive, and a positive integral grid of its own wins. */
  lemma GridPreferenceOwnGridWins(grid: Option<real>, boxes: seq<RawBox>, fallback: Option<real>)
    requires IsPositiveIntNumber(grid)
    ensures GridPreference(grid, boxes, fallback) as real == grid.value
  {
  }

  /** With no usable grid anywhere the default 16 is used. */
  lemma GridPreferenceDefault(grid: Option<real>, boxes: seq<RawBox>, fallback: Option<real>)
    requires !IsPositiveIntNumber(grid) && !IsPositiveIntNumber(fallback)
    requires forall i :: 0 <= i < |boxes| ==> !IsPositiveIntNumber(boxes[i].grid)
    ensures GridPreference(grid, boxes, fallback) == 16
  {
  }

  // ---------------------------------------------------------------------
  // Block ids, structures and behaviour
  // ---------------------------------------------------------------------

  /** boxWorldBounds: the raw bounds divided by the grid. */
  function WorldBound(raw: int, grid: PositiveInt): real
  {
    raw as real / grid as real
  }

  /** A world bound times the grid is the raw bound, and a bound within the grid lies in the unit block. */
  lemma WorldBoundScales(raw: int, grid: PositiveInt)
    ensures WorldBound(raw, grid) * grid as real == raw as real
    ensures 0 <= raw <= grid ==> 0.0 <= WorldBound(raw, grid) <= 1.0
  {
  }

  /** blockStateName: the block state up to its first '['. */
  function BlockStateName(state: string): (name: string)
    ensures |name| <= |state|
  {
    var i := IndexOf(state, '[');
    if i >= 0 then state[..i] else state
  }

  /** The name is the longest prefix without '['. */
  lemma BlockStateNameSpec(state: string)
    ensures '[' !in BlockStateName(state)
    ensures IsPrefix(BlockStateName(state), state)
    ensures '[' !in state ==> BlockStateName(state) == state
    ensures '[' in state ==> state[|BlockStateName(state)|] == '['
  {
    IndexOfSpec(state, '[');
  }

  /** A metadata suffix: an optional '-' and one or more digits. */
  predicate IsMeta(p: string)
  {
    if |p| > 0 && p[0] == '-' then IsDigits(p[1..]) else IsDigits(p)
  }

  /** An id of the legacy form namespace:path:meta, with non-empty namespace and path. */
  predicate HasMetaSuffix(id: string)
  {
    var parts := Split(id, ':');
    |parts| == 3 && |parts[0]| > 0 && |parts[1]| > 0 && IsMeta(parts[2])
  }

  /** The trimmed block-state name. */
  function TrimmedName(state: string): string
  {
    Trim(JsTrim, BlockStateName(state))
  }

  /**
   * canonicalBlockId: the trimmed block-state name; when it has the legacy
   * form namespace:path:meta, everything from the last ':' on is dropped.
   */
  function CanonicalBlockId(state: string): (id: string)
    ensures |id| <= |state|
  {
    var name := TrimmedName(state);
    var i := LastIndexOf(name, ':');
    if HasMetaSuffix(name) && i >= 0 then name[..i] else name
  }

  /**
   * A canonical block id has no '[' and no leading white space; it is a
   * prefix of the trimmed name, and the whole trimmed name unless that has
   * a metadata suffix.
   */
  lemma CanonicalBlockIdSpec(state: string)
    ensures '[' !in CanonicalBlockId(state)
    ensures CanonicalBlockId(state) != [] ==> !IsTrimmable(JsTrim, CanonicalBlockId(state)[0])
    ensures IsPrefix(CanonicalBlockId(state), TrimmedName(state))
    ensures !HasMetaSuffix(TrimmedName(state)) ==> CanonicalBlockId(state) == TrimmedName(state)
  {
    var raw := BlockStateName(state);
    BlockStateNameSpec(state);
    TrimSpec(JsTrim, raw);
    var name := TrimmedName(state);
    var start := LeadingCount(JsTrim, raw);
    assert name == raw[start..start + |name|];
    assert '[' !in name by {
      forall k | 0 <= k < |name|
        ensures name[k] != '['
      {
        assert name[k] == raw[start + k];
      }
    }
    var id := CanonicalBlockId(state);
    assert id == name[..|id|];
    assert '[' !in id by {
      forall k | 0 <= k < |id|
        ensures id[k] != '['
      {
        assert id[k] == name[k];
      }
    }
  }

  /** A legacy id namespace:path:meta is reduced to namespace:path. */
  lemma CanonicalBlockIdDropsMeta(ns: string, path: string, meta: string)
    requires ns != [] && path != [] && ':' !in ns && ':' !in path && ':' !in meta && IsMeta(meta)
    requires '[' !in ns && '[' !in path && '[' !in meta
    requires !IsTrimmable(JsTrim, ns[0])
    ensures CanonicalBlockId(ns + ":" + path + ":" + meta) == ns + ":" + path
  {
    var s := ns + ":" + path + ":" + meta;
    MetaName(ns, path, meta);
    CanonicalBlockIdOfMetaName(s, |ns| + 1 + |path|);
    assert s[..|ns| + 1 + |path|] == ns + ":" + path;
  }

  /** A legacy id is its own trimmed name, has a metadata suffix, and its last ':' is the one before the metadata. */
  lemma MetaName(ns: string, path: string, meta: string)
    requires ns != [] && path != [] && ':' !in ns && ':' !in path && ':' !in meta && IsMeta(meta)
    requires '[' !in ns && '[' !in path && '[' !in meta
    requires !IsTrimmable(JsTrim, ns[0])
    ensures var s := ns + ":" + path + ":" + meta;
      && TrimmedName(s) == s && HasMetaSuffix(s) && LastIndexOf(s, ':') == |ns| + 1 + |path|
  {
    MetaIdSplit(ns, path, meta);
    MetaIdTrimmed(ns, path, meta);
    MetaIdLastColon(ns, path, meta);
  }

  /** With a metadata suffix, the canonical id is the trimmed name up to its last ':'. */
  lemma CanonicalBlockIdOfMetaName(state: string, at: nat)
    requires HasMetaSuffix(TrimmedName(state)) && LastIndexOf(TrimmedName(state), ':') == at
    ensures at <= |TrimmedName(state)| && CanonicalBlockId(state) == TrimmedName(state)[..at]
  {
  }

  lemma MetaIdLastColon(ns: string, path: string, meta: string)
    requires ':' !in meta
    ensures LastIndexOf(ns + ":" + path + ":" + meta, ':') == |ns| + 1 + |path|
  {
    assert ns + ":" + path + ":" + meta == (ns + ":" + path) + [':'] + meta;
    LastIndexOfAfter(ns + ":" + path, ':', meta);
  }

  lemma MetaIdSplit(ns: string, path: string, meta: string)
    requires ':' !in ns && ':' !in path && ':' !in meta
    ensures Split(ns + ":" + path + ":" + meta, ':') == [ns, path, meta]
  {
    assert Join([path, meta], [':']) == path + ":" + meta;
    assert ns + ":" + path + ":" + meta == Join([ns, path, meta], [':']);
    SplitJoin([ns, path, meta], ':');
  }

  lemma MetaIdTrimmed(ns: string, path: string, meta: string)
    requires ns != [] && IsMeta(meta) && !IsTrimmable(JsTrim, ns[0])
    requires '[' !in ns && '[' !in path && '[' !in meta
    ensures TrimmedName(ns + ":" + path + ":" + meta) == ns + ":" + path + ":" + meta
  {
    var s := ns + ":" + path + ":" + meta;
    assert '[' !in s;
    BlockStateNameSpec(s);
    assert '0' <= meta[|meta| - 1] <= '9';
    assert s[|s| - 1] == meta[|meta| - 1];
    assert !IsTrimmable(JsTrim, s[|s| - 1]);
    TrimOfTrimmed(JsTrim, s);
  }

  /** A block state without ':' separators or '[' properties becomes its own trim. */
  lemma CanonicalBlockIdPlain(state: string)
    requires ':' !in state && '[' !in state
    ensures CanonicalBlockId(state) == Trim(JsTrim, state)
  {
    BlockStateNameSpec(state);
    TrimSpec(JsTrim, state);
    var name := Trim(JsTrim, state);
    var start := LeadingCount(JsTrim, state);
    assert name == state[start..start + |name|];
    forall k | 0 <= k < |name|
      ensures name[k] != ':'
    {
      assert name[k] == state[start + k];
    }
    IndexOfSpec(name, ':');
  }

  /** normalizeStructureId: trimmed, with a blank id as no structure. */
  function NormalizeStructureId(value: Option<string>): (id: Option<string>)
    ensures id.Some? ==> id.value != [] && Trim(JsTrim, id.value) == id.value
    ensures value.None? ==> id.None?
  {
    if value.None? then None
    else
      var t := Trim(JsTrim, value.value);
      TrimIdempotent(JsTrim, value.value);
      if t == [] then None else Some(t)
  }

  /** hasNoCollisionStructureAttribute: the structure is the no-collision one. */
  predicate HasNoCollisionStructure(structureId: Option<string>)
  {
    structureId == Some(NO_COLLISION_STRUCTURE)
  }

  /** blockIdPathTokens: the second piece of the id split on ':' (the whole id when there is none), split on separators. */
  function PathTokens(blockId: string): (tokens: seq<string>)
    ensures |tokens| >= 1
  {
    var parts := Split(blockId, ':');
    var path := if |parts| >= 2 then parts[1] else blockId;
    SplitAny(path, PATH_SEPARATORS)
  }

  /** No path token holds a separator. */
  lemma PathTokensAvoidSeparators(blockId: string)
    ensures forall i, k :: 0 <= i < |PathTokens(blockId)| && 0 <= k < |PathTokens(blockId)[i]| ==> PathTokens(blockId)[i][k] !in PATH_SEPARATORS
  {
    var parts := Split(blockId, ':');
    SplitAnyPiecesAvoidSeparators(if |parts| >= 2 then parts[1] else blockId, PATH_SEPARATORS);
  }

  /** Whether one of the listed tokens is a path token of the block id. */
  predicate HasPathToken(blockId: string, listed: seq<string>)
  {
    exists t :: t in listed && t in PathTokens(blockId)
  }

  predicate InferTranslucent(blockId: string)
  {
    HasPathToken(blockId, TRANSLUCENT_PATH_TOKENS)
  }

  predicate IsLeavesBlockId(blockId: string)
  {
    HasPathToken(blockId, CULL_OVER_EDGE_DISABLED_PATH_TOKENS)
  }

  /** isColorTransparent: the alpha byte of the 32-bit ARGB colour is below 255. */
  predicate IsColorTransparent(color: int)
  {
    ToUint32(color) / 0x100_0000 < 255
  }

  /** The missing colour -1 is opaque white; any colour below 0xFF000000 is transparent. */
  lemma ColorTransparency(color: int)
    ensures color == -1 ==> !IsColorTransparent(color)
    ensures IsColorTransparent(color) <==> ToUint32(color) < 0xFF00_0000
  {
  }

  /** A behaviour override: only boolean fields are taken. */
  datatype BehaviorOverride = BehaviorOverride(providesSolidFace: Option<bool>, cullOverEdge: Option<bool>)

  /** The behaviour flags of a tile. */
  datatype Behavior = Behavior(providesSolidFace: bool, cullOverEdge: bool)

  /** An array index as a property key: a decimal number without leading zeros. */
  function ArrayIndexKey(key: string): (i: Option<nat>)
    ensures i.Some? ==> IsDigits(key)
  {
    if IsDigits(key) && (key == "0" || key[0] != '0') then Some(DigitsValue(key)) else None
  }

  /** behaviorOverrides[blockId] for a JSON object or array; other values have no properties of interest. */
  function OverrideEntry(overrides: Json, blockId: string): (e: Option<Json>)
    ensures overrides.JObj? ==> e == Get(overrides, blockId)
    ensures !overrides.JObj? && !overrides.JArr? ==> e.None?
  {
    match overrides
    case JObj(fields) => Get(overrides, blockId)
    case JArr(items) =>
      var i := ArrayIndexKey(blockId);
      if i.Some? && i.value < |items| then Some(items[i.value]) else None
    case _ => None
  }

  /** A boolean field of an object-valued entry. */
  function BoolField(entry: Json, key: string): (b: Option<bool>)
    ensures b.Some? <==> entry.JObj? && key in entry.fields && entry.fields[key].JBool?
    ensures b.Some? ==> entry.fields[key] == JBool(b.value)
  {
    var v := Get(entry, key);
    if v.Some? && v.value.JBool? then Some(v.value.b) else None
  }

  /**
   * resolveBehaviorOverride: the boolean providesSolidFace and cullOverEdge
   * fields of the block's entry, or None when there is no entry or it has
   * neither field.
   */
  function ResolveBehaviorOverride(blockId: string, overrides: Option<Json>): (o: Option<BehaviorOverride>)
    ensures o.Some? ==> o.value.providesSolidFace.Some? || o.value.cullOverEdge.Some?
    ensures overrides.None? ==> o.None?
  {
    if overrides.None? then None
    else
      var entry := OverrideEntry(overrides.value, blockId);
      if entry.None? || !entry.value.JObj? then None
      else
        var o := BehaviorOverride(BoolField(entry.value, "providesSolidFace"), BoolField(entry.value, "cullOverEdge"));
        if o.providesSolidFace.None? && o.cullOverEdge.None? then None else Some(o)
  }

  /** An override comes from an object entry for the block id, and holds its boolean fields. */
  lemma ResolveBehaviorOverrideSource(blockId: string, overrides: Option<Json>)
    requires ResolveBehaviorOverride(blockId, overrides).Some?
    ensures overrides.Some?
    ensures var e := OverrideEntry(overrides.value, blockId);
      && e.Some? && e.value.JObj?
      && ResolveBehaviorOverride(blockId, overrides).value == BehaviorOverride(BoolField(e.value, "providesSolidFace"), BoolField(e.value, "cullOverEdge"))
  {
  }

  /** An object entry with a boolean providesSolidFace or cullOverEdge field always gives an override. */
  lemma ResolveBehaviorOverrideTaken(blockId: string, overrides: Json)
    requires overrides.JObj? && blockId in overrides.fields && overrides.fields[blockId].JObj?
    requires var e := overrides.fields[blockId];
      BoolField(e, "providesSolidFace").Some? || BoolField(e, "cullOverEdge").Some?
    ensures ResolveBehaviorOverride(blockId, Some(overrides)).Some?
  {
  }

  /** The inferred behaviour before overrides. */
  function BaselineBehavior(blockId: string, color: int): Behavior
  {
    Behavior(!(InferTranslucent(blockId) || IsColorTransparent(color)), !IsLeavesBlockId(blockId))
  }

  /**
   * inferStandaloneBlockBehavior: the baseline, with each field the override
   * sets replacing the inferred one.
   */
  function InferStandaloneBlockBehavior(blockId: string, color: int, overrides: Option<Json>): Behavior
  {
    var base := BaselineBehavior(blockId, color);
    var o := ResolveBehaviorOverride(blockId, overrides);
    if o.None? then base
    else
      Behavior(
        if o.value.providesSolidFace.Some? then o.value.providesSolidFace.value else base.providesSolidFace,
        if o.value.cullOverEdge.Some? then o.value.cullOverEdge.value else base.cullOverEdge)
  }

  /**
   * Each field the override sets wins; a field it does not set keeps the
   * baseline: solid unless translucent or transparent, cull-over-edge unless
   * leaves.
   */
  lemma InferStandaloneBlockBehaviorSpec(blockId: string, color: int, overrides: Option<Json>)
    ensures var o := ResolveBehaviorOverride(blockId, overrides);
      var b := InferStandaloneBlockBehavior(blockId, color, overrides);
      && (o.Some? && o.value.providesSolidFace.Some? ==> b.providesSolidFace == o.value.providesSolidFace.value)
      && (o.Some? && o.value.cullOverEdge.Some? ==> b.cullOverEdge == o.value.cullOverEdge.value)
      && (o.None? || o.value.providesSolidFace.None? ==> (b.providesSolidFace <==> !InferTranslucent(blockId) && !IsColorTransparent(color)))
      && (o.None? || o.value.cullOverEdge.None? ==> (b.cullOverEdge <==> !IsLeavesBlockId(blockId)))
  {
  }

  /** Without overrides, glass (a translucent path token) never provides a solid face. */
  lemma GlassIsNotSolid(color: int)
    ensures !InferStandaloneBlockBehavior("minecraft:glass", color, None).providesSolidFace
  {
    var id := "minecraft:glass";
    assert id == "minecraft" + [':'] + "glass";
    PathTokensOfPlainId("minecraft", "glass");
    assert "glass" in TRANSLUCENT_PATH_TOKENS && "glass" in PathTokens(id);
    assert InferTranslucent(id);
  }

  /** An id namespace:path whose path has no separators has that path as its only token. */
  lemma PathTokensOfPlainId(ns: string, path: string)
    requires ':' !in ns && ':' !in path && forall k :: 0 <= k < |path| ==> path[k] !in PATH_SEPARATORS
    ensures PathTokens(ns + [':'] + path) == [path]
  {
    SplitAfterPiece(ns, ':', path);
    IndexOfSpec(path, ':');
    SplitAnyWithoutSeparators(path, PATH_SEPARATORS);
  }

  /** A string without separators is its own single piece. */
  lemma {:induction false} SplitAnyWithoutSeparators(s: string, seps: set<char>)
    requires forall k :: 0 <= k < |s| ==> s[k] !in seps
    ensures SplitAny(s, seps) == [s]
    decreases |s|
  {
    if s != [] {
      SplitAnyWithoutSeparators(s[1..], seps);
      assert [s[0]] + s[1..] == s;
    }
  }

  /**
   * hasStaticExternalNeighbour: a static structure has no world around it,
   * so no face ever has a blocking neighbour block.
   */
  predicate HasStaticExternalNeighbour(face: Facings.Facing, tile: Tile)
  {
    false
  }

  // ---------------------------------------------------------------------
  // normalizeTilesForRendering
  // ---------------------------------------------------------------------

  /** The normalised box: id, grid resolved against the tile's grid, world bounds, no cache yet. */
  function NormalizedBox(raw: RawBox, id: nat, tileGrid: PositiveInt, blockState: string, color: int): (b: Box)
    ensures b.id == id
  {
    var grid := GridPreference(raw.grid, [raw], Some(tileGrid as real));
    Box(id, raw.kind, grid, blockState, color,
        raw.minX, raw.minY, raw.minZ, raw.maxX, raw.maxY, raw.maxZ,
        WorldBound(raw.minX, grid), WorldBound(raw.minY, grid), WorldBound(raw.minZ, grid),
        WorldBound(raw.maxX, grid), WorldBound(raw.maxY, grid), WorldBound(raw.maxZ, grid),
        raw.transformData, None)
  }

  /**
   * The fields of a normalised box: kind, bounds and transform data copied,
   * the tile's block state and colour, the grid preference with the tile's
   * grid as fallback, world bounds equal to raw bounds over the grid, and no
   * cache yet.
   */
  lemma NormalizedBoxFields(raw: RawBox, id: nat, tileGrid: PositiveInt, blockState: string, color: int)
    ensures var b := NormalizedBox(raw, id, tileGrid, blockState, color);
      && b.kind == raw.kind && b.blockState == blockState && b.color == color
      && b.grid == GridPreference(raw.grid, [raw], Some(tileGrid as real))
      && b.minX == raw.minX && b.minY == raw.minY && b.minZ == raw.minZ
      && b.maxX == raw.maxX && b.maxY == raw.maxY && b.maxZ == raw.maxZ
      && (forall axis :: 0 <= axis < 3 ==>
            (b.WorldMin(axis) == WorldBound(b.RawMin(axis), b.grid) && b.WorldMax(axis) == WorldBound(b.RawMax(axis), b.grid)))
      && b.transformData == raw.transformData && b.transformCache.None?
  {
  }

  /** One box of the normalisation loop: its grid by toGridCount, then its world bounds. */
  method NormalizeBox(raw: RawBox, id: nat, tileGrid: PositiveInt, blockState: string, color: int) returns (b: Box)
    ensures b == NormalizedBox(raw, id, tileGrid, blockState, color)
  {
    var grid := ToGridCount(raw.grid, [raw], Some(tileGrid as real));
    b := Box(id, raw.kind, grid, blockState, color,
             raw.minX, raw.minY, raw.minZ, raw.maxX, raw.maxY, raw.maxZ,
             WorldBound(raw.minX, grid), WorldBound(raw.minY, grid), WorldBound(raw.minZ, grid),
             WorldBound(raw.maxX, grid), WorldBound(raw.maxY, grid), WorldBound(raw.maxZ, grid),
             raw.transformData, None);
  }

  /** A box inherits the tile grid exactly when it has no positive integral grid of its own. */
  lemma BoxGridInheritance(raw: RawBox, tileGrid: PositiveInt)
    ensures IsPositiveIntNumber(raw.grid) ==> GridPreference(raw.grid, [raw], Some(tileGrid as real)) as real == raw.grid.value
    ensures !IsPositiveIntNumber(raw.grid) ==> GridPreference(raw.grid, [raw], Some(tileGrid as real)) == tileGrid
  {
  }

  /** The normalised tile, before its boxes are added. */
  function TileHeader(raw: RawTile, id: nat, overrides: Option<Json>): (t: Tile)
    ensures t.id == id && t.boxes == []
  {
    var blockState := if raw.blockState.Some? then raw.blockState.value else DEFAULT_BLOCK_STATE;
    var color := ColorOf(raw.color);
    var blockId := CanonicalBlockId(blockState);
    var structureId := NormalizeStructureId(raw.structureId);
    var behavior := InferStandaloneBlockBehavior(blockId, color, overrides);
    Tile(id, blockState, blockId, color, structureId, HasNoCollisionStructure(structureId),
         GridPreference(raw.grid, raw.boxes, None), behavior.providesSolidFace, behavior.cullOverEdge, [])
  }

  /**
   * The fields of a normalised tile: the block state (default air), its
   * canonical block id, the colour rule, the trimmed structure id and its
   * no-collision flag, the grid preference with no fallback, and the
   * inferred behaviour.
   */
  lemma TileHeaderFields(raw: RawTile, id: nat, overrides: Option<Json>)
    ensures var t := TileHeader(raw, id, overrides);
      && (raw.blockState.Some? ==> t.blockState == raw.blockState.value)
      && (raw.blockState.None? ==> t.blockState == DEFAULT_BLOCK_STATE)
      && t.blockId == CanonicalBlockId(t.blockState)
      && t.color == ColorOf(raw.color)
      && t.structureId == NormalizeStructureId(raw.structureId)
      && (t.structureNoCollision <==> t.structureId == Some(NO_COLLISION_STRUCTURE))
      && t.grid == GridPreference(raw.grid, raw.boxes, None)
      && Behavior(t.providesSolidFace, t.cullOverEdge) == InferStandaloneBlockBehavior(t.blockId, t.color, overrides)
  {
  }

  /** The boxes of a tile, numbered from firstId. */
  function NormalizedBoxes(raws: seq<RawBox>, firstId: nat, header: Tile): (bs: seq<Box>)
    ensures |bs| == |raws|
    ensures forall j :: 0 <= j < |raws| ==> bs[j] == NormalizedBox(raws[j], firstId + j, header.grid, header.blockState, header.color)
  {
    seq(|raws|, j requires 0 <= j < |raws| => NormalizedBox(raws[j], firstId + j, header.grid, header.blockState, header.color))
  }

  /** A normalised tile with its boxes, before the tile and box counters are applied (both numbered from 0). */
  function TileContent(raw: RawTile, overrides: Option<Json>): (t: Tile)
    ensures |t.boxes| == |raw.boxes|
  {
    var header := TileHeader(raw, 0, overrides);
    header.(boxes := NormalizedBoxes(raw.boxes, 0, header))
  }

  /** The contents of the tiles that have boxes, in order. */
  function Contents(raws: seq<RawTile>, overrides: Option<Json>): (ts: seq<Tile>)
    ensures forall i :: 0 <= i < |ts| ==> |ts[i].boxes| > 0
  {
    if raws == [] then []
    else
      var prev := Contents(raws[..|raws| - 1], overrides);
      var last := raws[|raws| - 1];
      if |last.boxes| == 0 then prev else prev + [TileContent(last, overrides)]
  }

  /** The number of boxes in the tiles before index i. */
  function BoxesBefore(tiles: seq<Tile>, i: nat): nat
    requires i <= |tiles|
  {
    if i == 0 then 0 else BoxesBefore(tiles, i - 1) + |tiles[i - 1].boxes|
  }

  function TotalBoxes(tiles: seq<Tile>): nat
  {
    BoxesBefore(tiles, |tiles|)
  }

  /** The counters applied to one tile: its tile id, and box ids from firstBoxId on. */
  function NumberTile(t: Tile, id: nat, firstBoxId: nat): (n: Tile)
    ensures n.id == id && |n.boxes| == |t.boxes|
    ensures forall j :: 0 <= j < |n.boxes| ==> n.boxes[j] == t.boxes[j].(id := firstBoxId + j)
  {
    t.(id := id, boxes := seq(|t.boxes|, j requires 0 <= j < |t.boxes| => t.boxes[j].(id := firstBoxId + j)))
  }

  /** The counters applied to a list of tiles, in order. */
  function NumberAll(ts: seq<Tile>): (r: seq<Tile>)
    ensures |r| == |ts|
    ensures forall i :: 0 <= i < |ts| ==> |r[i].boxes| == |ts[i].boxes|
  {
    if ts == [] then []
    else
      var init := ts[..|ts| - 1];
      NumberAll(init) + [NumberTile(ts[|ts| - 1], |init|, TotalBoxes(init))]
  }

  /** The normalised tiles of a list of raw tiles. */
  function NormalizeAll(raws: seq<RawTile>, overrides: Option<Json>): seq<Tile>
  {
    NumberAll(Contents(raws, overrides))
  }

  /** The whole normalisation of an input. */
  function NormalizeTiles(input: Input, overrides: Option<Json>): seq<Tile>
  {
    NormalizeAll(RawTilesOf(input), overrides)
  }

  /** The inner loop: each box of a tile in turn, the box counter running on. */
  method NormalizeTileBoxes(raws: seq<RawBox>, firstId: nat, header: Tile) returns (boxes: seq<Box>, nextId: nat)
    ensures boxes == NormalizedBoxes(raws, firstId, header)
    ensures nextId == firstId + |raws|
  {
    boxes := [];
    nextId := firstId;
    for j := 0 to |raws|
      invariant nextId == firstId + j
      invariant |boxes| == j
      invariant forall k :: 0 <= k < j ==> boxes[k] == NormalizedBox(raws[k], firstId + k, header.grid, header.blockState, header.color)
    {
      var box := NormalizeBox(raws[j], nextId, header.grid, header.blockState, header.color);
      boxes := boxes + [box];
      nextId := nextId + 1;
    }
  }

  /** The tile the loop builds with counters id and firstBoxId is the numbered content of the raw tile. */
  lemma NumberedContent(raw: RawTile, id: nat, firstBoxId: nat, overrides: Option<Json>)
    ensures var header := TileHeader(raw, id, overrides);
      header.(boxes := NormalizedBoxes(raw.boxes, firstBoxId, header)) == NumberTile(TileContent(raw, overrides), id, firstBoxId)
  {
    var header := TileHeader(raw, id, overrides);
    var header0 := TileHeader(raw, 0, overrides);
    assert header0.(id := id) == header;
    var built := NormalizedBoxes(raw.boxes, firstBoxId, header);
    var numbered := NumberTile(TileContent(raw, overrides), id, firstBoxId);
    assert |built| == |numbered.boxes|;
    forall j | 0 <= j < |built|
      ensures built[j] == numbered.boxes[j]
    {
      NormalizedBoxFields(raw.boxes[j], 0, header.grid, header.blockState, header.color);
      NormalizedBoxFields(raw.boxes[j], firstBoxId + j, header.grid, header.blockState, header.color);
    }
  }

  /** Appending a content tile appends its numbered form. */
  lemma ContentsSnoc(raws: seq<RawTile>, i: nat, overrides: Option<Json>)
    requires i < |raws|
    ensures |raws[i].boxes| == 0 ==> Contents(raws[..i + 1], overrides) == Contents(raws[..i], overrides)
    ensures |raws[i].boxes| > 0 ==> Contents(raws[..i + 1], overrides) == Contents(raws[..i], overrides) + [TileContent(raws[i], overrides)]
  {
    assert raws[..i + 1][..i] == raws[..i];
  }

  /** A raw tile with boxes adds its content, numbered after the tiles before it; one without adds nothing. */
  lemma NormalizeAllSnoc(raws: seq<RawTile>, i: nat, overrides: Option<Json>)
    requires i < |raws|
    ensures |raws[i].boxes| == 0 ==> NormalizeAll(raws[..i + 1], overrides) == NormalizeAll(raws[..i], overrides)
    ensures |raws[i].boxes| > 0 ==>
      NormalizeAll(raws[..i + 1], overrides)
      == NormalizeAll(raws[..i], overrides)
         + [NumberTile(TileContent(raws[i], overrides), |NormalizeAll(raws[..i], overrides)|, TotalBoxes(NormalizeAll(raws[..i], overrides)))]
    ensures TotalBoxes(NormalizeAll(raws[..i + 1], overrides)) == TotalBoxes(NormalizeAll(raws[..i], overrides)) + |raws[i].boxes|
  {
    ContentsSnoc(raws, i, overrides);
    var cs := Contents(raws[..i], overrides);
    NumberAllWellNumbered(cs);
    if |raws[i].boxes| > 0 {
      var c := TileContent(raws[i], overrides);
      assert (cs + [c])[..|cs|] == cs;
      TotalBoxesSnoc(NumberAll(cs), NumberTile(c, |cs|, TotalBoxes(cs)));
    }
  }

  /** One tile of the loop: its fields, its grid by toGridCount, then its boxes. */
  method NormalizeTile(raw: RawTile, tileId: nat, boxId: nat, overrides: Option<Json>) returns (tile: Tile, nextBoxId: nat)
    ensures tile == NumberTile(TileContent(raw, overrides), tileId, boxId)
    ensures nextBoxId == boxId + |raw.boxes|
  {
    var header := TileHeader(raw, tileId, overrides);
    var grid := ToGridCount(raw.grid, raw.boxes, None);
    assert grid == header.grid;
    var boxes;
    boxes, nextBoxId := NormalizeTileBoxes(raw.boxes, boxId, header);
    NumberedContent(raw, tileId, boxId, overrides);
    tile := header.(boxes := boxes);
  }

  /**
   * normalizeTilesForRendering: one pass over the raw tiles with running tile
   * and box counters; tiles without boxes are skipped.
   */
  method NormalizeTilesForRendering(input: Input, overrides: Option<Json>) returns (tiles: seq<Tile>)
    ensures tiles == NormalizeTiles(input, overrides)
  {
    var raws := RawTilesOf(input);
    tiles := [];
    var tileId := 0;
    var boxId := 0;
    for i := 0 to |raws|
      invariant tiles == NormalizeAll(raws[..i], overrides)
      invariant tileId == |tiles| && boxId == TotalBoxes(tiles)
    {
      NormalizeAllSnoc(raws, i, overrides);
      if |raws[i].boxes| > 0 {
        var tile, nextBoxId := NormalizeTile(raws[i], tileId, boxId, overrides);
        tiles := tiles + [tile];
        tileId := tileId + 1;
        boxId := nextBoxId;
      }
    }
    assert raws[..|raws|] == raws;
  }

  // ---------------------------------------------------------------------
  // Properties of the normalisation
  // ---------------------------------------------------------------------

  lemma {:induction false} BoxesBeforePrefix(tiles: seq<Tile>, extra: Tile, i: nat)
    requires i <= |tiles|
    ensures BoxesBefore(tiles + [extra], i) == BoxesBefore(tiles, i)
    decreases i
  {
    if i > 0 {
      BoxesBeforePrefix(tiles, extra, i - 1);
    }
  }

  lemma TotalBoxesSnoc(tiles: seq<Tile>, t: Tile)
    ensures TotalBoxes(tiles + [t]) == TotalBoxes(tiles) + |t.boxes|
  {
    BoxesBeforePrefix(tiles, t, |tiles|);
  }

  /** The tiles and boxes of a normalisation: tile ids 0, 1, ...; every tile has a box; box ids run on across tiles. */
  predicate WellNumbered(tiles: seq<Tile>)
  {
    && (forall i :: 0 <= i < |tiles| ==> tiles[i].id == i && |tiles[i].boxes| > 0)
    && (forall i, j :: 0 <= i < |tiles| && 0 <= j < |tiles[i].boxes| ==> tiles[i].boxes[j].id == BoxesBefore(tiles, i) + j)
  }

  /** Appending a tile numbered after the others keeps the numbering. */
  lemma WellNumberedSnoc(prev: seq<Tile>, t: Tile)
    requires WellNumbered(prev)
    requires t.id == |prev| && |t.boxes| > 0
    requires forall j :: 0 <= j < |t.boxes| ==> t.boxes[j].id == TotalBoxes(prev) + j
    ensures WellNumbered(prev + [t])
  {
    var all := prev + [t];
    forall i | 0 <= i <= |prev|
      ensures BoxesBefore(all, i) == BoxesBefore(prev, i)
    {
      BoxesBeforePrefix(prev, t, i);
    }
    forall i, j | 0 <= i < |all| && 0 <= j < |all[i].boxes|
      ensures all[i].boxes[j].id == BoxesBefore(all, i) + j
    {
      if i < |prev| {
        assert all[i] == prev[i];
      }
    }
  }

  /** Numbering tiles that all have boxes numbers them well and keeps the box total. */
  lemma {:induction false} NumberAllWellNumbered(ts: seq<Tile>)
    requires forall i :: 0 <= i < |ts| ==> |ts[i].boxes| > 0
    ensures WellNumbered(NumberAll(ts))
    ensures TotalBoxes(NumberAll(ts)) == TotalBoxes(ts)
    decreases |ts|
  {
    if ts != [] {
      var init := ts[..|ts| - 1];
      var last := ts[|ts| - 1];
      NumberAllWellNumbered(init);
      var t := NumberTile(last, |init|, TotalBoxes(init));
      WellNumberedSnoc(NumberAll(init), t);
      TotalBoxesSnoc(NumberAll(init), t);
      TotalBoxesSnoc(init, last);
      assert init + [last] == ts;
    }
  }

  /**
   * Normalisation numbers tiles consecutively from 0, keeps only tiles with
   * boxes, and numbers boxes consecutively from 0 across all tiles.
   */
  lemma NormalizeAllWellNumbered(raws: seq<RawTile>, overrides: Option<Json>)
    ensures WellNumbered(NormalizeAll(raws, overrides))
  {
    NumberAllWellNumbered(Contents(raws, overrides));
  }

  /** The number of raw tiles that have boxes. */
  function NonEmptyCount(raws: seq<RawTile>): nat
  {
    if raws == [] then 0 else NonEmptyCount(raws[..|raws| - 1]) + (if |raws[|raws| - 1].boxes| > 0 then 1 else 0)
  }

  /** The number of boxes in a list of raw tiles. */
  function BoxCount(raws: seq<RawTile>): nat
  {
    if raws == [] then 0 else BoxCount(raws[..|raws| - 1]) + |raws[|raws| - 1].boxes|
  }

  /** There is one normalised tile per raw tile with boxes, and one normalised box per raw box. */
  lemma {:induction false} NormalizeAllCounts(raws: seq<RawTile>, overrides: Option<Json>)
    ensures |NormalizeAll(raws, overrides)| == NonEmptyCount(raws)
    ensures TotalBoxes(NormalizeAll(raws, overrides)) == BoxCount(raws)
    decreases |raws|
  {
    NumberAllWellNumbered(Contents(raws, overrides));
    ContentsCounts(raws, overrides);
  }

  lemma {:induction false} ContentsCounts(raws: seq<RawTile>, overrides: Option<Json>)
    ensures |Contents(raws, overrides)| == NonEmptyCount(raws)
    ensures TotalBoxes(Contents(raws, overrides)) == BoxCount(raws)
    decreases |raws|
  {
    if raws != [] {
      var init := raws[..|raws| - 1];
      var last := raws[|raws| - 1];
      ContentsCounts(init, overrides);
      if |last.boxes| > 0 {
        TotalBoxesSnoc(Contents(init, overrides), TileContent(last, overrides));
      }
    }
  }

  /** A flat box list gives one single-box tile per box, numbered 0, 1, ... with box i having id i. */
  lemma FlatBoxesOneTileEach(boxes: seq<RawBox>, overrides: Option<Json>)
    ensures var tiles := NormalizeTiles(FlatBoxes(boxes), overrides);
      |tiles| == |boxes| && forall i :: 0 <= i < |tiles| ==> |tiles[i].boxes| == 1 && tiles[i].boxes[0].id == i
  {
    var raws := RawTilesOf(FlatBoxes(boxes));
    assert forall i :: 0 <= i < |raws| ==> |raws[i].boxes| == 1;
    var cs := Contents(raws, overrides);
    FlatContents(raws, overrides);
    assert NormalizeTiles(FlatBoxes(boxes), overrides) == NumberAll(cs);
    SingleBoxNumbering(cs);
  }

  /** Numbering single-box tiles gives box i the id i. */
  lemma SingleBoxNumbering(cs: seq<Tile>)
    requires forall i :: 0 <= i < |cs| ==> |cs[i].boxes| == 1
    ensures var tiles := NumberAll(cs);
      forall i :: 0 <= i < |tiles| ==> |tiles[i].boxes| == 1 && tiles[i].boxes[0].id == i
  {
    NumberAllWellNumbered(cs);
    var tiles := NumberAll(cs);
    forall i | 0 <= i < |tiles|
      ensures |tiles[i].boxes| == 1 && tiles[i].boxes[0].id == i
    {
      SingleBoxesBefore(tiles, i);
    }
  }

  lemma {:induction false} FlatContents(raws: seq<RawTile>, overrides: Option<Json>)
    requires forall i :: 0 <= i < |raws| ==> |raws[i].boxes| == 1
    ensures |Contents(raws, overrides)| == |raws|
    ensures forall i :: 0 <= i < |raws| ==> |Contents(raws, overrides)[i].boxes| == 1
    decreases |raws|
  {
    if raws != [] {
      FlatContents(raws[..|raws| - 1], overrides);
    }
  }

  lemma {:induction false} SingleBoxesBefore(tiles: seq<Tile>, i: nat)
    requires i <= |tiles|
    requires forall k :: 0 <= k < |tiles| ==> |tiles[k].boxes| == 1
    ensures BoxesBefore(tiles, i) == i
    decreases i
  {
    if i > 0 {
      SingleBoxesBefore(tiles, i - 1);
    }
  }
}
