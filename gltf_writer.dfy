/**
 * The glTF writer: primitive meshes laid out in one binary buffer (each
 * chunk 4-byte aligned), one glTF material per material key, one image and
 * texture per distinct texture URI, 16- or 32-bit indices as the largest
 * index requires, and the texture-offset animation of animated materials.
 */
module GltfWriter {
  import opened Wrappers
  import opened Strings
  import opened Json
  import opened MaterialResolver
  import opened MeshAssembly
  import OffsetTracks

  // ---------------------------------------------------------------------------
  // Alignment and the binary buffer
  // ---------------------------------------------------------------------------

  const TWO_POW_31: int := 0x8000_0000
  const TWO_POW_32_INT: int := 0x1_0000_0000

  /** The least multiple of 4 not below v: what align4 computes for offsets below 2^31 − 3. */
  function Align4(v: nat): nat
  {
    (v + 3) / 4 * 4
  }

  /** The aligned offset is a multiple of 4, at most 3 bytes past v, and v itself when v is aligned. */
  lemma Align4Spec(v: nat)
    ensures Align4(v) % 4 == 0
    ensures v <= Align4(v) < v + 4
    ensures v % 4 == 0 ==> Align4(v) == v
  {
  }

  /**
   * align4 as written: (value + 3) & ~3 in JavaScript's 32-bit signed
   * bitwise arithmetic: the sum is wrapped to 32 bits, its two low bits are
   * cleared, and the pattern is read back as a signed integer.
   */
  function Align4AsWritten(v: int): int
  {
    var pattern := (v + 3) % TWO_POW_32_INT;
    var cleared := pattern - pattern % 4;
    if cleared >= TWO_POW_31 then cleared - TWO_POW_32_INT else cleared
  }

  /** The offset addChunk as written gives a chunk: the aligned offset only when it lies past the current total. */
  function ChunkOffsetAsWritten(total: nat): int
  {
    var aligned := Align4AsWritten(total);
    if aligned > total then aligned else total
  }

  /** Below 2^31 − 3 bytes the written align4 agrees with the least multiple of 4. */
  lemma Align4AsWrittenAgrees(v: nat)
    requires v + 3 < TWO_POW_31
    ensures Align4AsWritten(v) == Align4(v)
    ensures ChunkOffsetAsWritten(v) == Align4(v)
  {
  }

  /**
   * From 2^31 − 3 bytes on the written align4 is negative, so addChunk adds
   * no padding and places the next chunk at an offset that is not a
   * multiple of 4.
   */
  lemma Align4AsWrittenOverflows()
    ensures Align4AsWritten(0x7FFF_FFFD) == -0x8000_0000
    ensures ChunkOffsetAsWritten(0x7FFF_FFFD) == 0x7FFF_FFFD
    ensures ChunkOffsetAsWritten(0x7FFF_FFFD) % 4 == 1
    ensures Align4(0x7FFF_FFFD) == 0x8000_0000
  {
  }

  /** The byte range a chunk occupies in the buffer. */
  datatype ChunkView = ChunkView(byteOffset: nat, byteLength: nat)

  /** The total length of some chunks. */
  function Total(chunks: seq<nat>): nat
    decreases |chunks|
  {
    if chunks == [] then 0 else Total(chunks[..|chunks| - 1]) + chunks[|chunks| - 1]
  }

  /** The padding chunk addChunk pushes before a chunk placed after `total` bytes: none when already aligned. */
  function Padding(total: nat): seq<nat>
  {
    if Align4(total) > total then [Align4(total) - total] else []
  }

  lemma TotalAppend(chunks: seq<nat>, more: seq<nat>)
    requires |more| == 1
    ensures Total(chunks + more) == Total(chunks) + more[0]
  {
    assert (chunks + more)[..|chunks + more| - 1] == chunks;
  }

  /**
   * The chunks of the .bin file: their byte lengths in order, padding
   * included, and the running total. The bytes themselves (Float32 and
   * unsigned integer encodings) are not modelled.
   */
  class BinaryBuffer {
    var chunks: seq<nat>
    var totalByteLength: nat

    ghost predicate Valid()
      reads this
    {
      totalByteLength == Total(chunks)
    }

    constructor()
      ensures Valid() && chunks == [] && totalByteLength == 0
    {
      chunks := [];
      totalByteLength := 0;
    }

    /**
     * addChunk: pad to the next multiple of 4, then append the data; the
     * view starts at the aligned offset and the total grows by the padding
     * and the data.
     */
    method AddChunk(byteLength: nat) returns (view: ChunkView)
      requires Valid()
      modifies this
      ensures Valid()
      ensures view == ChunkView(Align4(old(totalByteLength)), byteLength)
      ensures totalByteLength == view.byteOffset + byteLength
      ensures chunks == old(chunks) + Padding(old(totalByteLength)) + [byteLength]
    {
      var alignedOffset := Align4(totalByteLength);
      ghost var padding := Padding(totalByteLength);
      if alignedOffset > totalByteLength {
        TotalAppend(chunks, [alignedOffset - totalByteLength]);
        chunks := chunks + [alignedOffset - totalByteLength];
        totalByteLength := alignedOffset;
      }
      var byteOffset := totalByteLength;
      TotalAppend(chunks, [byteLength]);
      chunks := chunks + [byteLength];
      totalByteLength := totalByteLength + byteLength;
      view := ChunkView(byteOffset, byteLength);
    }
  }

  // ---------------------------------------------------------------------------
  // Index width and accessor bounds
  // ---------------------------------------------------------------------------

  /** maxValue: the largest value, or 0 when none is larger. */
  method MaxValue(values: seq<int>) returns (out: int)
    ensures out >= 0
    ensures forall i :: 0 <= i < |values| ==> values[i] <= out
    ensures out == 0 || out in values
  {
    out := 0;
    for k := 0 to |values|
      invariant out >= 0
      invariant forall i :: 0 <= i < k ==> values[i] <= out
      invariant out == 0 || out in values[..k]
    {
      if values[k] > out {
        out := values[k];
      }
    }
    assert values[..|values|] == values;
  }

  const UNSIGNED_SHORT: int := 5123
  const UNSIGNED_INT: int := 5125
  const FLOAT: int := 5126
  const ARRAY_BUFFER: int := 34962
  const ELEMENT_ARRAY_BUFFER: int := 34963

  /** The index component type for a largest index: 16 bits up to 65535, 32 bits beyond. */
  function IndexComponentType(maxIndex: int): int
  {
    if maxIndex <= 65535 then UNSIGNED_SHORT else UNSIGNED_INT
  }

  /** The byte size of one index of a component type. */
  function IndexByteSize(componentType: int): nat
  {
    if componentType == UNSIGNED_SHORT then 2 else 4
  }

  /** The 16-bit type is chosen exactly when every index fits in 16 bits. */
  method IndexWidth(indices: seq<int>) returns (componentType: int, maxIndex: int)
    ensures componentType == UNSIGNED_SHORT <==> forall i :: 0 <= i < |indices| ==> indices[i] <= 65535
    ensures componentType == UNSIGNED_SHORT || componentType == UNSIGNED_INT
    ensures maxIndex >= 0 && forall i :: 0 <= i < |indices| ==> indices[i] <= maxIndex
    ensures maxIndex == 0 || maxIndex in indices
  {
    maxIndex := MaxValue(indices);
    componentType := IndexComponentType(maxIndex);
  }

  /**
   * Component c of every element of a flat list with `stride` components
   * per element (x, y and z of positions; u and v of texture coordinates).
   */
  ghost function Column(values: seq<real>, stride: nat, c: nat): seq<real>
    requires c < stride
    decreases |values|
  {
    if |values| < stride then []
    else Column(values[..|values| - stride], stride, c) + [values[|values| - stride + c]]
  }

  /** x is the least of some values. */
  ghost predicate IsLeast(x: real, s: seq<real>)
  {
    x in s && forall y :: y in s ==> x <= y
  }

  /** x is the greatest of some values. */
  ghost predicate IsGreatest(x: real, s: seq<real>)
  {
    x in s && forall y :: y in s ==> y <= x
  }

  lemma ColumnSnoc(values: seq<real>, stride: nat, i: nat, c: nat)
    requires c < stride && i + stride <= |values|
    ensures Column(values[..i + stride], stride, c) == Column(values[..i], stride, c) + [values[i + c]]
  {
    assert values[..i + stride][..i] == values[..i];
  }

  /** Bounds of a column, widened by one more value. */
  lemma WidenColumn(lo: real, hi: real, s: seq<real>, x: real)
    requires IsLeast(lo, s) && IsGreatest(hi, s)
    ensures IsLeast(if x < lo then x else lo, s + [x])
    ensures IsGreatest(if x > hi then x else hi, s + [x])
  {
  }

  /** After the first i values, min and max hold the bounds of each component's column. */
  ghost predicate BoundsOf(values: seq<real>, stride: nat, i: nat, min: seq<real>, max: seq<real>)
    requires i <= |values|
  {
    && |min| == stride && |max| == stride
    && forall c :: 0 <= c < stride ==> IsLeast(min[c], Column(values[..i], stride, c)) && IsGreatest(max[c], Column(values[..i], stride, c))
  }

  /** The bounds of the first element are its own components. */
  lemma BoundsOfFirst(values: seq<real>, stride: nat)
    requires 0 < stride <= |values|
    ensures BoundsOf(values, stride, stride, values[..stride], values[..stride])
  {
    var first := values[..stride];
    forall c | 0 <= c < stride
      ensures IsLeast(first[c], Column(first, stride, c)) && IsGreatest(first[c], Column(first, stride, c))
    {
      assert first[..|first| - stride] == [];
      assert Column(first, stride, c) == [first[c]];
    }
  }

  /** Component c of the element at i folded into the bounds. */
  method Widen(values: seq<real>, stride: nat, i: nat, c: nat, min: seq<real>, max: seq<real>)
    returns (min': seq<real>, max': seq<real>)
    requires c < stride && i + stride <= |values| && |min| == stride && |max| == stride
    requires IsLeast(min[c], Column(values[..i], stride, c)) && IsGreatest(max[c], Column(values[..i], stride, c))
    ensures |min'| == stride && |max'| == stride
    ensures forall k :: 0 <= k < stride && k != c ==> min'[k] == min[k] && max'[k] == max[k]
    ensures IsLeast(min'[c], Column(values[..i + stride], stride, c))
    ensures IsGreatest(max'[c], Column(values[..i + stride], stride, c))
  {
    var x := values[i + c];
    min', max' := min, max;
    if x < min[c] { min' := min[c := x]; }
    if x > max[c] { max' := max[c := x]; }
    ColumnSnoc(values, stride, i, c);
    WidenColumn(min[c], max[c], Column(values[..i], stride, c), x);
  }

  /** One vertex's x, y and z folded into the bounds. */
  method WidenVertex(positions: seq<real>, i: nat, min: seq<real>, max: seq<real>)
    returns (min': seq<real>, max': seq<real>)
    requires i + 3 <= |positions| && BoundsOf(positions, 3, i, min, max)
    ensures BoundsOf(positions, 3, i + 3, min', max')
  {
    min', max' := Widen(positions, 3, i, 0, min, max);
    min', max' := Widen(positions, 3, i, 1, min', max');
    min', max' := Widen(positions, 3, i, 2, min', max');
  }

  /** One (u, v) pair folded into the bounds. */
  method WidenPair(values: seq<real>, i: nat, min: seq<real>, max: seq<real>)
    returns (min': seq<real>, max': seq<real>)
    requires i + 2 <= |values| && BoundsOf(values, 2, i, min, max)
    ensures BoundsOf(values, 2, i + 2, min', max')
  {
    min', max' := Widen(values, 2, i, 0, min, max);
    min', max' := Widen(values, 2, i, 1, min', max');
  }

  /**
   * minMax3: the least and greatest x, y and z of flat xyz positions. The
   * source starts from ±Infinity; for the non-empty lists it is given,
   * starting from the first vertex gives the same bounds.
   */
  method MinMax3(positions: seq<real>) returns (min: seq<real>, max: seq<real>)
    requires |positions| >= 3 && |positions| % 3 == 0
    ensures |min| == 3 && |max| == 3
    ensures forall c :: 0 <= c < 3 ==> IsLeast(min[c], Column(positions, 3, c)) && IsGreatest(max[c], Column(positions, 3, c))
  {
    min, max := positions[..3], positions[..3];
    BoundsOfFirst(positions, 3);
    var i := 3;
    while i < |positions|
      invariant 3 <= i <= |positions| && i % 3 == 0
      invariant BoundsOf(positions, 3, i, min, max)
      decreases |positions| - i
    {
      min, max := WidenVertex(positions, i, min, max);
      i := i + 3;
    }
    assert positions[..i] == positions;
  }

  /** minMax2: the least and greatest u and v of flat (u, v) pairs. */
  method MinMax2(values: seq<real>) returns (min: seq<real>, max: seq<real>)
    requires |values| >= 2 && |values| % 2 == 0
    ensures |min| == 2 && |max| == 2
    ensures forall c :: 0 <= c < 2 ==> IsLeast(min[c], Column(values, 2, c)) && IsGreatest(max[c], Column(values, 2, c))
  {
    min, max := values[..2], values[..2];
    BoundsOfFirst(values, 2);
    var i := 2;
    while i < |values|
      invariant 2 <= i <= |values| && i % 2 == 0
      invariant BoundsOf(values, 2, i, min, max)
      decreases |values| - i
    {
      min, max := WidenPair(values, i, min, max);
      i := i + 2;
    }
    assert values[..i] == values;
  }

  // ---------------------------------------------------------------------------
  // Images and textures
  // ---------------------------------------------------------------------------

  /** The index of the one sampler createSamplerIndex adds (nearest filtering, repeat wrapping) before any texture. */
  const SAMPLER_INDEX: nat := 0

  /** A glTF texture: its image, its sampler, and the mcmeta animation in its extras, if any. */
  datatype GltfTexture = GltfTexture(source: nat, sampler: nat, animation: Option<Json>)

  /**
   * The images and textures of the document and the texture index of each
   * trimmed texture URI: one image and one texture per distinct URI, the
   * texture pointing at its own image.
   */
  class TextureTable {
    var images: seq<string>
    var textures: seq<GltfTexture>
    var indexes: map<string, nat>

    ghost predicate Valid()
      reads this
    {
      && |images| == |textures|
      && (forall i :: 0 <= i < |textures| ==>
            textures[i].source == i && textures[i].sampler == SAMPLER_INDEX
            && (textures[i].animation.None? || Truthy(textures[i].animation))
            && images[i] in indexes && indexes[images[i]] == i)
      && (forall k :: k in indexes ==> indexes[k] < |images| && images[indexes[k]] == k)
    }

    constructor()
      ensures Valid() && images == [] && textures == [] && indexes == map[]
    {
      images, textures, indexes := [], [], map[];
    }

    /**
     * resolveTextureIndex: none for a blank URI; the existing texture of a
     * known URI (taking on the animation when it had none); otherwise a new
     * image and texture at the end.
     */
    method ResolveTextureIndex(uri: Option<string>, animation: Option<Json>) returns (index: Option<nat>)
      requires Valid()
      modifies this
      ensures Valid()
      ensures var key := Trim(JsTrim, uri.GetOr(""));
              && (key == [] ==> index.None? && images == old(images) && textures == old(textures) && indexes == old(indexes))
              && (key != [] && key in old(indexes) ==>
                    var i := old(indexes)[key];
                    && index == Some(i)
                    && images == old(images) && indexes == old(indexes)
                    && textures == old(textures)[i := if Truthy(animation) && old(textures)[i].animation.None?
                                                      then old(textures)[i].(animation := animation)
                                                      else old(textures)[i]])
              && (key != [] && key !in old(indexes) ==>
                    && index == Some(|old(textures)|)
                    && images == old(images) + [key]
                    && textures == old(textures) + [GltfTexture(|old(images)|, SAMPLER_INDEX, if Truthy(animation) then animation else None)]
                    && indexes == old(indexes)[key := |old(textures)|])
    {
      var key := Trim(JsTrim, uri.GetOr(""));
      if key == [] {
        return None;
      }
      if key in indexes {
        var existing := indexes[key];
        if Truthy(animation) && textures[existing].animation.None? {
          textures := textures[existing := textures[existing].(animation := animation)];
        }
        return Some(existing);
      }
      var imageIndex := |images|;
      images := images + [key];
      var textureIndex := |textures|;
      textures := textures + [GltfTexture(imageIndex, SAMPLER_INDEX, if Truthy(animation) then animation else None)];
      indexes := indexes[key := textureIndex];
      index := Some(textureIndex);
    }
  }

  /** In a valid table no two images share a URI, and the URIs with a texture are exactly the images. */
  lemma ImagesDistinct(t: TextureTable)
    requires t.Valid()
    ensures forall i, j :: 0 <= i < j < |t.images| ==> t.images[i] != t.images[j]
    ensures forall k :: k in t.indexes <==> k in t.images
  {
    forall k | k in t.images
      ensures k in t.indexes
    {
      var i :| 0 <= i < |t.images| && t.images[i] == k;
    }
  }

  // ---------------------------------------------------------------------------
  // Materials
  // ---------------------------------------------------------------------------

  datatype Vec2 = Vec2(x: real, y: real)

  /** KHR_texture_transform's scale and offset. */
  datatype UvTransform = UvTransform(scale: Vec2, offset: Vec2)

  /** A material's base colour texture: its index and its transform, if any. */
  datatype TextureRef = TextureRef(index: nat, transform: Option<UvTransform>)

  /** A glTF material: name, base colour factor, metallic 0, roughness 1, alpha mode, sidedness and texture. */
  datatype GltfMaterial = GltfMaterial(
    name: string,
    baseColorFactor: Rgba,
    metallicFactor: real,
    roughnessFactor: real,
    alphaMode: AlphaMode,
    doubleSided: bool,
    baseColorTexture: Option<TextureRef>)

  /** normalizeVec2: a two-element array of finite numbers. */
  function NormalizeVec2(value: Option<Json>): (r: Option<Vec2>)
    ensures r.Some? ==> value.Some? && value.value.JArr? && |value.value.items| == 2
  {
    if value.None? || !value.value.JArr? || |value.value.items| != 2 then None
    else
      var x := ToNumber(Some(value.value.items[0]));
      var y := ToNumber(Some(value.value.items[1]));
      if x.None? || y.None? then None else Some(Vec2(x.value, y.value))
  }

  /** normalizeTextureTransform: the animation's uvTransform when both its scale and its offset are pairs of numbers. */
  function NormalizeTextureTransform(animation: Option<Json>): (r: Option<UvTransform>)
    ensures r.Some? <==> NormalizeVec2(GetPath(animation, ["uvTransform", "scale"])).Some?
                         && NormalizeVec2(GetPath(animation, ["uvTransform", "offset"])).Some?
  {
    var uvTransform := GetOpt(animation, "uvTransform");
    var scale := NormalizeVec2(GetOpt(uvTransform, "scale"));
    var offset := NormalizeVec2(GetOpt(uvTransform, "offset"));
    assert GetPath(animation, ["uvTransform", "scale"]) == GetOpt(uvTransform, "scale");
    assert GetPath(animation, ["uvTransform", "offset"]) == GetOpt(uvTransform, "offset");
    if scale.None? || offset.None? then None else Some(UvTransform(scale.value, offset.value))
  }

  /** The texture index a material refers to, if any. */
  function TextureIndexOf(m: GltfMaterial): Option<nat>
  {
    if m.baseColorTexture.Some? then Some(m.baseColorTexture.value.index) else None
  }

  /** toGltfMaterial once the texture index is known: the mesh's material as glTF, textured when there is an index. */
  function GltfMaterialOf(mesh: PrimitiveMesh, textureIndex: Option<nat>): GltfMaterial
  {
    var m := mesh.material;
    GltfMaterial(
      mesh.name, m.baseColorFactor, 0.0, 1.0, m.alphaMode, m.doubleSided,
      if textureIndex.None? then None else Some(TextureRef(textureIndex.value, NormalizeTextureTransform(m.textureAnimation))))
  }

  /** toGltfMaterial: the texture index comes from the table, which may grow. */
  method ToGltfMaterial(mesh: PrimitiveMesh, table: TextureTable) returns (material: GltfMaterial)
    requires table.Valid()
    modifies table
    ensures table.Valid()
    ensures material == GltfMaterialOf(mesh, TextureIndexOf(material))
    ensures material.baseColorTexture.Some? <==> Trim(JsTrim, mesh.material.textureUri.GetOr("")) != []
    ensures old(table.images) <= table.images
    ensures material.baseColorTexture.Some? ==>
              && material.baseColorTexture.value.index < |table.images|
              && table.images[material.baseColorTexture.value.index] == Trim(JsTrim, mesh.material.textureUri.GetOr(""))
  {
    var index := table.ResolveTextureIndex(mesh.material.textureUri, mesh.material.textureAnimation);
    material := GltfMaterialOf(mesh, index);
  }

  /** isAnimatedMaterialTarget: a textured material whose animation carries a texture transform. */
  predicate IsAnimatedMaterialTarget(material: GltfMaterial, animation: Option<Json>)
  {
    material.baseColorTexture.Some? && NormalizeTextureTransform(animation).Some?
  }
}
