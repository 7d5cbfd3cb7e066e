/**
 * writeGltf: the glTF document built from the primitive meshes. Each
 * drawable mesh becomes one primitive with a position accessor, a texture
 * coordinate accessor when it has one pair per vertex, and an index
 * accessor; materials are shared by material key; animated materials get
 * a texture-offset channel each. The document's JSON text and the .bin
 * bytes are not modelled: the buffer views record which numbers they hold.
 */
module GltfDocument {
  import opened Wrappers
  import opened Strings
  import opened Json
  import opened MaterialResolver
  import opened MeshAssembly
  import opened GltfWriter
  import OffsetTracks

  // ---------------------------------------------------------------------------
  // Document parts
  // ---------------------------------------------------------------------------

  datatype AccessorType = Scalar | Vec2Type | Vec3Type

  /** The numbers a buffer view holds: Float32 values, or indices of some byte width. */
  datatype Payload = Floats(xs: seq<real>) | Ints(ns: seq<int>, width: nat)

  function PayloadBytes(p: Payload): nat
  {
    match p
    case Floats(xs) => 4 * |xs|
    case Ints(ns, width) => width * |ns|
  }

  datatype BufferView = BufferView(byteOffset: nat, byteLength: nat, target: Option<int>, payload: Payload)

  datatype Accessor = Accessor(bufferView: nat, componentType: int, count: nat, kind: AccessorType, min: seq<real>, max: seq<real>)

  datatype Primitive = Primitive(position: nat, texcoord: Option<nat>, indices: nat, material: nat)

  /** A material whose texture offset is animated, with the mcmeta animation that drives it. */
  datatype AnimatedTarget = AnimatedTarget(materialIndex: nat, animation: Option<Json>)

  datatype AnimationSampler = AnimationSampler(input: nat, output: nat, interpolation: string)

  /** A channel driving the JSON pointer `pointer` through KHR_animation_pointer. */
  datatype AnimationChannel = AnimationChannel(sampler: nat, pointer: string)

  datatype Animation = Animation(name: string, samplers: seq<AnimationSampler>, channels: seq<AnimationChannel>)

  /** A target whose animation yields an offset track. */
  datatype TrackedTarget = TrackedTarget(materialIndex: nat, track: OffsetTracks.OffsetTrack)

  /**
   * The written document. It always holds the one nearest/repeat sampler;
   * empty image and texture lists are left out of the JSON text.
   */
  datatype Gltf = Gltf(
    materials: seq<GltfMaterial>,
    images: seq<string>,
    textures: seq<GltfTexture>,
    samplerCount: nat,
    bufferViews: seq<BufferView>,
    accessors: seq<Accessor>,
    primitives: seq<Primitive>,
    animation: Option<Animation>,
    extensionsUsed: seq<string>,
    byteLength: nat)

  /** What writeGltf returns besides the file paths. */
  datatype WriteSummary = WriteSummary(byteLength: nat, primitiveCount: nat, materialCount: nat)

  function SummaryOf(g: Gltf): WriteSummary
  {
    WriteSummary(g.byteLength, |g.primitives|, |g.materials|)
  }

  const NO_GEOMETRY: string := "No geometry generated."
  const TEXTURE_TRANSFORM: string := "KHR_texture_transform"
  const ANIMATION_POINTER: string := "KHR_animation_pointer"

  /** The JSON pointer of a material's texture-transform offset. */
  function OffsetPointer(materialIndex: nat): string
  {
    "/materials/" + NatToString(materialIndex) + "/pbrMetallicRoughness/baseColorTexture/extensions/KHR_texture_transform/offset"
  }

  // ---------------------------------------------------------------------------
  // What a primitive must hold
  // ---------------------------------------------------------------------------

  /** A mesh is drawn unless it has no positions or no indices. */
  predicate Drawable(mesh: PrimitiveMesh)
  {
    |mesh.positions| > 0 && |mesh.indices| > 0
  }

  /** A mesh has texture coordinates when it has one (u, v) pair per vertex. */
  predicate HasUvs(mesh: PrimitiveMesh)
  {
    |mesh.positions| % 3 == 0 && |mesh.uvs| == |mesh.positions| / 3 * 2
  }

  /** Every index fits in 16 bits. */
  predicate Fits16(indices: seq<int>)
  {
    forall i :: 0 <= i < |indices| ==> indices[i] <= 65535
  }

  function IndexType(indices: seq<int>): int
  {
    if Fits16(indices) then UNSIGNED_SHORT else UNSIGNED_INT
  }

  /** m is what maxValue gives for the indices: the largest, or 0 when none is larger. */
  ghost predicate IsMaxIndex(m: int, indices: seq<int>)
  {
    m >= 0 && (forall i :: 0 <= i < |indices| ==> indices[i] <= m) && (m == 0 || m in indices)
  }

  /** An index accessor's max: the whole number maxValue gives. */
  ghost predicate IsMaxIndexValue(x: real, indices: seq<int>)
  {
    x == x.Floor as real && IsMaxIndex(x.Floor, indices)
  }

  /** Accessor a exists and reads the view holding `payload`, with the given layout. */
  ghost predicate AccessorHolds(accessors: seq<Accessor>, views: seq<BufferView>, a: nat, kind: AccessorType, componentType: int, count: nat, payload: Payload, target: Option<int>)
  {
    && a < |accessors|
    && accessors[a].bufferView < |views|
    && accessors[a].kind == kind
    && accessors[a].componentType == componentType
    && accessors[a].count == count
    && views[accessors[a].bufferView].payload == payload
    && views[accessors[a].bufferView].target == target
  }

  /** The accessor's min and max are the least and greatest of each component. */
  ghost predicate ColumnBounds(a: Accessor, values: seq<real>, stride: nat)
  {
    && |a.min| == stride && |a.max| == stride
    && forall c :: 0 <= c < stride ==> IsLeast(a.min[c], Column(values, stride, c)) && IsGreatest(a.max[c], Column(values, stride, c))
  }

  /** The primitive's accessors hold the mesh's positions, texture coordinates and indices. */
  ghost predicate PrimitiveDrawn(p: Primitive, mesh: PrimitiveMesh, accessors: seq<Accessor>, views: seq<BufferView>)
  {
    && AccessorHolds(accessors, views, p.position, Vec3Type, FLOAT, |mesh.positions| / 3, Floats(mesh.positions), Some(ARRAY_BUFFER))
    && ColumnBounds(accessors[p.position], mesh.positions, 3)
    && (p.texcoord.Some? <==> HasUvs(mesh))
    && (p.texcoord.Some? ==>
          && AccessorHolds(accessors, views, p.texcoord.value, Vec2Type, FLOAT, |mesh.uvs| / 2, Floats(mesh.uvs), Some(ARRAY_BUFFER))
          && ColumnBounds(accessors[p.texcoord.value], mesh.uvs, 2))
    && AccessorHolds(accessors, views, p.indices, Scalar, IndexType(mesh.indices), |mesh.indices|,
                     Ints(mesh.indices, IndexByteSize(IndexType(mesh.indices))), Some(ELEMENT_ARRAY_BUFFER))
    && |accessors[p.indices].max| == 1 && accessors[p.indices].min == [0.0]
    && IsMaxIndexValue(accessors[p.indices].max[0], mesh.indices)
  }

  /**
   * The views lie one after another in the buffer, each starting at a
   * multiple of 4 and as long as the numbers it holds.
   */
  ghost predicate ViewsOk(views: seq<BufferView>, total: nat)
  {
    && (forall i :: 0 <= i < |views| ==>
          views[i].byteOffset % 4 == 0
          && views[i].byteLength == PayloadBytes(views[i].payload)
          && views[i].byteOffset + views[i].byteLength <= total)
    && (forall i, j :: 0 <= i < j < |views| ==> views[i].byteOffset + views[i].byteLength <= views[j].byteOffset)
  }

  ghost predicate AccessorsOk(accessors: seq<Accessor>, viewCount: nat)
  {
    forall a :: 0 <= a < |accessors| ==> accessors[a].bufferView < viewCount
  }

  /** Appending accessors and views keeps what the earlier ones hold. */
  lemma PrimitiveDrawnGrows(p: Primitive, mesh: PrimitiveMesh, accessors: seq<Accessor>, views: seq<BufferView>, accessors': seq<Accessor>, views': seq<BufferView>)
    requires PrimitiveDrawn(p, mesh, accessors, views)
    requires accessors <= accessors' && views <= views'
    ensures PrimitiveDrawn(p, mesh, accessors', views')
  {
    assert accessors'[p.indices] == accessors[p.indices];
  }

  // ---------------------------------------------------------------------------
  // Materials by key
  // ---------------------------------------------------------------------------

  /** The drawn meshes, in order. */
  function Drawn(meshes: seq<PrimitiveMesh>): (r: seq<PrimitiveMesh>)
    ensures forall k :: 0 <= k < |r| ==> Drawable(r[k])
    ensures |r| <= |meshes|
    decreases |meshes|
  {
    if meshes == [] then []
    else
      var init := Drawn(meshes[..|meshes| - 1]);
      if Drawable(meshes[|meshes| - 1]) then init + [meshes[|meshes| - 1]] else init
  }

  /** The drawn meshes are drawable meshes of the input. */
  lemma {:induction false} DrawnFrom(meshes: seq<PrimitiveMesh>)
    ensures forall m :: m in Drawn(meshes) ==> m in meshes && Drawable(m)
    decreases |meshes|
  {
    if meshes != [] {
      var init := meshes[..|meshes| - 1];
      DrawnFrom(init);
      assert forall m :: m in init ==> m in meshes;
    }
  }

  /** The index of each material key among some meshes: the position of the last mesh with that key. */
  function IndexMap(ms: seq<PrimitiveMesh>): map<string, nat>
    decreases |ms|
  {
    if ms == [] then map[]
    else IndexMap(ms[..|ms| - 1])[ms[|ms| - 1].material.materialKey := |ms| - 1]
  }

  /** The first drawn mesh of each material key, in order of first appearance: the meshes that create materials. */
  function FirstOfKeys(meshes: seq<PrimitiveMesh>): seq<PrimitiveMesh>
    decreases |meshes|
  {
    if meshes == [] then []
    else
      var init := FirstOfKeys(meshes[..|meshes| - 1]);
      var mesh := meshes[|meshes| - 1];
      if Drawable(mesh) && mesh.material.materialKey !in IndexMap(init) then init + [mesh] else init
  }

  /** Appending one mesh: a drawable one is drawn last. */
  lemma AppendDrawn(meshes: seq<PrimitiveMesh>, mesh: PrimitiveMesh)
    ensures Drawn(meshes + [mesh]) == if Drawable(mesh) then Drawn(meshes) + [mesh] else Drawn(meshes)
  {
    assert (meshes + [mesh])[..|meshes|] == meshes;
  }

  /** Appending one mesh: it creates a material when drawable with a new key. */
  lemma AppendFirsts(meshes: seq<PrimitiveMesh>, mesh: PrimitiveMesh)
    ensures var firsts := FirstOfKeys(meshes);
            FirstOfKeys(meshes + [mesh]) == if Drawable(mesh) && mesh.material.materialKey !in IndexMap(firsts) then firsts + [mesh] else firsts
  {
    assert (meshes + [mesh])[..|meshes|] == meshes;
  }

  /** A new creating mesh takes the next index. */
  lemma AppendIndexMap(ms: seq<PrimitiveMesh>, mesh: PrimitiveMesh)
    ensures IndexMap(ms + [mesh]) == IndexMap(ms)[mesh.material.materialKey := |ms|]
  {
    assert (ms + [mesh])[..|ms|] == ms;
  }

  /** A key's index in the map is a mesh with that key, and every mesh's key is in the map. */
  lemma {:induction false} IndexMapSpec(ms: seq<PrimitiveMesh>)
    ensures forall k :: k in IndexMap(ms) ==> IndexMap(ms)[k] < |ms| && ms[IndexMap(ms)[k]].material.materialKey == k
    ensures forall i :: 0 <= i < |ms| ==> ms[i].material.materialKey in IndexMap(ms)
    decreases |ms|
  {
    if ms != [] {
      var init := ms[..|ms| - 1];
      IndexMapSpec(init);
      assert forall i :: 0 <= i < |init| ==> init[i] == ms[i];
    }
  }

  /** One material per key: the creating meshes have distinct keys. */
  lemma {:induction false} FirstOfKeysDistinct(meshes: seq<PrimitiveMesh>)
    ensures var firsts := FirstOfKeys(meshes);
            forall i, j :: 0 <= i < j < |firsts| ==> firsts[i].material.materialKey != firsts[j].material.materialKey
    decreases |meshes|
  {
    if meshes != [] {
      var init := meshes[..|meshes| - 1];
      var mesh := meshes[|meshes| - 1];
      FirstOfKeysDistinct(init);
      AppendFirsts(init, mesh);
      AppendIndexMap(FirstOfKeys(init), mesh);
      assert init + [mesh] == meshes;
      IndexMapSpec(FirstOfKeys(init));
    }
  }

  /** Only drawn meshes of the list create materials. */
  lemma {:induction false} FirstOfKeysDrawn(meshes: seq<PrimitiveMesh>)
    ensures forall m :: m in FirstOfKeys(meshes) ==> Drawable(m) && m in meshes
    decreases |meshes|
  {
    if meshes != [] {
      var init := meshes[..|meshes| - 1];
      var mesh := meshes[|meshes| - 1];
      FirstOfKeysDrawn(init);
      AppendFirsts(init, mesh);
      assert init + [mesh] == meshes;
    }
  }

  /** Every drawn mesh's key has a material. */
  lemma {:induction false} FirstOfKeysCover(meshes: seq<PrimitiveMesh>)
    ensures forall m :: m in meshes && Drawable(m) ==> m.material.materialKey in IndexMap(FirstOfKeys(meshes))
    decreases |meshes|
  {
    if meshes != [] {
      var init := meshes[..|meshes| - 1];
      var mesh := meshes[|meshes| - 1];
      FirstOfKeysCover(init);
      AppendFirsts(init, mesh);
      AppendIndexMap(FirstOfKeys(init), mesh);
      assert init + [mesh] == meshes;
      var fi := FirstOfKeys(init);
      forall m | m in meshes && Drawable(m)
        ensures m.material.materialKey in IndexMap(FirstOfKeys(meshes))
      {
        if m in init {
          assert m.material.materialKey in IndexMap(fi);
        }
      }
    }
  }

  /** The trimmed texture URI of a mesh's material. */
  function TextureKey(mesh: PrimitiveMesh): string
  {
    Trim(JsTrim, mesh.material.textureUri.GetOr(""))
  }

  /**
   * Material i is the glTF form of the i-th creating mesh; it is textured
   * exactly when that mesh has a texture URI, and then its texture's image
   * is that URI.
   */
  ghost predicate MaterialsMatch(materials: seq<GltfMaterial>, firsts: seq<PrimitiveMesh>, images: seq<string>)
  {
    && |materials| == |firsts|
    && forall i :: 0 <= i < |materials| ==>
         && materials[i] == GltfMaterialOf(firsts[i], TextureIndexOf(materials[i]))
         && (materials[i].baseColorTexture.Some? <==> TextureKey(firsts[i]) != [])
         && (materials[i].baseColorTexture.Some? ==>
               materials[i].baseColorTexture.value.index < |images|
               && images[materials[i].baseColorTexture.value.index] == TextureKey(firsts[i]))
  }

  /** The animated targets among the materials, in material order. */
  function TargetsOf(materials: seq<GltfMaterial>, firsts: seq<PrimitiveMesh>): (r: seq<AnimatedTarget>)
    requires |materials| == |firsts|
    ensures forall k :: 0 <= k < |r| ==>
              r[k].materialIndex < |materials|
              && r[k].animation == firsts[r[k].materialIndex].material.textureAnimation
              && IsAnimatedMaterialTarget(materials[r[k].materialIndex], r[k].animation)
    decreases |materials|
  {
    if materials == [] then []
    else
      var n := |materials| - 1;
      var init := TargetsOf(materials[..n], firsts[..n]);
      var animation := firsts[n].material.textureAnimation;
      if IsAnimatedMaterialTarget(materials[n], animation) then init + [AnimatedTarget(n, animation)] else init
  }

  /** Images only ever get appended, so what the materials' textures show stays put. */
  lemma MaterialsMatchKeep(materials: seq<GltfMaterial>, firsts: seq<PrimitiveMesh>, images: seq<string>, images': seq<string>)
    requires MaterialsMatch(materials, firsts, images) && images <= images'
    ensures MaterialsMatch(materials, firsts, images')
  {
    forall i | 0 <= i < |materials| && materials[i].baseColorTexture.Some?
      ensures images'[materials[i].baseColorTexture.value.index] == TextureKey(firsts[i])
    {
      assert images'[materials[i].baseColorTexture.value.index] == images[materials[i].baseColorTexture.value.index];
    }
  }

  /** A new material for a new creating mesh. */
  lemma MaterialsMatchAppend(materials: seq<GltfMaterial>, firsts: seq<PrimitiveMesh>, images: seq<string>, m: GltfMaterial, mesh: PrimitiveMesh)
    requires MaterialsMatch(materials, firsts, images)
    requires m == GltfMaterialOf(mesh, TextureIndexOf(m))
    requires m.baseColorTexture.Some? <==> TextureKey(mesh) != []
    requires m.baseColorTexture.Some? ==> m.baseColorTexture.value.index < |images| && images[m.baseColorTexture.value.index] == TextureKey(mesh)
    ensures MaterialsMatch(materials + [m], firsts + [mesh], images)
  {
    var ms, fs := materials + [m], firsts + [mesh];
    forall i | 0 <= i < |ms|
      ensures ms[i] == GltfMaterialOf(fs[i], TextureIndexOf(ms[i]))
      ensures ms[i].baseColorTexture.Some? <==> TextureKey(fs[i]) != []
      ensures ms[i].baseColorTexture.Some? ==>
                ms[i].baseColorTexture.value.index < |images| && images[ms[i].baseColorTexture.value.index] == TextureKey(fs[i])
    {
      if i < |materials| {
        assert ms[i] == materials[i] && fs[i] == firsts[i];
      }
    }
  }

  /** A new material adds a target exactly when it is animated. */
  lemma TargetsAppend(materials: seq<GltfMaterial>, firsts: seq<PrimitiveMesh>, m: GltfMaterial, mesh: PrimitiveMesh)
    requires |materials| == |firsts|
    ensures TargetsOf(materials + [m], firsts + [mesh])
            == TargetsOf(materials, firsts)
               + if IsAnimatedMaterialTarget(m, mesh.material.textureAnimation)
                 then [AnimatedTarget(|materials|, mesh.material.textureAnimation)] else []
  {
    assert (materials + [m])[..|materials|] == materials;
    assert (firsts + [mesh])[..|firsts|] == firsts;
  }

  // ---------------------------------------------------------------------------
  // The document being written
  // ---------------------------------------------------------------------------

  /**
   * The lists writeGltf builds up besides the binary buffer and the
   * texture table: views, accessors, materials with their index by key,
   * primitives, and the animated targets.
   */
  datatype DocState = DocState(
    bufferViews: seq<BufferView>,
    accessors: seq<Accessor>,
    materials: seq<GltfMaterial>,
    materialIndexes: map<string, nat>,
    primitives: seq<Primitive>,
    targets: seq<AnimatedTarget>,
    usesTextureTransform: bool)

  const EmptyDoc: DocState := DocState([], [], [], map[], [], [], false)

  /** The views and the accessors agree with a buffer of `total` bytes. */
  ghost predicate StorageOk(d: DocState, total: nat)
  {
    ViewsOk(d.bufferViews, total) && AccessorsOk(d.accessors, |d.bufferViews|)
  }

  /** The materials are those of the creating meshes of `ms`, indexed by key, and the animated ones are the targets. */
  ghost predicate MaterialsOk(d: DocState, ms: seq<PrimitiveMesh>, images: seq<string>)
  {
    && MaterialsMatch(d.materials, FirstOfKeys(ms), images)
    && d.materialIndexes == IndexMap(FirstOfKeys(ms))
    && d.targets == TargetsOf(d.materials, FirstOfKeys(ms))
    && d.usesTextureTransform == (d.targets != [])
  }

  /** One primitive per drawn mesh of `ms`, holding its data, with the material of its key. */
  ghost predicate PrimitivesOk(d: DocState, ms: seq<PrimitiveMesh>)
  {
    && |d.primitives| == |Drawn(ms)|
    && forall k :: 0 <= k < |d.primitives| ==>
         && PrimitiveDrawn(d.primitives[k], Drawn(ms)[k], d.accessors, d.bufferViews)
         && Drawn(ms)[k].material.materialKey in d.materialIndexes
         && d.primitives[k].material == d.materialIndexes[Drawn(ms)[k].material.materialKey]
  }

  /** d is the state after the meshes ms, with this buffer and texture table. */
  ghost predicate DocValid(d: DocState, ms: seq<PrimitiveMesh>, buffer: BinaryBuffer, table: TextureTable)
    reads buffer, table
  {
    && buffer.Valid() && table.Valid()
    && StorageOk(d, buffer.totalByteLength) && MaterialsOk(d, ms, table.images) && PrimitivesOk(d, ms)
  }

  /** A view over a fresh aligned chunk past the end keeps the views packed. */
  lemma StorageSnoc(d: DocState, total: nat, v: BufferView, total': nat)
    requires StorageOk(d, total)
    requires total <= v.byteOffset && v.byteOffset % 4 == 0
    requires v.byteLength == PayloadBytes(v.payload) && v.byteOffset + v.byteLength == total'
    ensures StorageOk(d.(bufferViews := d.bufferViews + [v]), total')
  {
    var views := d.bufferViews + [v];
    forall i, j | 0 <= i < j < |views|
      ensures views[i].byteOffset + views[i].byteLength <= views[j].byteOffset
    {
      if j == |views| - 1 {
        assert views[i] == d.bufferViews[i];
      } else {
        assert views[i] == d.bufferViews[i] && views[j] == d.bufferViews[j];
      }
    }
  }

  /** addChunk plus the buffer view over the chunk. */
  method AddView(d: DocState, buffer: BinaryBuffer, payload: Payload, target: Option<int>) returns (d': DocState, index: nat)
    requires buffer.Valid() && StorageOk(d, buffer.totalByteLength)
    modifies buffer
    ensures buffer.Valid() && StorageOk(d', buffer.totalByteLength)
    ensures index == |d.bufferViews|
    ensures d' == d.(bufferViews := d.bufferViews + [BufferView(Align4(old(buffer.totalByteLength)), PayloadBytes(payload), target, payload)])
  {
    Align4Spec(buffer.totalByteLength);
    var view := buffer.AddChunk(PayloadBytes(payload));
    index := |d.bufferViews|;
    var v := BufferView(view.byteOffset, view.byteLength, target, payload);
    StorageSnoc(d, old(buffer.totalByteLength), v, buffer.totalByteLength);
    d' := d.(bufferViews := d.bufferViews + [v]);
  }

  /** Only views and accessors are appended; the rest stays. */
  ghost predicate OnlyStorageGrows(d: DocState, d': DocState)
  {
    && d.accessors <= d'.accessors && d.bufferViews <= d'.bufferViews
    && d'.materials == d.materials && d'.materialIndexes == d.materialIndexes && d'.primitives == d.primitives
    && d'.targets == d.targets && d'.usesTextureTransform == d.usesTextureTransform
  }

  /** A view holding some Float32 numbers and the accessor reading it. */
  method AddFloatAccessor(d: DocState, buffer: BinaryBuffer, xs: seq<real>, kind: AccessorType, count: nat, min: seq<real>, max: seq<real>, target: Option<int>)
    returns (d': DocState, index: nat)
    requires buffer.Valid() && StorageOk(d, buffer.totalByteLength)
    modifies buffer
    ensures buffer.Valid() && StorageOk(d', buffer.totalByteLength)
    ensures index == |d.accessors|
    ensures AccessorHolds(d'.accessors, d'.bufferViews, index, kind, FLOAT, count, Floats(xs), target)
    ensures d'.accessors[index].min == min && d'.accessors[index].max == max
    ensures OnlyStorageGrows(d, d')
  {
    var d1, view := AddView(d, buffer, Floats(xs), target);
    index := |d1.accessors|;
    d' := d1.(accessors := d1.accessors + [Accessor(view, FLOAT, count, kind, min, max)]);
  }

  /** The index view and accessor: 16-bit indices when they all fit, 32-bit otherwise. */
  method AddIndexAccessor(d: DocState, buffer: BinaryBuffer, indices: seq<int>) returns (d': DocState, index: nat)
    requires buffer.Valid() && StorageOk(d, buffer.totalByteLength)
    modifies buffer
    ensures buffer.Valid() && StorageOk(d', buffer.totalByteLength)
    ensures index == |d.accessors|
    ensures AccessorHolds(d'.accessors, d'.bufferViews, index, Scalar, IndexType(indices), |indices|,
                          Ints(indices, IndexByteSize(IndexType(indices))), Some(ELEMENT_ARRAY_BUFFER))
    ensures d'.accessors[index].min == [0.0] && |d'.accessors[index].max| == 1
    ensures IsMaxIndexValue(d'.accessors[index].max[0], indices)
    ensures OnlyStorageGrows(d, d')
  {
    var componentType, maxIndex := IndexWidth(indices);
    assert componentType == IndexType(indices);
    var d1, view := AddView(d, buffer, Ints(indices, IndexByteSize(componentType)), Some(ELEMENT_ARRAY_BUFFER));
    index := |d1.accessors|;
    d' := d1.(accessors := d1.accessors + [Accessor(view, componentType, |indices|, Scalar, [0.0], [maxIndex as real])]);
    assert (maxIndex as real).Floor == maxIndex;
  }

  /** A material for a mesh whose key has none yet, which may add a texture and a target. */
  method NewMaterial(d: DocState, ghost ms: seq<PrimitiveMesh>, table: TextureTable, mesh: PrimitiveMesh) returns (d': DocState, index: nat)
    requires table.Valid() && MaterialsOk(d, ms, table.images) && Drawable(mesh) && mesh.material.materialKey !in d.materialIndexes
    modifies table
    ensures table.Valid() && MaterialsOk(d', ms + [mesh], table.images)
    ensures index == |d.materials| && |d'.materials| == index + 1
    ensures d'.materialIndexes == d.materialIndexes[mesh.material.materialKey := index]
    ensures d'.bufferViews == d.bufferViews && d'.accessors == d.accessors && d'.primitives == d.primitives
  {
    AppendFirsts(ms, mesh);
    AppendIndexMap(FirstOfKeys(ms), mesh);
    index := |d.materials|;
    ghost var firsts := FirstOfKeys(ms);
    ghost var images0 := table.images;
    var material := ToGltfMaterial(mesh, table);
    MaterialsMatchKeep(d.materials, firsts, images0, table.images);
    MaterialsMatchAppend(d.materials, firsts, table.images, material, mesh);
    TargetsAppend(d.materials, firsts, material, mesh);
    var targets := d.targets;
    var uses := d.usesTextureTransform;
    if IsAnimatedMaterialTarget(material, mesh.material.textureAnimation) {
      uses := true;
      targets := targets + [AnimatedTarget(index, mesh.material.textureAnimation)];
    }
    d' := d.(materials := d.materials + [material],
             materialIndexes := d.materialIndexes[mesh.material.materialKey := index],
             targets := targets, usesTextureTransform := uses);
  }

  /**
   * The material index of a drawn mesh: the existing one for its key, or
   * a new material.
   */
  method MaterialFor(d: DocState, ghost ms: seq<PrimitiveMesh>, table: TextureTable, mesh: PrimitiveMesh) returns (d': DocState, index: nat)
    requires table.Valid() && MaterialsOk(d, ms, table.images) && Drawable(mesh)
    modifies table
    ensures table.Valid() && MaterialsOk(d', ms + [mesh], table.images)
    ensures index < |d'.materials| && mesh.material.materialKey in d'.materialIndexes && d'.materialIndexes[mesh.material.materialKey] == index
    ensures forall k :: k in d.materialIndexes ==> k in d'.materialIndexes && d'.materialIndexes[k] == d.materialIndexes[k]
    ensures d'.bufferViews == d.bufferViews && d'.accessors == d.accessors && d'.primitives == d.primitives
  {
    var key := mesh.material.materialKey;
    if key in d.materialIndexes {
      AppendFirsts(ms, mesh);
      IndexMapSpec(FirstOfKeys(ms));
      return d, d.materialIndexes[key];
    }
    d', index := NewMaterial(d, ms, table, mesh);
  }

  /** The position, texture coordinate and index accessors of a drawn mesh. */
  method AddGeometry(d: DocState, buffer: BinaryBuffer, mesh: PrimitiveMesh, materialIndex: nat) returns (d': DocState, p: Primitive)
    requires buffer.Valid() && StorageOk(d, buffer.totalByteLength) && Drawable(mesh) && |mesh.positions| % 3 == 0
    modifies buffer
    ensures buffer.Valid() && StorageOk(d', buffer.totalByteLength)
    ensures PrimitiveDrawn(p, mesh, d'.accessors, d'.bufferViews) && p.material == materialIndex
    ensures OnlyStorageGrows(d, d')
  {
    var posMin, posMax := MinMax3(mesh.positions);
    var d1, position := AddFloatAccessor(d, buffer, mesh.positions, Vec3Type, |mesh.positions| / 3, posMin, posMax, Some(ARRAY_BUFFER));
    var d2 := d1;
    var texcoord: Option<nat> := None;
    if |mesh.uvs| == |mesh.positions| / 3 * 2 {
      var uvMin, uvMax := MinMax2(mesh.uvs);
      var uv;
      d2, uv := AddFloatAccessor(d1, buffer, mesh.uvs, Vec2Type, |mesh.uvs| / 2, uvMin, uvMax, Some(ARRAY_BUFFER));
      texcoord := Some(uv);
    }
    var indices;
    d', indices := AddIndexAccessor(d2, buffer, mesh.indices);
    p := Primitive(position, texcoord, indices, materialIndex);
    assert d'.accessors[position] == d1.accessors[position];
    assert d'.bufferViews[d'.accessors[position].bufferView] == d1.bufferViews[d1.accessors[position].bufferView];
    if texcoord.Some? {
      assert d'.accessors[texcoord.value] == d2.accessors[texcoord.value];
      assert d'.bufferViews[d'.accessors[texcoord.value].bufferView] == d2.bufferViews[d2.accessors[texcoord.value].bufferView];
    }
  }

  /** Appending views and accessors keeps every primitive's data. */
  lemma PrimitivesOkGrows(d: DocState, d': DocState, ms: seq<PrimitiveMesh>)
    requires PrimitivesOk(d, ms) && d.accessors <= d'.accessors && d.bufferViews <= d'.bufferViews
    requires d'.primitives == d.primitives
    requires forall k :: k in d.materialIndexes ==> k in d'.materialIndexes && d'.materialIndexes[k] == d.materialIndexes[k]
    ensures PrimitivesOk(d', ms)
  {
    forall k | 0 <= k < |d.primitives|
      ensures PrimitiveDrawn(d'.primitives[k], Drawn(ms)[k], d'.accessors, d'.bufferViews)
    {
      PrimitiveDrawnGrows(d.primitives[k], Drawn(ms)[k], d.accessors, d.bufferViews, d'.accessors, d'.bufferViews);
    }
  }

  /** The new primitive of a drawn mesh joins those of the earlier meshes. */
  lemma PrimitivesAppend(d: DocState, ms: seq<PrimitiveMesh>, mesh: PrimitiveMesh, p: Primitive)
    requires PrimitivesOk(d, ms) && Drawable(mesh)
    requires PrimitiveDrawn(p, mesh, d.accessors, d.bufferViews)
    requires mesh.material.materialKey in d.materialIndexes && p.material == d.materialIndexes[mesh.material.materialKey]
    ensures PrimitivesOk(d.(primitives := d.primitives + [p]), ms + [mesh])
  {
    AppendDrawn(ms, mesh);
    var d' := d.(primitives := d.primitives + [p]);
    var drawn := Drawn(ms + [mesh]);
    forall k | 0 <= k < |d'.primitives|
      ensures PrimitiveDrawn(d'.primitives[k], drawn[k], d'.accessors, d'.bufferViews)
      ensures drawn[k].material.materialKey in d'.materialIndexes
      ensures d'.primitives[k].material == d'.materialIndexes[drawn[k].material.materialKey]
    {
      if k < |d.primitives| {
        assert d'.primitives[k] == d.primitives[k] && drawn[k] == Drawn(ms)[k];
      } else {
        assert d'.primitives[k] == p && drawn[k] == mesh;
      }
    }
  }

  /** One mesh of the loop: skipped when it has no positions or no indices, otherwise one more primitive. */
  method AddMesh(d: DocState, ghost ms: seq<PrimitiveMesh>, buffer: BinaryBuffer, table: TextureTable, mesh: PrimitiveMesh) returns (d': DocState)
    requires DocValid(d, ms, buffer, table) && |mesh.positions| % 3 == 0
    modifies buffer, table
    ensures DocValid(d', ms + [mesh], buffer, table)
    ensures !Drawable(mesh) ==> d' == d
  {
    AppendDrawn(ms, mesh);
    AppendFirsts(ms, mesh);
    if |mesh.positions| == 0 || |mesh.indices| == 0 {
      return d;
    }
    var d1, materialIndex := MaterialFor(d, ms, table, mesh);
    PrimitivesOkGrows(d, d1, ms);
    var d2, p := AddGeometry(d1, buffer, mesh, materialIndex);
    PrimitivesOkGrows(d1, d2, ms);
    PrimitivesAppend(d2, ms, mesh, p);
    d' := d2.(primitives := d2.primitives + [p]);
    assert MaterialsOk(d', ms + [mesh], table.images) by {
      assert d'.materials == d1.materials && d'.materialIndexes == d1.materialIndexes;
      assert d'.targets == d1.targets && d'.usesTextureTransform == d1.usesTextureTransform;
    }
  }

  // ---------------------------------------------------------------------------
  // buildTextureOffsetAnimation
  // ---------------------------------------------------------------------------

  function TargetIndexes(targets: seq<AnimatedTarget>): set<nat>
  {
    set t | t in targets :: t.materialIndex
  }

  /** The targets whose animation yields an offset track, with their tracks, in order. */
  function Tracked(targets: seq<AnimatedTarget>): (r: seq<TrackedTarget>)
    ensures forall k :: 0 <= k < |r| ==> OffsetTracks.ValidTrack(r[k].track) && r[k].track.periodTicks >= 1
    ensures forall k :: 0 <= k < |r| ==> r[k].materialIndex in TargetIndexes(targets)
    ensures |r| <= |targets|
    decreases |targets|
  {
    if targets == [] then []
    else
      var n := |targets| - 1;
      var init := Tracked(targets[..n]);
      assert TargetIndexes(targets[..n]) <= TargetIndexes(targets);
      var track := OffsetTracks.BuildOffsetTrack(targets[n].animation);
      if track.Some? then
        OffsetTracks.BuildOffsetTrackSpec(targets[n].animation);
        init + [TrackedTarget(targets[n].materialIndex, track.value)]
      else init
  }

  /** The first loop of buildTextureOffsetAnimation: the tracks of the targets, skipping those without one. */
  method CollectTracks(targets: seq<AnimatedTarget>) returns (tracks: seq<TrackedTarget>)
    ensures tracks == Tracked(targets)
  {
    tracks := [];
    for k := 0 to |targets|
      invariant tracks == Tracked(targets[..k])
    {
      assert targets[..k + 1][..k] == targets[..k];
      var track := OffsetTracks.BuildOffsetTrack(targets[k].animation);
      if track.Some? {
        tracks := tracks + [TrackedTarget(targets[k].materialIndex, track.value)];
      }
    }
    assert targets[..|targets|] == targets;
  }

  function Periods(tracks: seq<TrackedTarget>): (ps: seq<int>)
    ensures |ps| == |tracks| && forall k :: 0 <= k < |ps| ==> ps[k] == tracks[k].track.periodTicks
  {
    seq(|tracks|, k requires 0 <= k < |tracks| => tracks[k].track.periodTicks)
  }

  /** The loop length the tracks share: positive as soon as there is a track. */
  lemma SharedPositive(tracks: seq<TrackedTarget>)
    requires tracks != [] && forall k :: 0 <= k < |tracks| ==> tracks[k].track.periodTicks >= 1
    ensures OffsetTracks.SharedLoopTicks(Periods(tracks)) >= 1
  {
    var periods := Periods(tracks);
    OffsetTracks.SharedLoopTicksSpec(periods);
    assert periods[0] in OffsetTracks.PositivePeriods(periods);
  }

  /**
   * Sampler s animates `track` over the shared loop: its input accessor
   * holds the key times, its output accessor the (u, v) offsets with their
   * bounds, and it keeps the track's interpolation.
   */
  ghost predicate SamplerHolds(s: AnimationSampler, track: OffsetTracks.OffsetTrack, shared: int, accessors: seq<Accessor>, views: seq<BufferView>)
  {
    && OffsetTracks.ValidTrack(track) && shared >= 1
    && OffsetTracks.RepeatTrack(track, shared).Some?
    && var r := OffsetTracks.RepeatTrack(track, shared).value;
       && |r.timesSeconds| >= 1
       && AccessorHolds(accessors, views, s.input, Scalar, FLOAT, |r.timesSeconds|, Floats(r.timesSeconds), None)
       && accessors[s.input].min == [r.timesSeconds[0]]
       && accessors[s.input].max == [r.timesSeconds[|r.timesSeconds| - 1]]
       && AccessorHolds(accessors, views, s.output, Vec2Type, FLOAT, |r.valuesFlat| / 2, Floats(r.valuesFlat), None)
       && ColumnBounds(accessors[s.output], r.valuesFlat, 2)
       && s.interpolation == r.interpolation
  }

  lemma SamplerHoldsGrows(s: AnimationSampler, track: OffsetTracks.OffsetTrack, shared: int, accessors: seq<Accessor>, views: seq<BufferView>, accessors': seq<Accessor>, views': seq<BufferView>)
    requires SamplerHolds(s, track, shared, accessors, views)
    requires accessors <= accessors' && views <= views'
    ensures SamplerHolds(s, track, shared, accessors', views')
  {
    assert accessors'[s.input] == accessors[s.input] && accessors'[s.output] == accessors[s.output];
  }

  /** The repeated key times and offsets of one track, with their views and accessors. */
  method AddSampler(d: DocState, buffer: BinaryBuffer, track: OffsetTracks.OffsetTrack, shared: int) returns (d': DocState, s: AnimationSampler)
    requires buffer.Valid() && StorageOk(d, buffer.totalByteLength)
    requires OffsetTracks.ValidTrack(track) && shared >= 1
    modifies buffer
    ensures buffer.Valid() && StorageOk(d', buffer.totalByteLength)
    ensures OnlyStorageGrows(d, d')
    ensures SamplerHolds(s, track, shared, d'.accessors, d'.bufferViews)
  {
    OffsetTracks.RepeatTrackTimes(track, shared);
    OffsetTracks.RepeatTrackValues(track, shared);
    var repeated := OffsetTracks.RepeatTrackToLoop(track, shared);
    // Never null here: every collected track has a positive period and the shared loop is positive.
    var r := repeated.value;
    var times := r.timesSeconds;
    var d1, input := AddFloatAccessor(d, buffer, times, Scalar, |times|, [times[0]], [times[|times| - 1]], None);
    var valueMin, valueMax := MinMax2(r.valuesFlat);
    var output;
    d', output := AddFloatAccessor(d1, buffer, r.valuesFlat, Vec2Type, |r.valuesFlat| / 2, valueMin, valueMax, None);
    s := AnimationSampler(input, output, r.interpolation);
    assert d'.accessors[input] == d1.accessors[input];
    assert d'.bufferViews[d'.accessors[input].bufferView] == d1.bufferViews[d1.accessors[input].bufferView];
  }

  /**
   * The animation matches the tracks: one sampler and one channel per
   * track, in order, channel k driving the offset of track k's material
   * through sampler k.
   */
  ghost predicate AnimationMatches(samplers: seq<AnimationSampler>, channels: seq<AnimationChannel>, tracks: seq<TrackedTarget>, shared: int, accessors: seq<Accessor>, views: seq<BufferView>)
  {
    ChannelsMatch(channels, tracks) && SamplersMatch(samplers, tracks, shared, accessors, views)
  }

  ghost predicate ChannelsMatch(channels: seq<AnimationChannel>, tracks: seq<TrackedTarget>)
  {
    && |channels| == |tracks|
    && forall k :: 0 <= k < |tracks| ==> channels[k] == AnimationChannel(k, OffsetPointer(tracks[k].materialIndex))
  }

  ghost predicate SamplersMatch(samplers: seq<AnimationSampler>, tracks: seq<TrackedTarget>, shared: int, accessors: seq<Accessor>, views: seq<BufferView>)
  {
    && |samplers| == |tracks|
    && forall k :: 0 <= k < |tracks| ==> SamplerHolds(samplers[k], tracks[k].track, shared, accessors, views)
  }

  /** One more track, one more sampler and channel: the earlier ones keep holding as storage grows. */
  lemma AnimationMatchesSnoc(samplers: seq<AnimationSampler>, channels: seq<AnimationChannel>, tracks: seq<TrackedTarget>, k: nat, shared: int,
                             accessors: seq<Accessor>, views: seq<BufferView>, s: AnimationSampler, accessors': seq<Accessor>, views': seq<BufferView>)
    requires k < |tracks|
    requires AnimationMatches(samplers, channels, tracks[..k], shared, accessors, views)
    requires accessors <= accessors' && views <= views'
    requires SamplerHolds(s, tracks[k].track, shared, accessors', views')
    ensures AnimationMatches(samplers + [s], channels + [AnimationChannel(k, OffsetPointer(tracks[k].materialIndex))], tracks[..k + 1], shared, accessors', views')
  {
    ChannelsSnoc(channels, tracks, k);
    SamplersSnoc(samplers, tracks, k, shared, accessors, views, s, accessors', views');
  }

  lemma ChannelsSnoc(channels: seq<AnimationChannel>, tracks: seq<TrackedTarget>, k: nat)
    requires k < |tracks| && ChannelsMatch(channels, tracks[..k])
    ensures ChannelsMatch(channels + [AnimationChannel(k, OffsetPointer(tracks[k].materialIndex))], tracks[..k + 1])
  {
    var channels' := channels + [AnimationChannel(k, OffsetPointer(tracks[k].materialIndex))];
    forall j | 0 <= j < k + 1
      ensures channels'[j] == AnimationChannel(j, OffsetPointer(tracks[..k + 1][j].materialIndex))
    {
      if j < k {
        assert tracks[..k][j] == tracks[..k + 1][j];
      }
    }
  }

  lemma SamplersSnoc(samplers: seq<AnimationSampler>, tracks: seq<TrackedTarget>, k: nat, shared: int,
                     accessors: seq<Accessor>, views: seq<BufferView>, s: AnimationSampler, accessors': seq<Accessor>, views': seq<BufferView>)
    requires k < |tracks| && SamplersMatch(samplers, tracks[..k], shared, accessors, views)
    requires accessors <= accessors' && views <= views'
    requires SamplerHolds(s, tracks[k].track, shared, accessors', views')
    ensures SamplersMatch(samplers + [s], tracks[..k + 1], shared, accessors', views')
  {
    var samplers' := samplers + [s];
    forall j | 0 <= j < k + 1
      ensures SamplerHolds(samplers'[j], tracks[..k + 1][j].track, shared, accessors', views')
    {
      if j < k {
        assert tracks[..k][j] == tracks[..k + 1][j];
        SamplerHoldsGrows(samplers[j], tracks[..k][j].track, shared, accessors, views, accessors', views');
      }
    }
  }

  /** Track k's sampler, and the channel driving its material's offset through it. */
  method AddChannel(d: DocState, buffer: BinaryBuffer, samplers: seq<AnimationSampler>, channels: seq<AnimationChannel>,
                    tracks: seq<TrackedTarget>, k: nat, shared: int)
    returns (d': DocState, samplers': seq<AnimationSampler>, channels': seq<AnimationChannel>)
    requires buffer.Valid() && StorageOk(d, buffer.totalByteLength) && shared >= 1
    requires k < |tracks| && OffsetTracks.ValidTrack(tracks[k].track)
    requires AnimationMatches(samplers, channels, tracks[..k], shared, d.accessors, d.bufferViews)
    modifies buffer
    ensures buffer.Valid() && StorageOk(d', buffer.totalByteLength)
    ensures OnlyStorageGrows(d, d')
    ensures AnimationMatches(samplers', channels', tracks[..k + 1], shared, d'.accessors, d'.bufferViews)
  {
    var s;
    d', s := AddSampler(d, buffer, tracks[k].track, shared);
    AnimationMatchesSnoc(samplers, channels, tracks, k, shared, d.accessors, d.bufferViews, s, d'.accessors, d'.bufferViews);
    channels' := channels + [AnimationChannel(k, OffsetPointer(tracks[k].materialIndex))];
    samplers' := samplers + [s];
  }

  /** The second loop of buildTextureOffsetAnimation: a sampler and a channel per track. */
  method AddChannels(d: DocState, buffer: BinaryBuffer, tracks: seq<TrackedTarget>, shared: int)
    returns (d': DocState, samplers: seq<AnimationSampler>, channels: seq<AnimationChannel>)
    requires buffer.Valid() && StorageOk(d, buffer.totalByteLength) && shared >= 1
    requires forall k :: 0 <= k < |tracks| ==> OffsetTracks.ValidTrack(tracks[k].track)
    modifies buffer
    ensures buffer.Valid() && StorageOk(d', buffer.totalByteLength)
    ensures OnlyStorageGrows(d, d')
    ensures AnimationMatches(samplers, channels, tracks, shared, d'.accessors, d'.bufferViews)
  {
    d', samplers, channels := d, [], [];
    for k := 0 to |tracks|
      invariant buffer.Valid() && StorageOk(d', buffer.totalByteLength)
      invariant OnlyStorageGrows(d, d')
      invariant AnimationMatches(samplers, channels, tracks[..k], shared, d'.accessors, d'.bufferViews)
    {
      d', samplers, channels := AddChannel(d', buffer, samplers, channels, tracks, k, shared);
    }
    TakeAll(tracks);
  }

  /**
   * buildTextureOffsetAnimation: none when no target yields a track;
   * otherwise the "texture_animation" clip with a channel per track, all
   * repeated over the shared loop length.
   */
  method BuildTextureOffsetAnimation(d: DocState, buffer: BinaryBuffer) returns (d': DocState, animation: Option<Animation>)
    requires buffer.Valid() && StorageOk(d, buffer.totalByteLength)
    modifies buffer
    ensures buffer.Valid() && StorageOk(d', buffer.totalByteLength)
    ensures OnlyStorageGrows(d, d')
    ensures animation.None? <==> Tracked(d.targets) == []
    ensures animation.Some? ==>
              var tracks := Tracked(d.targets);
              && animation.value.name == "texture_animation"
              && AnimationMatches(animation.value.samplers, animation.value.channels, tracks,
                                  OffsetTracks.SharedLoopTicks(Periods(tracks)), d'.accessors, d'.bufferViews)
  {
    if |d.targets| == 0 {
      return d, None;
    }
    var tracks := CollectTracks(d.targets);
    if |tracks| == 0 {
      return d, None;
    }
    var periods := Periods(tracks);
    var shared := OffsetTracks.ResolveSharedLoopTicks(periods);
    SharedPositive(tracks);
    var samplers, channels;
    d', samplers, channels := AddChannels(d, buffer, tracks, shared);
    animation := Some(Animation("texture_animation", samplers, channels));
  }

  /** Every channel's pointer names a textured material with a texture transform to animate. */
  lemma ChannelsTargetTransforms(materials: seq<GltfMaterial>, firsts: seq<PrimitiveMesh>, images: seq<string>)
    requires MaterialsMatch(materials, firsts, images)
    ensures var tracks := Tracked(TargetsOf(materials, firsts));
            forall k :: 0 <= k < |tracks| ==>
              && tracks[k].materialIndex < |materials|
              && materials[tracks[k].materialIndex].baseColorTexture.Some?
              && materials[tracks[k].materialIndex].baseColorTexture.value.transform.Some?
  {
    var targets := TargetsOf(materials, firsts);
    var tracks := Tracked(targets);
    forall k | 0 <= k < |tracks|
      ensures tracks[k].materialIndex < |materials|
      ensures materials[tracks[k].materialIndex].baseColorTexture.Some?
      ensures materials[tracks[k].materialIndex].baseColorTexture.value.transform.Some?
    {
      var t :| t in targets && t.materialIndex == tracks[k].materialIndex;
      var j :| 0 <= j < |targets| && targets[j] == t;
      var i := t.materialIndex;
      assert materials[i] == GltfMaterialOf(firsts[i], TextureIndexOf(materials[i]));
    }
  }

  // ---------------------------------------------------------------------------
  // writeGltf
  // ---------------------------------------------------------------------------

  /** The extensions a document uses: texture transforms when a material is animated, animation pointers when a clip exists. */
  function ExtensionsUsed(usesTextureTransform: bool, animated: bool): seq<string>
  {
    (if usesTextureTransform then [TEXTURE_TRANSFORM] else []) + (if animated then [ANIMATION_POINTER] else [])
  }

  /**
   * g is the document written for the meshes: one primitive per drawn mesh
   * holding its data, one material per material key, views packed in the
   * buffer, one image per distinct texture URI, the animation of the
   * animated materials, and the extensions that these use.
   */
  ghost predicate WrittenFrom(g: Gltf, meshes: seq<PrimitiveMesh>)
  {
    var firsts := FirstOfKeys(meshes);
    var drawn := Drawn(meshes);
    && |g.primitives| == |drawn|
    && (forall k :: 0 <= k < |drawn| ==>
          && PrimitiveDrawn(g.primitives[k], drawn[k], g.accessors, g.bufferViews)
          && drawn[k].material.materialKey in IndexMap(firsts)
          && g.primitives[k].material == IndexMap(firsts)[drawn[k].material.materialKey])
    && MaterialsMatch(g.materials, firsts, g.images)
    && ViewsOk(g.bufferViews, g.byteLength) && AccessorsOk(g.accessors, |g.bufferViews|)
    && (forall i, j :: 0 <= i < j < |g.images| ==> g.images[i] != g.images[j])
    && g.samplerCount == 1
    && var targets := TargetsOf(g.materials, firsts);
       var tracks := Tracked(targets);
       && (g.animation.None? <==> tracks == [])
       && (g.animation.Some? ==>
             AnimationMatches(g.animation.value.samplers, g.animation.value.channels, tracks,
                              OffsetTracks.SharedLoopTicks(Periods(tracks)), g.accessors, g.bufferViews))
       && g.extensionsUsed == ExtensionsUsed(targets != [], g.animation.Some?)
  }

  /** The empty document, with a fresh buffer and texture table. */
  method StartDoc() returns (d: DocState, buffer: BinaryBuffer, table: TextureTable)
    ensures fresh(buffer) && fresh(table)
    ensures DocValid(d, [], buffer, table) && d == EmptyDoc
  {
    buffer := new BinaryBuffer();
    table := new TextureTable();
    d := EmptyDoc;
  }

  lemma TakeAll<T>(s: seq<T>)
    ensures s[..|s|] == s
  {
  }

  lemma TakeOneMore<T>(s: seq<T>, k: nat)
    requires k < |s|
    ensures s[..k + 1] == s[..k] + [s[k]]
  {
  }

  /** The per-mesh loop of writeGltf: every mesh added in order to a fresh buffer and texture table. */
  method AddMeshes(meshes: seq<PrimitiveMesh>) returns (d: DocState, buffer: BinaryBuffer, table: TextureTable)
    requires forall k :: 0 <= k < |meshes| ==> |meshes[k].positions| % 3 == 0
    ensures fresh(buffer) && fresh(table)
    ensures DocValid(d, meshes, buffer, table)
  {
    d, buffer, table := StartDoc();
    ghost var done: seq<PrimitiveMesh> := [];
    for k := 0 to |meshes|
      invariant done == meshes[..k]
      invariant DocValid(d, done, buffer, table)
    {
      d := AddMesh(d, done, buffer, table, meshes[k]);
      TakeOneMore(meshes, k);
      done := done + [meshes[k]];
    }
    assert done == meshes;
  }

  /**
   * writeGltf: the document for the meshes, or the error "No geometry
   * generated." when no mesh has both positions and indices.
   */
  method WriteGltf(meshes: seq<PrimitiveMesh>) returns (r: Result<Gltf, string>)
    requires forall k :: 0 <= k < |meshes| ==> |meshes[k].positions| % 3 == 0
    ensures r.Err? <==> Drawn(meshes) == []
    ensures r.Err? ==> r.error == NO_GEOMETRY
    ensures r.Ok? ==> WrittenFrom(r.value, meshes)
  {
    var d, buffer, table := AddMeshes(meshes);
    if |d.primitives| == 0 {
      return Err(NO_GEOMETRY);
    }
    ImagesDistinct(table);
    var images, textures := table.images, table.textures;
    var d', animation := BuildTextureOffsetAnimation(d, buffer);
    PrimitivesOkGrows(d, d', meshes);
    var g := Gltf(d'.materials, images, textures, 1, d'.bufferViews, d'.accessors, d'.primitives,
                  animation, ExtensionsUsed(d'.usesTextureTransform, animation.Some?), buffer.totalByteLength);
    DocWritten(d', meshes, images, buffer.totalByteLength, animation, g);
    r := Ok(g);
  }

  /** The document assembled from a valid final state is the one written for the meshes. */
  lemma DocWritten(d: DocState, meshes: seq<PrimitiveMesh>, images: seq<string>, total: nat, animation: Option<Animation>, g: Gltf)
    requires StorageOk(d, total) && MaterialsOk(d, meshes, images) && PrimitivesOk(d, meshes)
    requires forall i, j :: 0 <= i < j < |images| ==> images[i] != images[j]
    requires animation.None? <==> Tracked(d.targets) == []
    requires animation.Some? ==>
               var tracks := Tracked(d.targets);
               AnimationMatches(animation.value.samplers, animation.value.channels, tracks,
                                OffsetTracks.SharedLoopTicks(Periods(tracks)), d.accessors, d.bufferViews)
    requires g.materials == d.materials && g.images == images && g.samplerCount == 1
    requires g.bufferViews == d.bufferViews && g.accessors == d.accessors && g.primitives == d.primitives
    requires g.animation == animation && g.byteLength == total
    requires g.extensionsUsed == ExtensionsUsed(d.usesTextureTransform, animation.Some?)
    ensures WrittenFrom(g, meshes)
  {
  }

  /**
   * The summary writeGltf returns: one primitive per drawn mesh, one
   * material per distinct material key among them, and at least one
   * material whenever something was drawn.
   */
  lemma WriteSummaryCounts(g: Gltf, meshes: seq<PrimitiveMesh>)
    requires WrittenFrom(g, meshes)
    ensures var s := SummaryOf(g);
            && s.primitiveCount == |Drawn(meshes)|
            && s.materialCount == |FirstOfKeys(meshes)|
            && s.byteLength == g.byteLength
            && (Drawn(meshes) != [] ==> s.materialCount >= 1)
  {
    if Drawn(meshes) != [] {
      DrawnFrom(meshes);
      FirstOfKeysCover(meshes);
      IndexMapSpec(FirstOfKeys(meshes));
    }
  }
}
