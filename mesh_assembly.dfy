/**
 * Mesh assembly: visible faces grouped into one primitive mesh per material
 * key, each face contributing its vertex positions, its texture coordinates
 * and a triangle fan of indices.
 */
module MeshAssembly {
  import opened Wrappers
  import opened Facings
  import opened PolygonOps
  import opened Scene
  import opened MaterialResolver

  /** A texture coordinate pair. */
  datatype Uv = Uv(u: real, v: real)

  /**
   * What facesToPrimitiveMeshes takes from outside this file: the material
   * resolver (by default resolveMaterial with the given material options)
   * and the planar texture coordinates of tilted faces.
   */
  datatype AssemblyOptions = AssemblyOptions(resolve: VisibleFace -> Option<Material>, planarUvs: Polygon -> seq<Uv>)

  /** One glTF primitive: name, material, flat xyz positions, flat uv numbers and triangle indices. */
  datatype PrimitiveMesh = PrimitiveMesh(name: string, material: Material, positions: seq<real>, uvs: seq<real>, indices: seq<int>)

  datatype MeshStats = MeshStats(faceCount: nat, primitiveCount: nat, transformableFaceCount: nat)

  datatype Assembly = Assembly(meshes: seq<PrimitiveMesh>, stats: MeshStats)

  // ---------------------------------------------------------------------------
  // Texture coordinates
  // ---------------------------------------------------------------------------

  /** The raw coordinates computeAxisFaceUvs gives a vertex of an axis face with this facing. */
  function AxisUv(facing: Facing, p: Vec3): Uv
  {
    match facing
    case UP => Uv(p.z, -p.x)
    case DOWN => Uv(p.z, -p.x)
    case NORTH => Uv(-p.x, -p.y)
    case SOUTH => Uv(p.x, -p.y)
    case WEST => Uv(-p.z, -p.y)
    case EAST => Uv(p.z, -p.y)
  }

  /** The least u of a non-empty list: one of its u values, and no larger than any. */
  function MinU(uvs: seq<Uv>): (m: real)
    requires |uvs| > 0
    ensures forall i :: 0 <= i < |uvs| ==> m <= uvs[i].u
    ensures exists i :: 0 <= i < |uvs| && m == uvs[i].u
    decreases |uvs|
  {
    if |uvs| == 1 then uvs[0].u
    else
      var rest := MinU(uvs[..|uvs| - 1]);
      assert forall i :: 0 <= i < |uvs| - 1 ==> uvs[..|uvs| - 1][i] == uvs[i];
      if uvs[|uvs| - 1].u < rest then uvs[|uvs| - 1].u else rest
  }

  /** The least v of a non-empty list: one of its v values, and no larger than any. */
  function MinV(uvs: seq<Uv>): (m: real)
    requires |uvs| > 0
    ensures forall i :: 0 <= i < |uvs| ==> m <= uvs[i].v
    ensures exists i :: 0 <= i < |uvs| && m == uvs[i].v
    decreases |uvs|
  {
    if |uvs| == 1 then uvs[0].v
    else
      var rest := MinV(uvs[..|uvs| - 1]);
      assert forall i :: 0 <= i < |uvs| - 1 ==> uvs[..|uvs| - 1][i] == uvs[i];
      if uvs[|uvs| - 1].v < rest then uvs[|uvs| - 1].v else rest
  }

  /** normalizeUvOrigin: every coordinate shifted by the least u and the least v. */
  function NormalizedUvs(uvs: seq<Uv>): (r: seq<Uv>)
    ensures |r| == |uvs|
  {
    if uvs == [] then []
    else
      var minU, minV := MinU(uvs), MinV(uvs);
      seq(|uvs|, i requires 0 <= i < |uvs| => Uv(uvs[i].u - minU, uvs[i].v - minV))
  }

  /**
   * The normalised coordinates are a translation of the input (differences
   * between any two are kept), none is negative, and some u and some v are 0.
   */
  lemma NormalizedUvsSpec(uvs: seq<Uv>)
    ensures var r := NormalizedUvs(uvs);
            && (forall i, j :: 0 <= i < |uvs| && 0 <= j < |uvs| ==>
                 r[i].u - r[j].u == uvs[i].u - uvs[j].u && r[i].v - r[j].v == uvs[i].v - uvs[j].v)
            && (forall i :: 0 <= i < |r| ==> 0.0 <= r[i].u && 0.0 <= r[i].v)
            && (uvs != [] ==> (exists i :: 0 <= i < |r| && r[i].u == 0.0) && (exists j :: 0 <= j < |r| && r[j].v == 0.0))
  {
    if uvs != [] {
      var r := NormalizedUvs(uvs);
      var i :| 0 <= i < |uvs| && MinU(uvs) == uvs[i].u;
      var j :| 0 <= j < |uvs| && MinV(uvs) == uvs[j].v;
      assert r[i].u == 0.0 && r[j].v == 0.0;
    }
  }

  /** normalizeUvOrigin, with its loop for the least u and v. */
  method NormalizeUvOrigin(uvs: seq<Uv>) returns (r: seq<Uv>)
    ensures r == NormalizedUvs(uvs)
  {
    if uvs == [] {
      return [];
    }
    var minU, minV := uvs[0].u, uvs[0].v;
    var k := 1;
    while k < |uvs|
      invariant 1 <= k <= |uvs|
      invariant minU == MinU(uvs[..k]) && minV == MinV(uvs[..k])
    {
      assert uvs[..k + 1][..k] == uvs[..k];
      if uvs[k].u < minU {
        minU := uvs[k].u;
      }
      if uvs[k].v < minV {
        minV := uvs[k].v;
      }
      k := k + 1;
    }
    assert uvs[..k] == uvs;
    r := seq(|uvs|, i requires 0 <= i < |uvs| => Uv(uvs[i].u - minU, uvs[i].v - minV));
  }

  /** computeAxisFaceUvs: each vertex mapped by its facing, then normalised to the origin. */
  function AxisFaceUvs(facing: Facing, vertices: Polygon): (r: seq<Uv>)
    ensures |r| == |vertices|
  {
    NormalizedUvs(seq(|vertices|, i requires 0 <= i < |vertices| => AxisUv(facing, vertices[i])))
  }

  method ComputeAxisFaceUvs(facing: Facing, vertices: Polygon) returns (uvs: seq<Uv>)
    ensures uvs == AxisFaceUvs(facing, vertices)
  {
    var raw := [];
    for k := 0 to |vertices|
      invariant raw == seq(k, i requires 0 <= i < k => AxisUv(facing, vertices[i]))
    {
      raw := raw + [AxisUv(facing, vertices[k])];
    }
    uvs := NormalizeUvOrigin(raw);
  }

  /** A list whose least u is mu and least v is mv is shifted by exactly those. */
  lemma NormalizedUvsBy(uvs: seq<Uv>, mu: real, mv: real, iu: nat, iv: nat)
    requires iu < |uvs| && iv < |uvs| && uvs[iu].u == mu && uvs[iv].v == mv
    requires forall i :: 0 <= i < |uvs| ==> mu <= uvs[i].u && mv <= uvs[i].v
    ensures forall i :: 0 <= i < |uvs| ==> NormalizedUvs(uvs)[i] == Uv(uvs[i].u - mu, uvs[i].v - mv)
  {
  }

  /** The north quad of the mesh-assembly tests gets the Minecraft default orientation. */
  lemma NorthQuadUvs()
    ensures AxisFaceUvs(NORTH, [Vec3(1.0, 0.0, 0.0), Vec3(0.0, 0.0, 0.0), Vec3(0.0, 1.0, 0.0), Vec3(1.0, 1.0, 0.0)])
            == [Uv(0.0, 1.0), Uv(1.0, 1.0), Uv(1.0, 0.0), Uv(0.0, 0.0)]
  {
    var quad := [Vec3(1.0, 0.0, 0.0), Vec3(0.0, 0.0, 0.0), Vec3(0.0, 1.0, 0.0), Vec3(1.0, 1.0, 0.0)];
    var raw := seq(|quad|, i requires 0 <= i < |quad| => AxisUv(NORTH, quad[i]));
    assert raw[0] == Uv(-1.0, 0.0) && raw[1] == Uv(0.0, 0.0) && raw[2] == Uv(0.0, -1.0) && raw[3] == Uv(-1.0, -1.0);
    NormalizedUvsBy(raw, -1.0, -1.0, 0, 2);
  }

  /** The south quad of the mesh-assembly tests gets the same orientation. */
  lemma SouthQuadUvs()
    ensures AxisFaceUvs(SOUTH, [Vec3(0.0, 0.0, 1.0), Vec3(1.0, 0.0, 1.0), Vec3(1.0, 1.0, 1.0), Vec3(0.0, 1.0, 1.0)])
            == [Uv(0.0, 1.0), Uv(1.0, 1.0), Uv(1.0, 0.0), Uv(0.0, 0.0)]
  {
    var quad := [Vec3(0.0, 0.0, 1.0), Vec3(1.0, 0.0, 1.0), Vec3(1.0, 1.0, 1.0), Vec3(0.0, 1.0, 1.0)];
    var raw := seq(|quad|, i requires 0 <= i < |quad| => AxisUv(SOUTH, quad[i]));
    assert raw[0] == Uv(0.0, 0.0) && raw[1] == Uv(1.0, 0.0) && raw[2] == Uv(1.0, -1.0) && raw[3] == Uv(0.0, -1.0);
    NormalizedUvsBy(raw, 0.0, -1.0, 0, 2);
  }

  /** computeFaceUvs: none for a face without vertices, axis coordinates for an axis face, planar ones otherwise. */
  function FaceUvs(face: VisibleFace, planarUvs: Polygon -> seq<Uv>): seq<Uv>
  {
    if |face.vertices| == 0 then []
    else if face.faceType == AxisFace then AxisFaceUvs(face.facing, face.vertices)
    else planarUvs(face.vertices)
  }

  method ComputeFaceUvs(face: VisibleFace, planarUvs: Polygon -> seq<Uv>) returns (uvs: seq<Uv>)
    ensures uvs == FaceUvs(face, planarUvs)
  {
    if |face.vertices| == 0 {
      uvs := [];
    } else if face.faceType == AxisFace {
      uvs := ComputeAxisFaceUvs(face.facing, face.vertices);
    } else {
      uvs := planarUvs(face.vertices);
    }
  }

  // ---------------------------------------------------------------------------
  // Triangle indices
  // ---------------------------------------------------------------------------

  /** The fan triangles (base, base+i, base+i+1) for i from `i` while i + 1 < n. */
  function FanIndices(base: int, n: nat, i: nat): (r: seq<int>)
    decreases n - i
  {
    if i + 1 < n then [base, base + i, base + i + 1] + FanIndices(base, n, i + 1) else []
  }

  /** The indices a face of n vertices appends: a triangle, a quad's two triangles, or a fan. */
  function FaceIndices(base: int, n: nat): seq<int>
  {
    if n == 3 then [base, base + 1, base + 2]
    else if n == 4 then [base, base + 1, base + 2, base, base + 2, base + 3]
    else FanIndices(base, n, 1)
  }

  /** The number of indices of an n-gon: 3(n − 2), or none below a triangle. */
  function IndexCount(n: nat): nat
  {
    if n >= 3 then 3 * (n - 2) else 0
  }

  /** A fan from i has one triangle per step and stays within [base, base + n). */
  lemma {:induction false} FanIndicesSpec(base: int, n: nat, i: nat)
    requires i >= 1
    ensures |FanIndices(base, n, i)| == if i + 1 < n then 3 * (n - 1 - i) else 0
    ensures forall k :: 0 <= k < |FanIndices(base, n, i)| ==> base <= FanIndices(base, n, i)[k] < base + n
    decreases n - i
  {
    if i + 1 < n {
      FanIndicesSpec(base, n, i + 1);
    }
  }

  /**
   * The triangle and quad cases are the fan itself; a face appends 3 indices
   * per triangle of its fan, every one a vertex of the face.
   */
  lemma FaceIndicesSpec(base: int, n: nat)
    ensures FaceIndices(base, n) == FanIndices(base, n, 1)
    ensures |FaceIndices(base, n)| == IndexCount(n)
    ensures forall k :: 0 <= k < |FaceIndices(base, n)| ==> base <= FaceIndices(base, n)[k] < base + n
  {
    FanIndicesSpec(base, n, 1);
    if n == 4 {
      assert FanIndices(base, n, 3) == [];
    }
  }

  // ---------------------------------------------------------------------------
  // Appending a face to a mesh
  // ---------------------------------------------------------------------------

  /** The flat x, y, z numbers of the vertices. */
  function VertexPositions(vs: Polygon): (r: seq<real>)
    ensures |r| == 3 * |vs|
  {
    if vs == [] then [] else VertexPositions(vs[..|vs| - 1]) + [vs[|vs| - 1].x, vs[|vs| - 1].y, vs[|vs| - 1].z]
  }

  /** The flat u, v numbers of the coordinates. */
  function UvNumbers(uvs: seq<Uv>): (r: seq<real>)
    ensures |r| == 2 * |uvs|
  {
    if uvs == [] then [] else UvNumbers(uvs[..|uvs| - 1]) + [uvs[|uvs| - 1].u, uvs[|uvs| - 1].v]
  }

  /** A face appended to a mesh: its positions, its coordinates, and its indices from the mesh's vertex count on. */
  function AppendFace(mesh: PrimitiveMesh, face: VisibleFace, uvs: seq<Uv>): PrimitiveMesh
  {
    mesh.(positions := mesh.positions + VertexPositions(face.vertices),
          uvs := mesh.uvs + UvNumbers(uvs),
          indices := mesh.indices + FaceIndices(|mesh.positions| / 3, |face.vertices|))
  }

  /** The pushes of one face onto its mesh, loop by loop. */
  method AppendFaceTo(mesh: PrimitiveMesh, face: VisibleFace, faceUvs: seq<Uv>) returns (m: PrimitiveMesh)
    ensures m == AppendFace(mesh, face, faceUvs)
  {
    var base := |mesh.positions| / 3;
    var positions := mesh.positions;
    for k := 0 to |face.vertices|
      invariant positions == mesh.positions + VertexPositions(face.vertices[..k])
    {
      var v := face.vertices[k];
      assert face.vertices[..k + 1][..k] == face.vertices[..k];
      positions := positions + [v.x, v.y, v.z];
    }
    assert face.vertices[..|face.vertices|] == face.vertices;
    var uvs := mesh.uvs;
    for k := 0 to |faceUvs|
      invariant uvs == mesh.uvs + UvNumbers(faceUvs[..k])
    {
      assert faceUvs[..k + 1][..k] == faceUvs[..k];
      uvs := uvs + [faceUvs[k].u, faceUvs[k].v];
    }
    assert faceUvs[..|faceUvs|] == faceUvs;
    var indices := mesh.indices;
    var n := |face.vertices|;
    if n == 3 {
      indices := indices + [base, base + 1, base + 2];
    } else if n == 4 {
      indices := indices + [base, base + 1, base + 2, base, base + 2, base + 3];
    } else {
      var i := 1;
      while i + 1 < n
        invariant 1 <= i
        invariant indices + FanIndices(base, n, i) == mesh.indices + FanIndices(base, n, 1)
        decreases n - i
      {
        indices := indices + [base, base + i, base + i + 1];
        i := i + 1;
      }
    }
    m := mesh.(positions := positions, uvs := uvs, indices := indices);
  }

  // ---------------------------------------------------------------------------
  // facesToPrimitiveMeshes
  // ---------------------------------------------------------------------------

  /** The groups Map: keys in insertion order, the mesh per key, and the transformable-face count. */
  datatype Groups = Groups(order: seq<string>, meshes: map<string, PrimitiveMesh>, transformable: nat)

  /** The mesh a material key starts with: named after the material, or the face's block state when that name is empty. */
  function NewMesh(material: Material, face: VisibleFace): PrimitiveMesh
  {
    PrimitiveMesh(if material.materialName != "" then material.materialName else face.blockState, material, [], [], [])
  }

  /** One iteration of the face loop. */
  function GroupStep(g: Groups, face: VisibleFace, options: AssemblyOptions): Groups
  {
    var transformable := if face.sourceKind == Transformable then g.transformable + 1 else g.transformable;
    var material := options.resolve(face);
    if material.None? then g.(transformable := transformable)
    else
      var key := material.value.materialKey;
      var mesh := if key in g.meshes then g.meshes[key] else NewMesh(material.value, face);
      var order := if key in g.meshes then g.order else g.order + [key];
      Groups(order, g.meshes[key := AppendFace(mesh, face, FaceUvs(face, options.planarUvs))], transformable)
  }

  /** The groups after the loop has seen every face. */
  function GroupFaces(faces: seq<VisibleFace>, options: AssemblyOptions): Groups
    decreases |faces|
  {
    if faces == [] then Groups([], map[], 0)
    else GroupStep(GroupFaces(faces[..|faces| - 1], options), faces[|faces| - 1], options)
  }

  /** The result: the meshes in insertion order, and the statistics. */
  function AssemblyOf(faces: seq<VisibleFace>, options: AssemblyOptions): Assembly
  {
    var g := GroupFaces(faces, options);
    GroupFacesKeys(faces, options);
    Assembly(seq(|g.order|, i requires 0 <= i < |g.order| => g.meshes[g.order[i]]),
             MeshStats(|faces|, |g.order|, g.transformable))
  }

  method FacesToPrimitiveMeshes(faces: seq<VisibleFace>, options: AssemblyOptions) returns (result: Assembly)
    ensures result == AssemblyOf(faces, options)
  {
    var order: seq<string> := [];
    var meshes: map<string, PrimitiveMesh> := map[];
    var transformable := 0;
    for k := 0 to |faces|
      invariant Groups(order, meshes, transformable) == GroupFaces(faces[..k], options)
    {
      var face := faces[k];
      assert faces[..k + 1][..k] == faces[..k];
      if face.sourceKind == Transformable {
        transformable := transformable + 1;
      }
      var material := options.resolve(face);
      if material.None? {
        continue;
      }
      var key := material.value.materialKey;
      var mesh;
      if key in meshes {
        mesh := meshes[key];
      } else {
        mesh := NewMesh(material.value, face);
        order := order + [key];
      }
      var faceUvs := ComputeFaceUvs(face, options.planarUvs);
      mesh := AppendFaceTo(mesh, face, faceUvs);
      meshes := meshes[key := mesh];
    }
    assert faces[..|faces|] == faces;
    GroupFacesKeys(faces, options);
    var out := seq(|order|, i requires 0 <= i < |order| => meshes[order[i]]);
    result := Assembly(out, MeshStats(|faces|, |order|, transformable));
  }

  // ---------------------------------------------------------------------------
  // What the grouping guarantees
  // ---------------------------------------------------------------------------

  /** The material key a face resolves to, if any. */
  function KeyOf(face: VisibleFace, options: AssemblyOptions): Option<string>
  {
    var m := options.resolve(face);
    if m.None? then None else Some(m.value.materialKey)
  }

  /** The faces, in order, that resolve to the key. */
  function KeyFaces(faces: seq<VisibleFace>, options: AssemblyOptions, key: string): (r: seq<VisibleFace>)
    ensures |r| <= |faces|
    ensures forall i :: 0 <= i < |r| ==> KeyOf(r[i], options) == Some(key)
    decreases |faces|
  {
    if faces == [] then []
    else
      var init := KeyFaces(faces[..|faces| - 1], options, key);
      if KeyOf(faces[|faces| - 1], options) == Some(key) then init + [faces[|faces| - 1]] else init
  }

  /** The number of faces from transformable boxes. */
  function TransformableCount(faces: seq<VisibleFace>): nat
    decreases |faces|
  {
    if faces == [] then 0
    else TransformableCount(faces[..|faces| - 1]) + (if faces[|faces| - 1].sourceKind == Transformable then 1 else 0)
  }

  /** The distinct material keys the faces resolve to. */
  ghost function ResolvedKeys(faces: seq<VisibleFace>, options: AssemblyOptions): set<string>
  {
    set i | 0 <= i < |faces| && KeyOf(faces[i], options).Some? :: KeyOf(faces[i], options).value
  }

  lemma ResolvedKeysSnoc(faces: seq<VisibleFace>, options: AssemblyOptions)
    requires faces != []
    ensures var last := KeyOf(faces[|faces| - 1], options);
            ResolvedKeys(faces, options) == ResolvedKeys(faces[..|faces| - 1], options) + (if last.Some? then {last.value} else {})
  {
    var init := faces[..|faces| - 1];
    assert forall i :: 0 <= i < |init| ==> init[i] == faces[i];
  }

  /** A key has faces exactly when it is one of the resolved keys. */
  lemma {:induction false} KeyFacesNonEmpty(faces: seq<VisibleFace>, options: AssemblyOptions, key: string)
    ensures KeyFaces(faces, options, key) != [] <==> key in ResolvedKeys(faces, options)
    decreases |faces|
  {
    if faces != [] {
      KeyFacesNonEmpty(faces[..|faces| - 1], options, key);
      ResolvedKeysSnoc(faces, options);
    }
  }

  ghost predicate Distinct(xs: seq<string>)
  {
    forall i, j :: 0 <= i < j < |xs| ==> xs[i] != xs[j]
  }

  /**
   * The insertion order lists each resolved key once and nothing else; the
   * meshes are keyed by exactly those keys, each carrying a material of its
   * own key; and the transformable count counts the transformable faces.
   */
  lemma {:induction false} GroupFacesKeys(faces: seq<VisibleFace>, options: AssemblyOptions)
    ensures var g := GroupFaces(faces, options);
            && Distinct(g.order)
            && (forall k :: k in g.meshes <==> k in g.order)
            && (forall k :: k in g.meshes <==> k in ResolvedKeys(faces, options))
            && (forall k :: k in g.meshes ==> g.meshes[k].material.materialKey == k)
            && g.transformable == TransformableCount(faces)
    decreases |faces|
  {
    if faces != [] {
      GroupFacesKeys(faces[..|faces| - 1], options);
      ResolvedKeysSnoc(faces, options);
    }
  }

  /** The cardinality of a duplicate-free list's elements is its length. */
  lemma {:induction false} DistinctCard(xs: seq<string>)
    requires Distinct(xs)
    ensures |set x | x in xs| == |xs|
    decreases |xs|
  {
    if xs != [] {
      var init := xs[..|xs| - 1];
      DistinctCard(init);
      assert (set x | x in xs) == (set x | x in init) + {xs[|xs| - 1]};
      assert xs[|xs| - 1] !in init by {
        forall i | 0 <= i < |init|
          ensures init[i] != xs[|xs| - 1]
        {
          assert init[i] == xs[i];
        }
      }
    }
  }

  /** The faces' total vertex count. */
  function VertexCount(fs: seq<VisibleFace>): nat
    decreases |fs|
  {
    if fs == [] then 0 else VertexCount(fs[..|fs| - 1]) + |fs[|fs| - 1].vertices|
  }

  /** The faces' positions, in order. */
  function PositionsOf(fs: seq<VisibleFace>): seq<real>
    decreases |fs|
  {
    if fs == [] then [] else PositionsOf(fs[..|fs| - 1]) + VertexPositions(fs[|fs| - 1].vertices)
  }

  /** The faces' coordinates, in order. */
  function UvsOf(fs: seq<VisibleFace>, planarUvs: Polygon -> seq<Uv>): seq<real>
    decreases |fs|
  {
    if fs == [] then [] else UvsOf(fs[..|fs| - 1], planarUvs) + UvNumbers(FaceUvs(fs[|fs| - 1], planarUvs))
  }

  /** The faces' indices, each face's fan starting at the vertices before it. */
  function IndicesOf(fs: seq<VisibleFace>): seq<int>
    decreases |fs|
  {
    if fs == [] then [] else IndicesOf(fs[..|fs| - 1]) + FaceIndices(VertexCount(fs[..|fs| - 1]), |fs[|fs| - 1].vertices|)
  }

  /** The total index count: 3(n − 2) per face of n ≥ 3 vertices. */
  function IndexTotal(fs: seq<VisibleFace>): nat
    decreases |fs|
  {
    if fs == [] then 0 else IndexTotal(fs[..|fs| - 1]) + IndexCount(|fs[|fs| - 1].vertices|)
  }

  /** A mesh that holds the data of faces fs, with a face appended, holds the data of fs + [face]. */
  lemma AppendFaceData(mesh: PrimitiveMesh, fs: seq<VisibleFace>, face: VisibleFace, planarUvs: Polygon -> seq<Uv>)
    requires mesh.positions == PositionsOf(fs) && mesh.uvs == UvsOf(fs, planarUvs) && mesh.indices == IndicesOf(fs)
    ensures var m := AppendFace(mesh, face, FaceUvs(face, planarUvs));
            var fs' := fs + [face];
            m.positions == PositionsOf(fs') && m.uvs == UvsOf(fs', planarUvs) && m.indices == IndicesOf(fs')
  {
    var fs' := fs + [face];
    assert fs'[..|fs'| - 1] == fs;
    PositionsCount(fs);
  }

  /** The mesh a key holds matches its faces: the statement of GroupFacesContents. */
  ghost predicate HoldsKeyFaces(mesh: PrimitiveMesh, ks: seq<VisibleFace>, options: AssemblyOptions)
  {
    && ks != []
    && options.resolve(ks[0]).Some?
    && mesh.material == options.resolve(ks[0]).value
    && mesh.name == NewMesh(mesh.material, ks[0]).name
    && mesh.positions == PositionsOf(ks)
    && mesh.uvs == UvsOf(ks, options.planarUvs)
    && mesh.indices == IndicesOf(ks)
  }

  /**
   * The mesh of a key holds exactly the positions, coordinates and indices of
   * the faces that resolve to it, in face order; it is named after, and
   * carries, the material of the first such face.
   */
  lemma {:induction false} GroupFacesContents(faces: seq<VisibleFace>, options: AssemblyOptions, key: string)
    requires key in GroupFaces(faces, options).meshes
    ensures HoldsKeyFaces(GroupFaces(faces, options).meshes[key], KeyFaces(faces, options, key), options)
    decreases |faces|
  {
    var init := faces[..|faces| - 1];
    var face := faces[|faces| - 1];
    var g0 := GroupFaces(init, options);
    var ks0 := KeyFaces(init, options, key);
    if KeyOf(face, options) == Some(key) {
      if key in g0.meshes {
        GroupFacesContents(init, options, key);
        AppendFaceData(g0.meshes[key], ks0, face, options.planarUvs);
        assert (ks0 + [face])[0] == ks0[0];
      } else {
        GroupFacesKeys(init, options);
        KeyFacesNonEmpty(init, options, key);
        AppendFaceData(NewMesh(options.resolve(face).value, face), [], face, options.planarUvs);
        assert ks0 + [face] == [] + [face];
      }
    } else {
      GroupFacesContents(init, options, key);
    }
  }

  /** The faces' positions are three numbers per vertex. */
  lemma {:induction false} PositionsCount(fs: seq<VisibleFace>)
    ensures |PositionsOf(fs)| == 3 * VertexCount(fs)
    decreases |fs|
  {
    if fs != [] {
      PositionsCount(fs[..|fs| - 1]);
    }
  }

  /**
   * The faces' indices number 3(n − 2) per n-gon and each names one of the
   * faces' vertices: every index is below the vertex count, which is a third
   * of the position count.
   */
  lemma {:induction false} IndicesInRange(fs: seq<VisibleFace>)
    ensures |IndicesOf(fs)| == IndexTotal(fs)
    ensures forall k :: 0 <= k < |IndicesOf(fs)| ==> 0 <= IndicesOf(fs)[k] < VertexCount(fs)
    ensures |PositionsOf(fs)| == 3 * VertexCount(fs)
    decreases |fs|
  {
    PositionsCount(fs);
    if fs != [] {
      var init := fs[..|fs| - 1];
      IndicesInRange(init);
      FaceIndicesSpec(VertexCount(init), |fs[|fs| - 1].vertices|);
    }
  }

  /**
   * facesToPrimitiveMeshes: one mesh per distinct material key (faces with no
   * material are skipped), in first-appearance order, no two with the same
   * key; primitiveCount is the number of distinct keys, faceCount the number
   * of input faces.
   */
  lemma AssemblyKeys(faces: seq<VisibleFace>, options: AssemblyOptions)
    ensures var a := AssemblyOf(faces, options);
            && a.stats.faceCount == |faces|
            && a.stats.primitiveCount == |a.meshes| == |ResolvedKeys(faces, options)|
            && a.stats.transformableFaceCount == TransformableCount(faces)
            && (forall k :: k in ResolvedKeys(faces, options) <==> exists i :: 0 <= i < |a.meshes| && a.meshes[i].material.materialKey == k)
            && (forall i, j :: 0 <= i < j < |a.meshes| ==> a.meshes[i].material.materialKey != a.meshes[j].material.materialKey)
  {
    var g := GroupFaces(faces, options);
    var a := AssemblyOf(faces, options);
    GroupFacesKeys(faces, options);
    DistinctCard(g.order);
    assert (set x | x in g.order) == ResolvedKeys(faces, options);
    assert forall i :: 0 <= i < |g.order| ==> a.meshes[i].material.materialKey == g.order[i];
    forall k | k in ResolvedKeys(faces, options)
      ensures exists i :: 0 <= i < |a.meshes| && a.meshes[i].material.materialKey == k
    {
      var i :| 0 <= i < |g.order| && g.order[i] == k;
      assert a.meshes[i].material.materialKey == k;
    }
  }

  /** Every assembled mesh has three numbers per vertex and indices that name its own vertices. */
  lemma AssemblyMeshesValid(faces: seq<VisibleFace>, options: AssemblyOptions, i: nat)
    requires i < |AssemblyOf(faces, options).meshes|
    ensures var mesh := AssemblyOf(faces, options).meshes[i];
            && |mesh.positions| % 3 == 0
            && forall k :: 0 <= k < |mesh.indices| ==> 0 <= mesh.indices[k] < |mesh.positions| / 3
  {
    var g := GroupFaces(faces, options);
    GroupFacesKeys(faces, options);
    assert AssemblyOf(faces, options).meshes[i] == g.meshes[g.order[i]];
    GroupFacesContents(faces, options, g.order[i]);
    IndicesInRange(KeyFaces(faces, options, g.order[i]));
  }
}
