# LittleTiles face culling, modelled in Dafny

This project models the geometry core of the LittleTiles-to-glTF importer
(`tools/lt-import-gltf-poc`). The importer turns a LittleTiles structure,
which is a tree of tiles made of axis-aligned or corner-displaced
("transformable") boxes on a subdivision grid, into the faces a renderer
would actually draw. Each box side becomes a face candidate. A candidate is
classified as unloaded, covered, partially covered or uncovered, and is cut
against its neighbours when it is partly hidden.

Around the importer, the model also covers the viewer's `.mcmeta` texture
animator (`tools/lt-3d-viewer`) and the text and counting rules of the two
server commands of the parity exporter add-on
(`addons/littletiles-parity-exporter`): the texture export and the debug
export, whose reports the importer and its parity tools read.

One Dafny module stands for each source file of the core:

- `Facings` (`facings.dfy`): the six facings, their axes, signs, facing order and in-plane axes.
- `PolygonOps` (`polygon_ops.dfy`): the 3D polygon kernel of `polygon-ops.mjs`: degeneracy, simplification, de-duplication, plane sidedness, segment–plane intersection and Sutherland–Hodgman clipping.
- `Polygon2d` (`polygon_2d.dfy`): the in-plane kernel of `polygon-ops.mjs`. `Ray2d` is a class whose fields `createRay2d`, `ray2dSet` and `ray2dSetFromPoints` update in place. The module also covers cutting by a ray, cutting by a cutter polygon, containment, cyclic equality and area intersection.
- `TransformableCache` (`transformable_cache.dfy`): the bit-packed corner payload of a transformable box, decoded as signed 16-bit deltas selected by indicator bits. It also holds the face definitions, the triangle split, normalisation, planes and `nearestFacing`.
- `TransformableRender` (`transformable_render.dfy`): `computeTransformableRawFaceCache` (tilted strips, cut planes, axis strips) and the memoised `getTransformableRenderCache`.
- `FaceCandidateBuilder` (`face_candidate_builder.dfy`): face bounds, face rectangles, and the AABB and transformable candidate builders.
- `OccluderOps` (`occluder_ops.dfy`): outside faces and their neighbour cell, solidity, contact, projection of cutters, the 2D cut loop and `applyOccluders`.
- `FaceStateEvaluation` (`face_state_evaluation.dfy`): the coverage bitmap of `computeFaceCoverage`, a Dafny array filled by nested loops, and the face-state classification.
- `PostprocessFaces` (`postprocess_faces.dfy`): `postprocess-faces.mjs`: geometry mode and optimisation options, normalised polygon keys, exact-face de-duplication, transparent coplanar seam removal and the pass pipeline.
- `FaceCandidates` (`face_candidates.dfy`): `face-candidates.mjs`: option resolution, the renderability of one candidate, the tile, box and candidate iteration, and `buildVisibleFaces` with its occluder step and face emission.
- `TileNormalization` (`tile_normalization.dfy`): `normalizeTilesForRendering`. It covers grid fallback, canonical block ids, structure ids, behaviour inference and overrides, and the running tile and box counters.
- `RuntimeProfile` (`runtime_profile.dfy`): `runtime-face-behavior-profile.mjs`: the built-in profiles, profile id resolution by explicit id or version-prefix matching, and the deep merge.
- `LtImportParser` (`lt_import_parser.dfy`): `lt-import-parser.mjs` after SNBT text parsing. It covers the current (`t`, `c`, `e`) and legacy (`tiles`, `children`) group decoders, integer and box arrays, old tile names, structure ids, grid inheritance and the flat tile and box lists.
- `MaterialResolver` (`material_resolver.dfy`): `material-resolver.mjs`: ARGB decoding, clamping, the quantised material key, block-state canonicalisation, legacy texture aliases, texture URI, animation, alpha and tint lookups, and `resolveMaterial`.
- `MeshAssembly` (`mesh_assembly.dfy`): `facesToPrimitiveMeshes` and its helpers in `mesh-assembly.mjs`: axis UVs, UV origin normalisation, fan triangulation, and grouping faces into one mesh per material key.
- `OffsetTracks` (`offset_tracks.dfy`): the texture-offset animation tracks of `mesh-assembly.mjs`: `normalizePositiveInt`, `buildOffsetTrack`, `normalizeTrackFrames`, `repeatTrackToLoop`, `gcd`, `lcm` and `resolveSharedLoopTicks`.
- `GltfWriter` (`gltf_writer.dfy`): the building blocks of `writeGltf` in `mesh-assembly.mjs`: 4-byte alignment, the binary buffer that `addChunk` grows in place (a class), index width, the `minMax3`/`minMax2` loops, the texture table that `resolveTextureIndex` grows in place (a class), and `toGltfMaterial`.
- `GltfDocument` (`gltf_document.dfy`): `writeGltf` and `buildTextureOffsetAnimation`: the per-mesh loop over a document state, material de-duplication by key, the animated targets, the animation channels, and the written document with its extensions.
- `TextureReport` (`texture_report.dfy`): `texture-report.mjs`: the texture lookup built from the exporter's report (texture ids, alpha, animations, and the URI and tint of each block state and block id), the URI prefix and tint normalisation, the PNG header reader and chunk walk, and the mcmeta animation metadata.
- `DebugStats` (`debug_stats.dfy`): `debug-stats.mjs`: the face-set summary (per facing, per box kind, per face type, inside and outside) and the summary of the renderable face candidates of a tile list.
- `ParityFaceStates` (`parity_face_states.dfy`): `parity/face-state-summary.mjs`: face renderability, the stack walk that counts the faces of a debug export tree per facing and per side (over all faces and over the renderable ones), and the two summary sanitisers.
- `CandidateDiff` (`candidate_diff.dfy`): `parity/candidate-diff.mjs`: the candidate and box signatures, the candidate multiset that `addCandidateCount` grows in place (a class), the multiset diff with its sort order, the entry limit, the focus view of outside DOWN transformable faces, and `deriveCurrentVsFreshMismatch`.
- `SchemaTreeCompare` (`schema_tree_compare.dfy`): `parity/schema-tree-compare.mjs`: the stats sanitizer, the recursive stats counter, the canonical trees built from a parsed structure and from a debug export (sorted by their JSON text, null-valued keys removed), and `firstDiff`.
- `ParityIo` (`parity_io.dfy`): `parity/io.mjs`: the positive-integer flag reader and the runtime versions read from a debug export.
- `Cli` (`cli.dfy`): `cli.mjs`: the converter's argument loop, `parseInt`, the geometry-mode argument and the decisions `main` takes before reading the input.
- `ParityDebugCheck` (`parity_debug_check.dfy`): `parity-debug-check.mjs`: the checker's argument loop with both spellings of its value flags, and the PASS/FAIL summary of `main`.
- `McmetaAnimator` (`mcmeta_animator.dfy`): `mcmeta-texture-animator.js` of the 3D viewer: `.mcmeta` animation metadata and frame normalisation, the frame sampler over the animation's tick windows, the animator (a class whose `attach`, `reset` and `update` change its bindings in place), the `.mcmeta` URI candidates, `normalizeFilePath`, and the colour-factor reader with its hex, integer and array forms.
- `LtTextureExport` (`lt_texture_export.dfy`): `LtTextureExportCommand.java`, the text rules of the exporter's texture command: `normalizeBlockId`, `parseStateProperties` (a loop), `canonicalStateString`, the `ResourceId` record with `parse`, `parseBlockStateRef`, `variantMatchesState` (a loop), `whenMatchesState`, `propertyValueMatches`, `resolveTextureRef` (a loop) and `toOutputFileName`.
- `LtDebugExport` (`lt_debug_export.dfy`): `LtDebugExportCommand.java`, the exporter's debug command around the game-side evaluation: the geometry mode argument, the face cell estimate and outside test, `countFilledCells` (nested loops), the transformable cache snapshots and their mismatch flags, the face evaluations, the face-state summary and the transformable diagnostics summary (classes whose `record` updates them in place), and the output file name.

Shared modules:

- `Wrappers` holds Option and Result.
- `Json` is an already-parsed JSON value together with `Number()`.
- `Strings` models the JavaScript string built-ins the core relies on: `trim`, `toLowerCase`, `indexOf`, `split`, number formatting and string ordering.
- `Scene` holds the tile and box records and the render cache of a transformable box.

Geometry is over exact reals. Loops of the source are Dafny methods proved
equal to a specification function. The lemmas state the source's promises
about those functions.

## Model

| member | source | states |
|---|---|---|
| Facings.AxisIndex | tools/lt-import-gltf-poc/src/gltf-writer/transformable-cache.mjs:408-414 | axisToIndex maps X, Y and Z to the coordinate indices 0, 1 and 2, one index per axis |
| Facings.PlaneAxes | tools/lt-import-gltf-poc/src/gltf-writer/transformable-cache.mjs:483-490 | the in-plane indices of an axis are two ascending indices, both different from the axis index |
| Facings.FacePlaneAxes | tools/lt-import-gltf-poc/src/gltf-writer/face-candidate-builder.mjs:124-131 | a face's in-plane indices are ascending and avoid the index of the face's own axis: (1,2) for X, (0,2) for Y, (0,1) for Z |
| Facings.FacingOrderIsOrdinal | tools/lt-import-gltf-poc/src/gltf-writer/transformable-cache.mjs:26-32 | FACING_ORDER lists all six facings once each, every facing at its ordinal |
| Facings.NormalMatchesAxisAndSign | tools/lt-import-gltf-poc/src/gltf-writer/transformable-cache.mjs:33-40 | each facing normal is the unit vector on the facing's axis, +1 for UP, SOUTH, EAST and -1 otherwise |
| PolygonOps.IsDegeneratePolygon | tools/lt-import-gltf-poc/src/gltf-writer/polygon-ops.mjs:82-98 | the fan-sum loop decides degeneracy: fewer than 3 vertices, or the squared length of the summed fan cross products below 1e-12 |
| PolygonOps.FanNormalTranslate | tools/lt-import-gltf-poc/src/gltf-writer/polygon-ops.mjs:87-94 | the partial fan normal does not change when the polygon is moved |
| PolygonOps.DegenerateTranslationInvariant | tools/lt-import-gltf-poc/src/gltf-writer/polygon-ops.mjs:82-98 | degeneracy is unchanged by moving the polygon |
| PolygonOps.CoincidentFanNormal | tools/lt-import-gltf-poc/src/gltf-writer/polygon-ops.mjs:87-94 | a polygon whose vertices all coincide has a zero fan normal |
| PolygonOps.CoincidentIsDegenerate | tools/lt-import-gltf-poc/src/gltf-writer/polygon-ops.mjs:82-98 | a polygon whose vertices all coincide is degenerate |
| PolygonOps.HasRenderablePolygon | tools/lt-import-gltf-poc/src/gltf-writer/polygon-ops.mjs:100-107 | true exactly when some entry has at least 3 vertices and is not degenerate |
| PolygonOps.FindClosePoint | tools/lt-import-gltf-poc/src/gltf-writer/polygon-ops.mjs:130-137 | the inner search finds a vertex of the second polygon within eps of the point exactly when one exists |
| PolygonOps.PolygonsEqual | tools/lt-import-gltf-poc/src/gltf-writer/polygon-ops.mjs:125-140 | false for different lengths, otherwise true exactly when every vertex of the first has an eps-close vertex in the second |
| PolygonOps.EqualWithinReflexive | tools/lt-import-gltf-poc/src/gltf-writer/polygon-ops.mjs:125-140 | every polygon equals itself for a non-negative tolerance |
| PolygonOps.EqualWithinIsNotSymmetric | tools/lt-import-gltf-poc/src/gltf-writer/polygon-ops.mjs:125-140 | a concrete pair shows the comparison is not symmetric: a repeated vertex can hide a missing one |
| PolygonOps.DedupePolygons | tools/lt-import-gltf-poc/src/gltf-writer/polygon-ops.mjs:109-123 | the push loop computes the reference dedupe: each polygon is kept unless it equals one kept before |
| PolygonOps.DedupeIsSubsequence | tools/lt-import-gltf-poc/src/gltf-writer/polygon-ops.mjs:109-123 | the kept polygons are the input at strictly increasing indices, so the result is an order-preserving subsequence no longer than the input |
| PolygonOps.DedupeKeepsFirst | tools/lt-import-gltf-poc/src/gltf-writer/polygon-ops.mjs:109-123 | the first polygon of a non-empty input always survives, at the front |
| PolygonOps.DedupeNonEmpty | tools/lt-import-gltf-poc/src/gltf-writer/polygon-ops.mjs:112-121 | the induction behind DedupeKeepsFirst: a non-empty input gives a non-empty result starting with its first polygon |
| PolygonOps.DedupeDistinctAndComplete | tools/lt-import-gltf-poc/src/gltf-writer/polygon-ops.mjs:109-123 | no kept polygon equals an earlier kept one, and every input polygon is matched by a kept one |
| PolygonOps.PushDistinct | tools/lt-import-gltf-poc/src/gltf-writer/polygon-ops.mjs:145-150 | the first pass never lengthens the polygon, keeps its first vertex, leaves no two consecutive equal vertices and adds no new vertex |
| PolygonOps.TrimCollinearEnds | tools/lt-import-gltf-poc/src/gltf-writer/polygon-ops.mjs:152-158 | the closing trims never lengthen the polygon, add no vertex and keep consecutive vertices distinct |
| PolygonOps.Simplify | tools/lt-import-gltf-poc/src/gltf-writer/polygon-ops.mjs:142-165 | a simplified polygon is renderable (at least 3 vertices, not degenerate), has no consecutive equal vertices and uses only input vertices |
| PolygonOps.PushDistinctPoints | tools/lt-import-gltf-poc/src/gltf-writer/polygon-ops.mjs:145-150 | the first loop of simplifyPolygon computes PushDistinct |
| PolygonOps.SimplifyPolygon | tools/lt-import-gltf-poc/src/gltf-writer/polygon-ops.mjs:142-165 | the method computes Simplify: either nothing or a renderable polygon |
| PolygonOps.InFront | tools/lt-import-gltf-poc/src/gltf-writer/polygon-ops.mjs:189-195 | undecided exactly when the signed distance is strictly within eps of the plane, in front exactly when it is at least eps, behind exactly when at most -eps |
| PolygonOps.PlaneIntersectSegment | tools/lt-import-gltf-poc/src/gltf-writer/polygon-ops.mjs:197-216 | an intersection point, when there is one, lies on the plane |
| PolygonOps.SegmentPointOnPlane | tools/lt-import-gltf-poc/src/gltf-writer/polygon-ops.mjs:209-215 | the point start + dir*t lies on the plane when t solves the plane equation |
| PolygonOps.ScanAgreement | tools/lt-import-gltf-poc/src/gltf-writer/polygon-ops.mjs:224-240 | the agreement scan reports "all on one side" exactly when no two decided vertices disagree, and which side (none when every vertex is on the plane) |
| PolygonOps.MixedExtend | tools/lt-import-gltf-poc/src/gltf-writer/polygon-ops.mjs:224-240 | adding a vertex makes the scan mixed exactly when it contradicts an earlier decided vertex |
| PolygonOps.ClipPolygonByPlane | tools/lt-import-gltf-poc/src/gltf-writer/polygon-ops.mjs:218-290 | null for fewer than 3 vertices or an invalid plane; an identical copy when no vertex is in front and one is behind; null when none is behind; otherwise null or at least 3 vertices, each kept or on the plane |
| PolygonOps.ThirdAxisIndex | tools/lt-import-gltf-poc/src/gltf-writer/polygon-ops.mjs:636-642 | the result is below 3 and, for two distinct indices below 3, differs from both |
| PolygonOps.FaceVerticesFromPlaneRect | tools/lt-import-gltf-poc/src/gltf-writer/polygon-ops.mjs:660-679 | a face rectangle always has four vertices |
| PolygonOps.FaceRectInPlane | tools/lt-import-gltf-poc/src/gltf-writer/polygon-ops.mjs:660-679 | every vertex carries coordinate c on the face axis |
| PolygonOps.FaceRectSpansBounds | tools/lt-import-gltf-poc/src/gltf-writer/polygon-ops.mjs:660-679 | the four vertices are the corners of [a0,a1] x [b0,b1], each once, walking round the rectangle |
| PolygonOps.FaceRectWindsOutward | tools/lt-import-gltf-poc/src/gltf-writer/polygon-ops.mjs:660-679 | for a proper rectangle the first triangle's normal points along the face's sign and has no other component |
| Polygon2d.ToTheRight | tools/lt-import-gltf-poc/src/gltf-writer/polygon-ops.mjs:571-578 | undecided exactly when the point is within EPSILON of the line, on the right exactly when the side value is at most -EPSILON, on the left exactly when at least EPSILON |
| Polygon2d.PointsOfLineAreOnIt | tools/lt-import-gltf-poc/src/gltf-writer/polygon-ops.mjs:571-578 | every point of the line, the origin included, is on neither side |
| Polygon2d.ReversedLineSwapsSides | tools/lt-import-gltf-poc/src/gltf-writer/polygon-ops.mjs:571-578 | running a line backwards swaps its right and left sides and keeps points on the line undecided |
| Polygon2d.EndpointsOnLine | tools/lt-import-gltf-poc/src/gltf-writer/polygon-ops.mjs:535-540 | a ray set through two points has both of them on its line |
| Polygon2d.Ray2d.constructor | tools/lt-import-gltf-poc/src/gltf-writer/polygon-ops.mjs:515-524 | createRay2d: a ray on the given axes whose line runs from start to end |
| Polygon2d.Ray2d.Set | tools/lt-import-gltf-poc/src/gltf-writer/polygon-ops.mjs:526-533 | ray2dSet: new axes and a new line from start to end, in place |
| Polygon2d.Ray2d.SetFromPoints | tools/lt-import-gltf-poc/src/gltf-writer/polygon-ops.mjs:535-540 | ray2dSetFromPoints: the axes stay and the line runs between the projections of the two points |
| Polygon2d.GetT | tools/lt-import-gltf-poc/src/gltf-writer/polygon-ops.mjs:554-556 | no parameter exactly when the direction on that axis is zero (the source's division by zero); otherwise the line reaches the value at that parameter |
| Polygon2d.Get | tools/lt-import-gltf-poc/src/gltf-writer/polygon-ops.mjs:558-561 | the point at the first coordinate value lies on the line |
| Polygon2d.GetOnLine | tools/lt-import-gltf-poc/src/gltf-writer/polygon-ops.mjs:558-561 | the source's expression for the second coordinate puts the point on the line |
| Polygon2d.IsCoordinateOnLine | tools/lt-import-gltf-poc/src/gltf-writer/polygon-ops.mjs:563-569 | for nearly vertical or horizontal directions only that coordinate is compared; otherwise the point is on the line exactly when its distance along the second axis is below EPSILON |
| Polygon2d.OffLineDistance | tools/lt-import-gltf-poc/src/gltf-writer/polygon-ops.mjs:563-569 | comparing with the line's second coordinate within EPSILON is the same as bounding the side value by EPSILON times the direction |
| Polygon2d.CrossingT | tools/lt-import-gltf-poc/src/gltf-writer/polygon-ops.mjs:599-609 | the crossing parameter puts the ray's point on the other line |
| Polygon2d.CrossingOnLine | tools/lt-import-gltf-poc/src/gltf-writer/polygon-ops.mjs:599-609 | the source's numerator over denominator solves the crossing equation |
| Polygon2d.IntersectWhen | tools/lt-import-gltf-poc/src/gltf-writer/polygon-ops.mjs:599-609 | nearly parallel lines give the parallel error when the other origin is on the ray's line and -1 otherwise; other pairs give a parameter whose point lies on the other line |
| Polygon2d.SetAt | tools/lt-import-gltf-poc/src/gltf-writer/polygon-ops.mjs:588-596 | replacing one coordinate sets it and keeps the others |
| Polygon2d.IntersectSegment | tools/lt-import-gltf-poc/src/gltf-writer/polygon-ops.mjs:580-597 | none exactly for nearly parallel lines; otherwise a point on both lines that carries the given value on the third axis |
| Polygon2d.RaySides | tools/lt-import-gltf-poc/src/gltf-writer/polygon-ops.mjs:441-455 | one side result per vertex |
| Polygon2d.PolygonCutByRay2d | tools/lt-import-gltf-poc/src/gltf-writer/polygon-ops.mjs:437-513 | a polygon wholly on the line gives nothing; wholly on the kept side it is returned unchanged; wholly on the other side it is handed over whole when collecting; a straddling polygon gives renderable parts whose vertices are input vertices of that side or points on the line |
| Polygon2d.PolygonCut2d | tools/lt-import-gltf-poc/src/gltf-writer/polygon-ops.mjs:376-396 | with takeInner at most one piece, otherwise at most one piece per cutter edge; an empty cutter keeps the polygon (takeInner) or cuts nothing; every piece is the input or renderable |
| Polygon2d.PolygonIsInside2d | tools/lt-import-gltf-poc/src/gltf-writer/polygon-ops.mjs:398-435 | the loops decide InsideAll: every vertex of the other polygon lies in some fan triangle of the subject |
| Polygon2d.ShortSubjectContainsNothing | tools/lt-import-gltf-poc/src/gltf-writer/polygon-ops.mjs:398-435 | a subject with fewer than three vertices contains no vertex |
| Polygon2d.FirstMatchFrom | tools/lt-import-gltf-poc/src/gltf-writer/polygon-ops.mjs:611-627 | the first index at or after the start whose vertex equals the point in the plane, or the length when there is none |
| Polygon2d.CyclicIndex | tools/lt-import-gltf-poc/src/gltf-writer/polygon-ops.mjs:611-627 | the index a number of steps after the start, wrapping once, stays within the polygon |
| Polygon2d.PolygonEqualsCyclic2d | tools/lt-import-gltf-poc/src/gltf-writer/polygon-ops.mjs:611-627 | the loop decides cyclic equality: same length and equal vertex by vertex after rotating to the first match of the first vertex |
| Polygon2d.CyclicEqualReflexive | tools/lt-import-gltf-poc/src/gltf-writer/polygon-ops.mjs:611-627 | a non-empty polygon is cyclically equal to itself |
| Polygon2d.CyclicEqualNeedsSameLength | tools/lt-import-gltf-poc/src/gltf-writer/polygon-ops.mjs:611-627 | polygons of different lengths are never cyclically equal |
| Polygon2d.PolygonIntersect2d | tools/lt-import-gltf-poc/src/gltf-writer/polygon-ops.mjs:293-374 | true for cyclically equal polygons and whenever either polygon contains all the other's vertices |
| TransformableCache.ToUint32 | tools/lt-import-gltf-poc/src/gltf-writer/transformable-cache.mjs:366-368 | the unsigned 32-bit reading of `>>>`: in range and congruent to the value modulo 2^32 |
| TransformableCache.ToInt32 | tools/lt-import-gltf-poc/src/gltf-writer/transformable-cache.mjs:320 | `\| 0`: a signed 32-bit value with the same low 32 bits |
| TransformableCache.SignExtend16 | tools/lt-import-gltf-poc/src/gltf-writer/transformable-cache.mjs:381-383 | a 16-bit half with bit 15 set becomes negative: in the signed 16-bit range and congruent modulo 2^16 |
| TransformableCache.GetDataShort | tools/lt-import-gltf-poc/src/gltf-writer/transformable-cache.mjs:370-385 | a signed 16-bit delta, 0 when word (index >> 1) + 1 is past the end of the data |
| TransformableCache.PackShorts | tools/lt-import-gltf-poc/src/gltf-writer/transformable-cache.mjs:370-385 | two signed 16-bit deltas fit one signed 32-bit word |
| TransformableCache.GetDataShortReadsPackedPair | tools/lt-import-gltf-poc/src/gltf-writer/transformable-cache.mjs:370-385 | even indices read the high half and odd indices the low half of a packed word, so packing round-trips |
| TransformableCache.CornerOrderIsComplete | tools/lt-import-gltf-poc/src/gltf-writer/transformable-cache.mjs:10-19 | BOX_CORNER_ORDER lists all eight corners, each once |
| TransformableCache.BaseCorner | tools/lt-import-gltf-poc/src/gltf-writer/transformable-cache.mjs:359-364 | each coordinate is the max bound for E, U or S and the min bound otherwise |
| TransformableCache.BaseCorners | tools/lt-import-gltf-poc/src/gltf-writer/transformable-cache.mjs:352-357 | decodeBaseCorners gives one corner per name in BOX_CORNER_ORDER |
| TransformableCache.ReadDelta | tools/lt-import-gltf-poc/src/gltf-writer/transformable-cache.mjs:333-344 | one optional delta: read at the running count of set bits exactly when the bit is set, and the count advances past it |
| TransformableCache.DecodeCorner | tools/lt-import-gltf-poc/src/gltf-writer/transformable-cache.mjs:325-347 | one corner is its base corner plus the three optional deltas, and the running count covers its three bits |
| TransformableCache.DecodeTransformableCorners | tools/lt-import-gltf-poc/src/gltf-writer/transformable-cache.mjs:318-350 | the loop decodes all eight corners as the base corner plus the deltas selected by the indicator bits |
| TransformableCache.DeltasConsumedInOrder | tools/lt-import-gltf-poc/src/gltf-writer/transformable-cache.mjs:318-350 | an earlier set bit reads an earlier delta, so deltas are consumed in bit order |
| TransformableCache.NoCornerBitsKeepBase | tools/lt-import-gltf-poc/src/gltf-writer/transformable-cache.mjs:318-357 | with no corner bit set the decoded corners are the base corners |
| TransformableCache.FaceCorners | tools/lt-import-gltf-poc/src/gltf-writer/transformable-cache.mjs:21-31 | FACE_DEF_BY_FACING gives four corner indices per facing |
| TransformableCache.FaceCornersLieOnTheirSide | tools/lt-import-gltf-poc/src/gltf-writer/transformable-cache.mjs:21-31 | each facing's four corners are distinct and lie on that side, and FACE_DEFS holds each facing once |
| TransformableCache.BaseCornerOnFacePlane | tools/lt-import-gltf-poc/src/gltf-writer/transformable-cache.mjs:359-364 | an undisplaced corner on a side has that side's bound on the facing axis |
| TransformableCache.TriangleKeys | tools/lt-import-gltf-poc/src/gltf-writer/transformable-cache.mjs:145-152 | two triangles of three corners taken from the face |
| TransformableCache.TrianglesSplitAlongDiagonal | tools/lt-import-gltf-poc/src/gltf-writer/transformable-cache.mjs:145-152 | the two triangles cover the face and share exactly the diagonal of corners 0 and 2, or 1 and 3 when flipped |
| TransformableCache.NormalLength | tools/lt-import-gltf-poc/src/gltf-writer/polygon-ops.mjs:45-47 | the length is non-negative and zero exactly for the zero vector |
| TransformableCache.NormalizeVec | tools/lt-import-gltf-poc/src/gltf-writer/polygon-ops.mjs:49-52 | NaN (None) exactly for the zero vector; otherwise a positive multiple of the input |
| TransformableCache.NormalizeUnit | tools/lt-import-gltf-poc/src/gltf-writer/polygon-ops.mjs:49-52 | a unit vector is kept unchanged |
| TransformableCache.NormalizeFacingNormal | tools/lt-import-gltf-poc/src/gltf-writer/polygon-ops.mjs:49-52 | a facing normal is kept unchanged |
| TransformableCache.CreatePlane | tools/lt-import-gltf-poc/src/gltf-writer/polygon-ops.mjs:176-187 | the plane keeps the origin and is invalid exactly for a NaN or zero direction; otherwise its normal points along the direction |
| TransformableCache.PlaneForFacing | tools/lt-import-gltf-poc/src/gltf-writer/transformable-cache.mjs:387-394 | a valid plane with the facing normal through the box bound that facing looks at |
| TransformableCache.NearestFacing | tools/lt-import-gltf-poc/src/gltf-writer/transformable-cache.mjs:455-481 | the loop returns Nearest(normal): DOWN for the zero vector, otherwise the first facing in facing order whose dot product with the normal is the greatest (BestAmong, a strict-maximum scan) |
| TransformableRender.CornerPoints | tools/lt-import-gltf-poc/src/gltf-writer/transformable-cache.mjs:122-123 | the decoded corners as points, one per corner in order |
| TransformableRender.StripPoints | tools/lt-import-gltf-poc/src/gltf-writer/transformable-cache.mjs:424-436 | the first pass of createStrip keeps, in key order, corners no two of which are within EPSILON, and every keyed corner has a kept point within EPSILON |
| TransformableRender.CreateStrip | tools/lt-import-gltf-poc/src/gltf-writer/transformable-cache.mjs:424-439 | the loops produce the simplified first-pass points, or none when nothing renderable is left |
| TransformableRender.CheckEqualAxis | tools/lt-import-gltf-poc/src/gltf-writer/transformable-cache.mjs:416-422 | the loop decides whether every keyed corner keeps its base value on the axis within EPSILON; undisplaced corners always pass |
| TransformableRender.AnyVertexInFront | tools/lt-import-gltf-poc/src/gltf-writer/transformable-cache.mjs:188-196 | the concavity loop finds a vertex of the second strip in front of the first plane exactly when one exists |
| TransformableRender.ClipToBox | tools/lt-import-gltf-poc/src/gltf-writer/transformable-cache.mjs:198-203 | clipping by the six box planes keeps a missing strip missing and leaves only polygons of three or more vertices |
| TransformableRender.TiltStrips | tools/lt-import-gltf-poc/src/gltf-writer/transformable-cache.mjs:159-186 | each plane and strip is the one PlaneOne, PlaneTwo, StripOne and StripTwo define: with parallel triangle normals one strip over the four face corners, else one strip per triangle that left its base position; each plane is made from its triangle normal; a strip whose plane is invalid is dropped |
| TransformableRender.TiltFace | tools/lt-import-gltf-poc/src/gltf-writer/transformable-cache.mjs:143-208 | TiltOf: the face is skipped exactly when both triangles keep their base position on the face axis; otherwise its planes are PlaneOne and PlaneTwo, a kept strip comes from StripOne or StripTwo, and the face is concave exactly when both strips exist and a vertex of the second lies in front of the first plane |
| TransformableRender.FileTiltedStrip | tools/lt-import-gltf-poc/src/gltf-writer/transformable-cache.mjs:210-217 | the strip is appended to the tilted render list of the facing Nearest(plane normal) and nothing else changes |
| TransformableRender.ApplyTilt | tools/lt-import-gltf-poc/src/gltf-writer/transformable-cache.mjs:205-217 | the caches become Tilted(caches, facing, tilt): the face records its tilt, then strip 1 and strip 2 are filed under the facings nearest their planes, in that order |
| TransformableRender.TiltedEffect | tools/lt-import-gltf-poc/src/gltf-writer/transformable-cache.mjs:205-217 | a recorded tilt keeps the face's convexity, strips and planes; strip 2 ends its target's render list and strip 1 is in its own; every other facing is unchanged |
| TransformableRender.FiledEffect | tools/lt-import-gltf-poc/src/gltf-writer/transformable-cache.mjs:210-217 | filing appends the strip to its nearest facing's render list only and changes no other facing |
| TransformableRender.FaceDefCorners | tools/lt-import-gltf-poc/src/gltf-writer/transformable-cache.mjs:21-29 | each FACE_DEFS entry lists four valid corner indices |
| TransformableRender.TiltedPass | tools/lt-import-gltf-poc/src/gltf-writer/transformable-cache.mjs:143-218 | the caches are TiltAll of the initial caches over the six faces of FACE_DEFS, each face's tilt as TiltOf says; with no corner displaced they keep their initial state |
| TransformableRender.TiltAllStep | tools/lt-import-gltf-poc/src/gltf-writer/transformable-cache.mjs:143-218 | one more face of the loop applies its tilt to the caches after the faces before it, or leaves them when the face is skipped |
| TransformableRender.SelectCutPlanes | tools/lt-import-gltf-poc/src/gltf-writer/transformable-cache.mjs:229-245 | both planes unless exactly one strip survives on a convex face, in which case only that strip's plane, in the first slot |
| TransformableRender.CutAxisStripsSingle | tools/lt-import-gltf-poc/src/gltf-writer/transformable-cache.mjs:267-278 | SingleCut: a missing, invalid or facing-parallel plane leaves the strips unchanged; otherwise each strip is clipped as clipPolygonByPlane promises and the surviving clips are kept in strip order |
| TransformableRender.ClipAll | tools/lt-import-gltf-poc/src/gltf-writer/transformable-cache.mjs:271-277 | the loop clips every strip in turn, as clipPolygonByPlane promises, and keeps the surviving clips in order |
| TransformableRender.DualCutPieces | tools/lt-import-gltf-poc/src/gltf-writer/transformable-cache.mjs:293-314 | DualPieces: both clips as clipPolygonByPlane promises; the one clip that exists; with two clips both when they do not overlap, else the second clip followed by pieces of the first (coincident or nested clips overlap) |
| TransformableRender.CutAxisStripsDual | tools/lt-import-gltf-poc/src/gltf-writer/transformable-cache.mjs:280-316 | DualCut: no usable plane leaves the strips unchanged, one usable plane is the single cut by it, and two give every strip's DualPieces in order deduplicated within 1e-4, no two kept pieces equal |
| TransformableRender.DualPiecesAll | tools/lt-import-gltf-poc/src/gltf-writer/transformable-cache.mjs:293-314 | the loop gives each strip's DualPieces in strip order |
| TransformableRender.FullRaw | tools/lt-import-gltf-poc/src/gltf-writer/transformable-cache.mjs:61 | the full rectangle, when createStrip keeps it, is renderable |
| TransformableRender.CutByFace | tools/lt-import-gltf-poc/src/gltf-writer/transformable-cache.mjs:229-260 | FaceCut: a convex source cuts by its first and then its second selected plane, a concave one by the dual cut; a face without cut planes changes nothing |
| TransformableRender.AxisStripsForFacing | tools/lt-import-gltf-poc/src/gltf-writer/transformable-cache.mjs:220-262 | AxisCut: the stages start at the base rectangle, stage i + 1 is the non-empty stage i cut by the i-th facing in facing order with AxisCutEpsilon(f) (1e-7 for DOWN, 5e-4 otherwise), and the loop stops early only once nothing is left |
| TransformableRender.AxisStartStrips | tools/lt-import-gltf-poc/src/gltf-writer/transformable-cache.mjs:223 | the starting axis strips are the base rectangle when createStrip keeps it, else none |
| TransformableRender.CutStage | tools/lt-import-gltf-poc/src/gltf-writer/transformable-cache.mjs:228-260 | one pass of the inner loop extends the stages by one cut of the next facing in facing order |
| TransformableRender.AxisPlanes | tools/lt-import-gltf-poc/src/gltf-writer/transformable-cache.mjs:139-141 | one plane per facing |
| TransformableRender.AxisLoop | tools/lt-import-gltf-poc/src/gltf-writer/transformable-cache.mjs:220-262 | AxisStripsOf: the axis strips of each of the six facings in facing order are those AxisCut describes |
| TransformableRender.AxisPass | tools/lt-import-gltf-poc/src/gltf-writer/transformable-cache.mjs:220-262 | the caches are WithAxisStrips of the tilted caches and strips AxisStripsOf describes: every facing keeps its tilted state; from the initial state each keeps its base rectangle |
| TransformableRender.ComputeTransformableRawFaceCache | tools/lt-import-gltf-poc/src/gltf-writer/transformable-cache.mjs:121-265 | RawCachesOf: the tilted pass over the decoded corners followed by the axis pass; the base corners are the undisplaced corners, and with no displaced corner every facing has only its base rectangle |
| TransformableRender.ScalePolygon | tools/lt-import-gltf-poc/src/gltf-writer/transformable-cache.mjs:64 | scaling keeps the vertex count |
| TransformableRender.RenderPolygons | tools/lt-import-gltf-poc/src/gltf-writer/transformable-cache.mjs:62-67 | exactly the renderable raw polygons, scaled to world units |
| TransformableRender.FaceRenderOf | tools/lt-import-gltf-poc/src/gltf-writer/transformable-cache.mjs:62-81 | completely filled exactly when there is no tilted strip, exactly one raw axis strip, and it equals the full rectangle within 1e-4 |
| TransformableRender.RenderFace | tools/lt-import-gltf-poc/src/gltf-writer/transformable-cache.mjs:59-81 | one facing's rendered face from its full rectangle |
| TransformableRender.RenderFaces | tools/lt-import-gltf-poc/src/gltf-writer/transformable-cache.mjs:58-82 | the rendered faces of all six facings in facing order |
| TransformableRender.BuildRenderCache | tools/lt-import-gltf-poc/src/gltf-writer/transformable-cache.mjs:55-84 | a complete cache holding each facing's rendered face |
| TransformableRender.GetTransformableRenderCache | tools/lt-import-gltf-poc/src/gltf-writer/transformable-cache.mjs:44-86 | an existing memo is returned with the box unchanged; otherwise the cache is stored in the box: six empty faces without transform data, and else each face is FaceRenderSpec of the raw cache RawCachesOf describes, scaled by 1 / grid; with undisplaced corners no tilted polygons and each face filled exactly when its rectangle is renderable |
| TransformableRender.UndisplacedFaceIsFilled | tools/lt-import-gltf-poc/src/gltf-writer/transformable-cache.mjs:58-81 | a face with only its base rectangle has no tilted polygons and is completely filled exactly when the rectangle is renderable |
| FaceCandidateBuilder.BoundsForFace | tools/lt-import-gltf-poc/src/gltf-writer/face-candidate-builder.mjs:96-122 | positive facings have sign +1 and take the box maximum on the face axis, the others -1 and the minimum; the span is the world bounds on the two in-plane axes |
| FaceCandidateBuilder.FaceRectOfBounds | tools/lt-import-gltf-poc/src/gltf-writer/face-candidate-builder.mjs:149-159 | the rectangle lies in the plane through the origin and has the four corners of the span, in one of the source's windings |
| FaceCandidateBuilder.BuildAabbFaceCandidates | tools/lt-import-gltf-poc/src/gltf-writer/face-candidate-builder.mjs:19-44 | six candidates in facing order, each with its side's full rectangle as its one axis polygon and no tilted polygons |
| FaceCandidateBuilder.TransformableCandidate | tools/lt-import-gltf-poc/src/gltf-writer/face-candidate-builder.mjs:46-94 | no candidate for a facing missing from the cache, or for a face neither filled nor with axis strips unless tilted-only faces are allowed; a filled face gets the full rectangle, otherwise the cached axis strips; tilted polygons come from the cache; a candidate renders something |
| FaceCandidateBuilder.TransformableCandidatesInOrder | tools/lt-import-gltf-poc/src/gltf-writer/face-candidate-builder.mjs:46-94 | candidates come in strictly increasing facing order, at most one per facing, each the candidate of its facing |
| FaceCandidateBuilder.TransformableCandidatesComplete | tools/lt-import-gltf-poc/src/gltf-writer/face-candidate-builder.mjs:46-94 | every facing that yields a candidate contributes it |
| FaceCandidateBuilder.TransformablePrefixStep | tools/lt-import-gltf-poc/src/gltf-writer/face-candidate-builder.mjs:61-91 | one step of the facing loop appends the facing's candidate, if any |
| FaceCandidateBuilder.BuildTransformableFaceCandidates | tools/lt-import-gltf-poc/src/gltf-writer/face-candidate-builder.mjs:46-94 | the render cache is fetched and memoised in the box, then every facing contributes its candidate in order |
| FaceCandidateBuilder.BuildFaceCandidatesWithOptions | tools/lt-import-gltf-poc/src/gltf-writer/face-candidate-builder.mjs:13-17 | a transformable box with transform data takes the transformable path; any other box gets the six full rectangles and is unchanged |
| FaceCandidateBuilder.EmptyTransformDataYieldsNothing | tools/lt-import-gltf-poc/src/gltf-writer/face-candidate-builder.mjs:46-94 | the empty render cache yields no candidate |
| OccluderOps.OutsideIffOnBlockBoundary | tools/lt-import-gltf-poc/src/gltf-writer/occluder-ops.mjs:37-46 | for a box inside its block, a face is outside exactly when it lies on the block boundary: the grid size for positive facings, zero otherwise |
| OccluderOps.GetOutsideNeighbourIndex | tools/lt-import-gltf-poc/src/gltf-writer/occluder-ops.mjs:48-56 | one step along the sign from the block that owns the face plane: floor((originRaw - 1) / grid) for positive faces, floor(originRaw / grid) otherwise |
| OccluderOps.FlushBoxMatchesIffOnBlockBoundary | tools/lt-import-gltf-poc/src/gltf-writer/occluder-ops.mjs:48-71 | a box flush against the face is taken as the outside neighbour exactly when the face plane lies on a block boundary |
| OccluderOps.RenderCombinedIsEquivalence | tools/lt-import-gltf-poc/src/gltf-writer/occluder-ops.mjs:77-79 | render-combinability is reflexive, symmetric and transitive |
| OccluderOps.OppositeFacing | tools/lt-import-gltf-poc/src/gltf-writer/occluder-ops.mjs:197-207 | a different facing on the same axis with the other sign and the same in-plane axes |
| OccluderOps.OppositeFacingInvolution | tools/lt-import-gltf-poc/src/gltf-writer/occluder-ops.mjs:197-207 | the opposite of the opposite is the facing itself |
| OccluderOps.EmptyCacheSidesAreNotSolid | tools/lt-import-gltf-poc/src/gltf-writer/occluder-ops.mjs:190-195 | a transformable box with an empty render cache has no solid side |
| OccluderOps.ContactIsSymmetric | tools/lt-import-gltf-poc/src/gltf-writer/occluder-ops.mjs:168-188 | box b touches side f of box a exactly when box a touches the opposite side of box b |
| OccluderOps.ProjectPolygonToFaceAxis | tools/lt-import-gltf-poc/src/gltf-writer/occluder-ops.mjs:156-166 | none exactly for fewer than three vertices; otherwise every vertex moved onto the plane, keeping its other two coordinates |
| OccluderOps.ProjectedCutters | tools/lt-import-gltf-poc/src/gltf-writer/occluder-ops.mjs:112-119 | only projections of strips of three or more vertices, each lying on the face plane |
| OccluderOps.FillAdvancedCutters | tools/lt-import-gltf-poc/src/gltf-writer/occluder-ops.mjs:104-120 | the projected axis strips of the side facing the face for a transformable box, nothing for any other box |
| OccluderOps.CutOne | tools/lt-import-gltf-poc/src/gltf-writer/occluder-ops.mjs:126-146 | one polygon pushes nothing below 3 vertices; itself when nothing is cut away (or the single piece equals it) and the overlap test says no; otherwise the simplified non-degenerate pieces, in order; the recorded cut and overlap outcomes meet polygonCut2d's and polygonIntersect2d's contracts |
| OccluderOps.CutByCutter | tools/lt-import-gltf-poc/src/gltf-writer/occluder-ops.mjs:125-147 | the polygons left by one cutter are the contributions of the inputs in order; an input of 3 or more vertices that nothing was cut from and that does not overlap the cutter is kept as it is; everything left is such an input or a renderable piece |
| OccluderOps.ContributionsKeepUntouched | tools/lt-import-gltf-poc/src/gltf-writer/occluder-ops.mjs:131-134 | an untouched, non-overlapping input is among the contributions |
| OccluderOps.ContributionsShape | tools/lt-import-gltf-poc/src/gltf-writer/occluder-ops.mjs:126-146 | every contribution is an input of 3 or more vertices or a renderable piece |
| OccluderOps.DedupeKeepsInputs | tools/lt-import-gltf-poc/src/gltf-writer/polygon-ops.mjs:109-123 | dedupePolygons keeps only input polygons |
| OccluderOps.CutPolygons2d | tools/lt-import-gltf-poc/src/gltf-writer/occluder-ops.mjs:122-154 | no cutter returns the polygons unchanged; otherwise every polygon left is an input of three or more vertices or a renderable piece, no two are equal within the match epsilon, and the first cutter's outcomes are recorded; with a single cutter the result is the deduplicated contributions, and an input that cutter leaves alone and does not overlap is still there or has an equal one there |
| OccluderOps.ApplyFillFromBox | tools/lt-import-gltf-poc/src/gltf-writer/occluder-ops.mjs:81-102 | a box that does not touch the face leaves the polygons alone; every polygon left is an input or a renderable piece |
| OccluderOps.OccluderBeforeGrows | tools/lt-import-gltf-poc/src/gltf-writer/occluder-ops.mjs:12-35 | an occluder found before a position in tile-then-box order is found before every later position |
| OccluderOps.ApplyOccluders | tools/lt-import-gltf-poc/src/gltf-writer/occluder-ops.mjs:12-35 | every polygon left is an input or a renderable piece; without an eligible occluding box the polygons come back unchanged |
| FaceStateEvaluation.Round | tools/lt-import-gltf-poc/src/gltf-writer/face-state-evaluation.mjs:11 | Math.round: the integer within half a unit, halves rounding up |
| FaceStateEvaluation.Ceil | tools/lt-import-gltf-poc/src/gltf-writer/face-state-evaluation.mjs:21 | Math.ceil: the least integer not below the value |
| FaceStateEvaluation.IntegralCoordsAreExact | tools/lt-import-gltf-poc/src/gltf-writer/face-state-evaluation.mjs:10-44 | on integral values roundRawCoord, cellStartFromRaw, cellEndFromRaw and roundCellSpan are exact |
| FaceStateEvaluation.ClampCellIndex | tools/lt-import-gltf-poc/src/gltf-writer/face-state-evaluation.mjs:24-30 | the value clamped into [0, limit], a value already in range kept |
| FaceStateEvaluation.ConvertRawCoord | tools/lt-import-gltf-poc/src/gltf-writer/face-state-evaluation.mjs:46-57 | the same grid keeps the value; a finer grid that is a multiple scales it exactly |
| FaceStateEvaluation.FaceGridOf | tools/lt-import-gltf-poc/src/gltf-writer/face-state-evaluation.mjs:235-241 | one cell per raw unit of the face's box on each in-plane axis, never negative |
| FaceStateEvaluation.ProjectFaceOverlapToGrid | tools/lt-import-gltf-poc/src/gltf-writer/face-state-evaluation.mjs:312-348 | an overlap only when the box's near side lies on the face plane within the raw epsilon; it lies within the face and is thicker than the raw epsilon on both axes |
| FaceStateEvaluation.BoxContribution | tools/lt-import-gltf-poc/src/gltf-writer/face-state-evaluation.mjs:266-288 | the face's own box and, when restricted, boxes outside the neighbour cell contribute nothing; a filled rectangle lies in the grid and comes from a solid opposite side, a non-solid overlap from a side that is not |
| FaceStateEvaluation.TileContributions | tools/lt-import-gltf-poc/src/gltf-writer/face-state-evaluation.mjs:260-264 | collision-free and ineligible tiles contribute nothing |
| FaceStateEvaluation.ContributionsAppend | tools/lt-import-gltf-poc/src/gltf-writer/face-state-evaluation.mjs:260-300 | the contributions of two runs of tiles are the contributions of each, in order |
| FaceStateEvaluation.CoverageOf | tools/lt-import-gltf-poc/src/gltf-writer/face-state-evaluation.mjs:242-250 | covered fully and partially exclude each other, axis cutting is asked for exactly on partial coverage, a face of zero cells is neither, and full coverage needs a filled cell |
| FaceStateEvaluation.FilledCellsAtMostTotal | tools/lt-import-gltf-poc/src/gltf-writer/face-state-evaluation.mjs:252-298 | the filled count never exceeds the number of cells |
| FaceStateEvaluation.CountTrueMonotone | tools/lt-import-gltf-poc/src/gltf-writer/face-state-evaluation.mjs:290-298 | a bitmap with more cells set has at least as many set |
| FaceStateEvaluation.CountTrueFull | tools/lt-import-gltf-poc/src/gltf-writer/face-state-evaluation.mjs:302 | the count equals the length exactly when every cell is set |
| FaceStateEvaluation.CountTrueNone | tools/lt-import-gltf-poc/src/gltf-writer/face-state-evaluation.mjs:252-253 | a bitmap with no cell set counts zero |
| FaceStateEvaluation.CountTrueSet | tools/lt-import-gltf-poc/src/gltf-writer/face-state-evaluation.mjs:293-296 | setting an unset cell raises the count by one |
| FaceStateEvaluation.CoverBitsMeaning | tools/lt-import-gltf-poc/src/gltf-writer/face-state-evaluation.mjs:290-298 | a bit of the bitmap is set exactly when its cell lies in some filled rectangle |
| FaceStateEvaluation.CoverBitsGrow | tools/lt-import-gltf-poc/src/gltf-writer/face-state-evaluation.mjs:290-298 | more contributions never unset a bit |
| FaceStateEvaluation.MoreTilesNeverLowerCoverage | tools/lt-import-gltf-poc/src/gltf-writer/face-state-evaluation.mjs:260-303 | more neighbour tiles never lower the filled count, and a fully covered face stays fully covered |
| FaceStateEvaluation.CellIndexInRange | tools/lt-import-gltf-poc/src/gltf-writer/face-state-evaluation.mjs:292 | a cell index lies in the bitmap |
| FaceStateEvaluation.CellIndexInverse | tools/lt-import-gltf-poc/src/gltf-writer/face-state-evaluation.mjs:292 | division and remainder recover the row and column of a cell index |
| FaceStateEvaluation.IndexIsCell | tools/lt-import-gltf-poc/src/gltf-writer/face-state-evaluation.mjs:292 | every bitmap index is the index of a cell of the grid |
| FaceStateEvaluation.AllCellsCoveredFillsBits | tools/lt-import-gltf-poc/src/gltf-writer/face-state-evaluation.mjs:290-298 | every cell covered sets every bit |
| FaceStateEvaluation.FullBitsCoverAllCells | tools/lt-import-gltf-poc/src/gltf-writer/face-state-evaluation.mjs:290-298 | every bit set means every cell is covered |
| FaceStateEvaluation.FullBitsIffAllCellsCovered | tools/lt-import-gltf-poc/src/gltf-writer/face-state-evaluation.mjs:302 | the count reaches the total exactly when every cell is covered |
| FaceStateEvaluation.CoveredFullyIffEveryCellCovered | tools/lt-import-gltf-poc/src/gltf-writer/face-state-evaluation.mjs:234-310 | a face is fully covered exactly when it has cells and each lies in the overlap of some solid neighbour side |
| FaceStateEvaluation.MarkStep | tools/lt-import-gltf-poc/src/gltf-writer/face-state-evaluation.mjs:291-297 | marking one more cell of the current row extends the marked prefix of the rectangle |
| FaceStateEvaluation.MarkNextRow | tools/lt-import-gltf-poc/src/gltf-writer/face-state-evaluation.mjs:290-291 | a finished row starts the next one |
| FaceStateEvaluation.MarkDone | tools/lt-import-gltf-poc/src/gltf-writer/face-state-evaluation.mjs:290-298 | the prefix up to the end of the rectangle is the whole rectangle, and the empty prefix is the original bitmap |
| FaceStateEvaluation.FillRect | tools/lt-import-gltf-poc/src/gltf-writer/face-state-evaluation.mjs:290-298 | the nested loops set every cell of the rectangle and nothing else, and return the number of newly set cells |
| FaceStateEvaluation.ContributionsSnoc | tools/lt-import-gltf-poc/src/gltf-writer/face-state-evaluation.mjs:260-300 | one more tile appends its own contributions |
| FaceStateEvaluation.HasNonSolidAppend | tools/lt-import-gltf-poc/src/gltf-writer/face-state-evaluation.mjs:276-279 | a non-solid overlap occurs in two runs exactly when it occurs in one of them |
| FaceStateEvaluation.CoverBitsSnoc | tools/lt-import-gltf-poc/src/gltf-writer/face-state-evaluation.mjs:287-298 | a filled rectangle is marked on the bitmap, anything else leaves it |
| FaceStateEvaluation.CoverTileBoxes | tools/lt-import-gltf-poc/src/gltf-writer/face-state-evaluation.mjs:266-299 | the box loop marks each contributed rectangle, counts the new cells, and notes a non-solid overlap when cutting is not supported |
| FaceStateEvaluation.CoverTile | tools/lt-import-gltf-poc/src/gltf-writer/face-state-evaluation.mjs:260-300 | ineligible tiles are skipped, eligible ones have their boxes marked |
| FaceStateEvaluation.CoverageFromCount | tools/lt-import-gltf-poc/src/gltf-writer/face-state-evaluation.mjs:302-309 | the result built from the final count and flag is the specified coverage |
| FaceStateEvaluation.ComputeFaceCoverage | tools/lt-import-gltf-poc/src/gltf-writer/face-state-evaluation.mjs:234-310 | the loops compute the specified coverage |
| FaceStateEvaluation.StateLabel | tools/lt-import-gltf-poc/src/gltf-writer/face-state-evaluation.mjs:73-202 | every state has a non-empty report name |
| FaceStateEvaluation.EvaluateFaceState | tools/lt-import-gltf-poc/src/gltf-writer/face-state-evaluation.mjs:65-88 | the face's state is the specified classification |
| FaceStateEvaluation.FaceStateConsistent | tools/lt-import-gltf-poc/src/gltf-writer/face-state-evaluation.mjs:65-232 | renderable exactly when loaded and not fully covered; fully and partially covered match the covered states; axis cutting only for partial coverage; inside and outside states match the face's position |
| FaceStateEvaluation.UnloadedIffNothingRenderable | tools/lt-import-gltf-poc/src/gltf-writer/face-state-evaluation.mjs:65-76 | UNLOADED exactly when neither polygon list has a renderable polygon |
| FaceStateEvaluation.ClientTiltedOnlyIgnoresNeighbours | tools/lt-import-gltf-poc/src/gltf-writer/face-state-evaluation.mjs:90-123 | in client mode a face with only tilted polygons is uncovered and renderable whatever the neighbours and profile |
| FaceStateEvaluation.OutsideWithoutOcclusionIsUncovered | tools/lt-import-gltf-poc/src/gltf-writer/face-state-evaluation.mjs:167-232 | an outside face of a tile that does not cull over edges, or under a profile that does not occlude outside faces, is OUTSIDE_UNCOVERED whatever the neighbours |
| FaceStateEvaluation.InsideCoveredIffEveryCellCovered | tools/lt-import-gltf-poc/src/gltf-writer/face-state-evaluation.mjs:125-165 | a loaded inside face is INSIDE_COVERED exactly when every cell is covered by a solid neighbour side |
| TileNormalization.ColorOf | tools/lt-import-gltf-poc/src/gltf-writer/tile-normalization.mjs:12 | an integral colour is kept, anything else becomes -1 |
| TileNormalization.TileOfBox | tools/lt-import-gltf-poc/src/gltf-writer/tile-normalization.mjs:10-16 | a flat box becomes a one-box tile with its own block state (air when missing), colour, structure and grid |
| TileNormalization.RawTilesOf | tools/lt-import-gltf-poc/src/gltf-writer/tile-normalization.mjs:7-17 | the tile list of an object input, one single-box tile per element of a bare list, nothing otherwise |
| TileNormalization.FirstBoxGrid | tools/lt-import-gltf-poc/src/gltf-writer/tile-normalization.mjs:84-88 | a box grid is found exactly when some box has a positive integral grid |
| TileNormalization.FirstBoxGridIsFirst | tools/lt-import-gltf-poc/src/gltf-writer/tile-normalization.mjs:84-88 | the grid found is that of the first box with a positive integral grid |
| TileNormalization.ToGridCount | tools/lt-import-gltf-poc/src/gltf-writer/tile-normalization.mjs:79-95 | the first positive integer among the grid, the boxes' grids in order and the fallback, else 16; a positive integral grid of its own wins |
| TileNormalization.GridPreferenceOwnGridWins | tools/lt-import-gltf-poc/src/gltf-writer/tile-normalization.mjs:80-82 | a positive integral grid is returned as it is |
| TileNormalization.GridPreferenceDefault | tools/lt-import-gltf-poc/src/gltf-writer/tile-normalization.mjs:94 | with no usable grid anywhere the result is 16 |
| TileNormalization.WorldBoundScales | tools/lt-import-gltf-poc/src/gltf-writer/tile-normalization.mjs:97-107 | a world bound times the grid is the raw bound, and a raw bound within the grid lies in the unit block |
| TileNormalization.BlockStateName | tools/lt-import-gltf-poc/src/gltf-writer/tile-normalization.mjs:115-120 | blockStateName never lengthens the state |
| TileNormalization.BlockStateNameSpec | tools/lt-import-gltf-poc/src/gltf-writer/tile-normalization.mjs:115-120 | the longest prefix without '[': the whole state when it has none, else up to the first '[' |
| TileNormalization.CanonicalBlockId | tools/lt-import-gltf-poc/src/gltf-writer/tile-normalization.mjs:122-127 | canonicalBlockId never lengthens the state |
| TileNormalization.CanonicalBlockIdSpec | tools/lt-import-gltf-poc/src/gltf-writer/tile-normalization.mjs:122-127 | no '[' and no leading white space; a prefix of the trimmed name, and all of it unless it ends in a metadata suffix |
| TileNormalization.CanonicalBlockIdDropsMeta | tools/lt-import-gltf-poc/src/gltf-writer/tile-normalization.mjs:124-125 | a legacy id namespace:path:meta becomes namespace:path |
| TileNormalization.MetaName | tools/lt-import-gltf-poc/src/gltf-writer/tile-normalization.mjs:124 | a legacy id matches the metadata pattern, and its last ':' is the one before the metadata |
| TileNormalization.CanonicalBlockIdOfMetaName | tools/lt-import-gltf-poc/src/gltf-writer/tile-normalization.mjs:124-125 | with a metadata suffix the canonical id is the trimmed name up to its last ':' |
| TileNormalization.CanonicalBlockIdPlain | tools/lt-import-gltf-poc/src/gltf-writer/tile-normalization.mjs:122-127 | a state without ':' or '[' becomes its own trim |
| TileNormalization.NormalizeStructureId | tools/lt-import-gltf-poc/src/gltf-writer/tile-normalization.mjs:129-136 | a missing or blank id is no structure; otherwise the id is non-empty and trimmed |
| TileNormalization.PathTokens | tools/lt-import-gltf-poc/src/gltf-writer/tile-normalization.mjs:186-189 | at least one token |
| TileNormalization.PathTokensAvoidSeparators | tools/lt-import-gltf-poc/src/gltf-writer/tile-normalization.mjs:186-189 | no token holds one of the separators _ . / - |
| TileNormalization.PathTokensOfPlainId | tools/lt-import-gltf-poc/src/gltf-writer/tile-normalization.mjs:186-189 | an id namespace:path whose path has no separator has that path as its only token |
| TileNormalization.ColorTransparency | tools/lt-import-gltf-poc/src/gltf-writer/tile-normalization.mjs:191-193 | the missing colour -1 is opaque, and a colour is transparent exactly when its unsigned value is below 0xFF000000 |
| TileNormalization.OverrideEntry | tools/lt-import-gltf-poc/src/gltf-writer/tile-normalization.mjs:167 | the entry of an object is its field under the block id; values that are neither objects nor arrays have none |
| TileNormalization.BoolField | tools/lt-import-gltf-poc/src/gltf-writer/tile-normalization.mjs:172-175 | a field is taken exactly when the entry is an object whose field is a boolean |
| TileNormalization.ResolveBehaviorOverride | tools/lt-import-gltf-poc/src/gltf-writer/tile-normalization.mjs:164-177 | no overrides give none, and an override sets at least one field |
| TileNormalization.ResolveBehaviorOverrideSource | tools/lt-import-gltf-poc/src/gltf-writer/tile-normalization.mjs:164-177 | an override comes from an object entry for the block id and holds its boolean fields |
| TileNormalization.ResolveBehaviorOverrideTaken | tools/lt-import-gltf-poc/src/gltf-writer/tile-normalization.mjs:171-176 | an object entry with a boolean providesSolidFace or cullOverEdge field always gives an override |
| TileNormalization.InferStandaloneBlockBehaviorSpec | tools/lt-import-gltf-poc/src/gltf-writer/tile-normalization.mjs:138-162 | each field the override sets wins; otherwise solid exactly when neither translucent nor transparent, and cull-over-edge exactly when not leaves |
| TileNormalization.GlassIsNotSolid | tools/lt-import-gltf-poc/src/gltf-writer/tile-normalization.mjs:138-157 | without overrides glass never provides a solid face |
| TileNormalization.NormalizedBox | tools/lt-import-gltf-poc/src/gltf-writer/tile-normalization.mjs:49-69 | the box carries the id it is given |
| TileNormalization.NormalizedBoxFields | tools/lt-import-gltf-poc/src/gltf-writer/tile-normalization.mjs:46-69 | kind, bounds and transform data copied, the tile's block state and colour, the grid preference with the tile grid as fallback, world bounds the raw bounds over the grid, and no cache |
| TileNormalization.NormalizeBox | tools/lt-import-gltf-poc/src/gltf-writer/tile-normalization.mjs:47-69 | one box of the inner loop is the normalised box |
| TileNormalization.BoxGridInheritance | tools/lt-import-gltf-poc/src/gltf-writer/tile-normalization.mjs:47 | a box inherits the tile grid exactly when it has no positive integral grid of its own |
| TileNormalization.TileHeader | tools/lt-import-gltf-poc/src/gltf-writer/tile-normalization.mjs:33-44 | the tile carries its id and starts without boxes |
| TileNormalization.TileHeaderFields | tools/lt-import-gltf-poc/src/gltf-writer/tile-normalization.mjs:27-44 | block state (air when missing), its canonical id, the colour rule, the trimmed structure id and its noclip flag, the grid preference, and the inferred behaviour |
| TileNormalization.NormalizedBoxes | tools/lt-import-gltf-poc/src/gltf-writer/tile-normalization.mjs:46-70 | one normalised box per raw box, numbered on from the first id |
| TileNormalization.TileContent | tools/lt-import-gltf-poc/src/gltf-writer/tile-normalization.mjs:33-70 | one box per raw box |
| TileNormalization.Contents | tools/lt-import-gltf-poc/src/gltf-writer/tile-normalization.mjs:23-25 | only tiles with boxes |
| TileNormalization.NumberTile | tools/lt-import-gltf-poc/src/gltf-writer/tile-normalization.mjs:33-69 | the tile gets its id and its boxes consecutive ids from the first box id, nothing else changes |
| TileNormalization.NumberAll | tools/lt-import-gltf-poc/src/gltf-writer/tile-normalization.mjs:20-21 | one numbered tile per tile, each keeping its box count |
| TileNormalization.NormalizeTileBoxes | tools/lt-import-gltf-poc/src/gltf-writer/tile-normalization.mjs:46-70 | the inner loop builds the numbered boxes and advances the box counter by their number |
| TileNormalization.NumberedContent | tools/lt-import-gltf-poc/src/gltf-writer/tile-normalization.mjs:33-70 | the tile built with given counters is the numbered content of the raw tile |
| TileNormalization.ContentsSnoc | tools/lt-import-gltf-poc/src/gltf-writer/tile-normalization.mjs:23-25 | a raw tile with boxes appends its content, one without appends nothing |
| TileNormalization.NormalizeAllSnoc | tools/lt-import-gltf-poc/src/gltf-writer/tile-normalization.mjs:23-74 | one more raw tile appends its content numbered after the tiles before it, or nothing when it has no boxes, and the box total grows by its box count |
| TileNormalization.NormalizeTile | tools/lt-import-gltf-poc/src/gltf-writer/tile-normalization.mjs:27-73 | one tile of the loop is the numbered content, and the box counter advances by its box count |
| TileNormalization.NormalizeTilesForRendering | tools/lt-import-gltf-poc/src/gltf-writer/tile-normalization.mjs:6-77 | the loop computes the specified normalisation |
| TileNormalization.TotalBoxesSnoc | tools/lt-import-gltf-poc/src/gltf-writer/tile-normalization.mjs:21 | the box total of one more tile grows by its box count |
| TileNormalization.WellNumberedSnoc | tools/lt-import-gltf-poc/src/gltf-writer/tile-normalization.mjs:19-74 | appending a tile numbered after the others keeps the numbering consecutive |
| TileNormalization.NumberAllWellNumbered | tools/lt-import-gltf-poc/src/gltf-writer/tile-normalization.mjs:20-21 | numbering tiles with boxes numbers tiles and boxes consecutively from 0 and keeps the box total |
| TileNormalization.NormalizeAllWellNumbered | tools/lt-import-gltf-poc/src/gltf-writer/tile-normalization.mjs:19-74 | tiles are numbered 0, 1, ... and boxes consecutively from 0 across all tiles |
| TileNormalization.NormalizeAllCounts | tools/lt-import-gltf-poc/src/gltf-writer/tile-normalization.mjs:23-74 | one tile per raw tile with boxes and one box per raw box |
| TileNormalization.FlatBoxesOneTileEach | tools/lt-import-gltf-poc/src/gltf-writer/tile-normalization.mjs:9-16 | a bare box list gives one single-box tile per box, box i having id i |
| TileNormalization.SingleBoxNumbering | tools/lt-import-gltf-poc/src/gltf-writer/tile-normalization.mjs:50 | numbering single-box tiles gives box i the id i |
| Json.ToNumber | tools/lt-import-gltf-poc/src/gltf-writer/tile-normalization.mjs:80-81 | Number(value): a number is itself, an object or a missing value is NaN (None) |
| Json.StringToNumberOfDigits | tools/lt-import-gltf-poc/src/gltf-writer/tile-normalization.mjs:80 | `Number()` of a string of decimal digits is its decimal value |
| Json.StringToNumberZeroFraction | tools/lt-import-gltf-poc/src/parity/io.mjs:6 | `Number()` of a whole number written with `.0` is that number |
| Json.StringToNumberExponent | tools/lt-import-gltf-poc/src/parity/io.mjs:6 | `Number()` of `n e k` is n times ten to the k |
| Json.StringToNumberNegative | tools/lt-import-gltf-poc/src/parity/io.mjs:6 | `Number()` of `-` and a whole number is its negation |
| Json.StringToNumberSpellings | tools/lt-import-gltf-poc/src/parity/io.mjs:6 | `1e3` is 1000, `10.0` is 10, `0x10` is 16; `Infinity` (taken as NaN), `1e` and `.` are not numbers |
| Strings.TrimSpec | tools/lt-import-gltf-poc/src/gltf-writer/tile-normalization.mjs:129-136 | String.prototype.trim: the result is the infix after the leading white space, neither starts nor ends with white space, and only white space follows it |
| Strings.TrimIdempotent | tools/lt-import-gltf-poc/src/gltf-writer/tile-normalization.mjs:132 | trimming twice is trimming once |
| Strings.SplitAnyPiecesAvoidSeparators | tools/lt-import-gltf-poc/src/gltf-writer/tile-normalization.mjs:188 | no piece of a split holds a separator |
| Strings.SplitJoin | tools/lt-import-gltf-poc/src/gltf-writer/tile-normalization.mjs:187 | splitting a join of pieces free of the separator gives the pieces back |
| Strings.JoinSplit | tools/lt-import-gltf-poc/src/gltf-writer/tile-normalization.mjs:187 | joining the pieces of a split gives the string back |
| PostprocessFaces.ResolveGeometryMode | tools/lt-import-gltf-poc/src/gltf-writer/postprocess-faces.mjs:7-14 | a missing geometryMode option resolves to client |
| PostprocessFaces.ServerModeIff | tools/lt-import-gltf-poc/src/gltf-writer/postprocess-faces.mjs:7-14 | the mode is server exactly when the option is a string that reads "server" once trimmed and lower-cased; every other value resolves to client |
| PostprocessFaces.ResolveOptimizeFaces | tools/lt-import-gltf-poc/src/gltf-writer/postprocess-faces.mjs:16-20 | optimisation is on exactly when the option is the boolean true |
| PostprocessFaces.QuantizeCoordNearest | tools/lt-import-gltf-poc/src/gltf-writer/postprocess-faces.mjs:165-173 | a quantised coordinate is the nearest micro-unit, halves rounding up (Math.round of value times 1e6) |
| PostprocessFaces.InsertPointSpec | tools/lt-import-gltf-poc/src/gltf-writer/postprocess-faces.mjs:161 | inserting a point into a sorted point list keeps it sorted and adds exactly that point |
| PostprocessFaces.SortPointsSpec | tools/lt-import-gltf-poc/src/gltf-writer/postprocess-faces.mjs:161 | sorting the quantised points gives a sorted permutation of them |
| PostprocessFaces.SortedUnique | tools/lt-import-gltf-poc/src/gltf-writer/postprocess-faces.mjs:161 | two sorted lists holding the same points are equal, so the sorted key does not depend on the input order |
| PostprocessFaces.PolygonKeyIff | tools/lt-import-gltf-poc/src/gltf-writer/postprocess-faces.mjs:146-163 | two polygons have the same normalised key exactly when they have the same multiset of quantised vertices |
| PostprocessFaces.PolygonKeyRotation | tools/lt-import-gltf-poc/src/gltf-writer/postprocess-faces.mjs:146-163 | rotating a polygon's vertex list does not change its key |
| PostprocessFaces.DedupeExactFaces | tools/lt-import-gltf-poc/src/gltf-writer/postprocess-faces.mjs:62-81 | the loop with its seen-key set returns the first face of each dedupe key, in input order (Deduped) |
| PostprocessFaces.DedupedSubsequence | tools/lt-import-gltf-poc/src/gltf-writer/postprocess-faces.mjs:62-81 | de-duplication keeps a subsequence of the input, in order |
| PostprocessFaces.DedupedKeys | tools/lt-import-gltf-poc/src/gltf-writer/postprocess-faces.mjs:62-81 | de-duplication keeps every key of the input and adds none |
| PostprocessFaces.DedupedDistinct | tools/lt-import-gltf-poc/src/gltf-writer/postprocess-faces.mjs:74-77 | no two kept faces share a dedupe key |
| PostprocessFaces.DedupedKeepsFirst | tools/lt-import-gltf-poc/src/gltf-writer/postprocess-faces.mjs:74-77 | the first face carrying a key is kept |
| PostprocessFaces.DedupedDistinctUnchanged | tools/lt-import-gltf-poc/src/gltf-writer/postprocess-faces.mjs:62-81 | a face list whose keys are already distinct comes back unchanged |
| PostprocessFaces.DedupedIdempotent | tools/lt-import-gltf-poc/src/gltf-writer/postprocess-faces.mjs:62-81 | de-duplicating twice is de-duplicating once |
| PostprocessFaces.SlotIndicesSpec | tools/lt-import-gltf-poc/src/gltf-writer/postprocess-faces.mjs:85-114 | a facing list of a bucket holds, in ascending order, indices of eligible faces of that bucket and facing |
| PostprocessFaces.RankIsPosition | tools/lt-import-gltf-poc/src/gltf-writer/postprocess-faces.mjs:113 | an eligible face sits in its facing list at the position given by the number of earlier faces of the same bucket and facing |
| PostprocessFaces.PositionIsRank | tools/lt-import-gltf-poc/src/gltf-writer/postprocess-faces.mjs:113 | the face at position r of a facing list has r such faces before it |
| PostprocessFaces.PairOffRemovesFirstMin | tools/lt-import-gltf-poc/src/gltf-writer/postprocess-faces.mjs:128-136 | the face at position r of a facing list is removed exactly when the opposite list holds more than r faces, so the first min(a, b) of each side go |
| PostprocessFaces.PairOffSlot | tools/lt-import-gltf-poc/src/gltf-writer/postprocess-faces.mjs:128-136 | the entries pairOffFacing takes from one list are exactly the removed faces of that list |
| PostprocessFaces.CollectSeamBuckets | tools/lt-import-gltf-poc/src/gltf-writer/postprocess-faces.mjs:84-114 | after bucketing, every eligible face (translucent, axis) has a bucket, and every bucket's six lists are the indices of its faces per facing |
| PostprocessFaces.BucketStep | tools/lt-import-gltf-poc/src/gltf-writer/postprocess-faces.mjs:101-113 | adding an eligible face appends its index to its bucket's list for its facing and keeps every bucket exact |
| PostprocessFaces.BucketSkip | tools/lt-import-gltf-poc/src/gltf-writer/postprocess-faces.mjs:87-90 | a solid or tilted face leaves the buckets unchanged |
| PostprocessFaces.PairOffFacing | tools/lt-import-gltf-poc/src/gltf-writer/postprocess-faces.mjs:128-136 | pairing off two lists adds the first min(a, b) entries of each to the removed set |
| PostprocessFaces.RemovedWithKeySplit | tools/lt-import-gltf-poc/src/gltf-writer/postprocess-faces.mjs:116-121 | a bucket's removed faces are the union of the removed faces of its six facing lists |
| PostprocessFaces.PairOffBucket | tools/lt-import-gltf-poc/src/gltf-writer/postprocess-faces.mjs:117-121 | pairing UP/DOWN, NORTH/SOUTH and WEST/EAST adds exactly the bucket's removed faces |
| PostprocessFaces.RemovedIndices | tools/lt-import-gltf-poc/src/gltf-writer/postprocess-faces.mjs:116-121 | the removed set holds exactly the indices the rank rule removes |
| PostprocessFaces.RemoveTransparentCoplanarSeams | tools/lt-import-gltf-poc/src/gltf-writer/postprocess-faces.mjs:83-126 | the result is the input without the removed faces, in order; with nothing removed it is the input itself |
| PostprocessFaces.SeamFilteredNoneRemoved | tools/lt-import-gltf-poc/src/gltf-writer/postprocess-faces.mjs:123-124 | when no face is removed, filtering gives back the input |
| PostprocessFaces.SeamFilteredKeepsIneligible | tools/lt-import-gltf-poc/src/gltf-writer/postprocess-faces.mjs:87-90 | a solid or tilted face is never removed |
| PostprocessFaces.WithoutSeamsSpec | tools/lt-import-gltf-poc/src/gltf-writer/postprocess-faces.mjs:125 | seam removal keeps a subsequence of its input and keeps every solid or tilted face |
| PostprocessFaces.ApplyGeometryModePipeline | tools/lt-import-gltf-poc/src/gltf-writer/postprocess-faces.mjs:22-60 | mode and optimize are resolved from the options; outside optimised client mode the faces pass unchanged with no passes; otherwise they are de-duplicated then seam-filtered, with two passes; counts add up, every pass removes before minus after, and the output is a subsequence of the input |
| FaceCandidates.ResolveEvaluateInternalOcclusion | tools/lt-import-gltf-poc/src/gltf-writer/face-candidates.mjs:26-28 | internal occlusion is off exactly when the option is the boolean false |
| FaceCandidates.ProfileOf | tools/lt-import-gltf-poc/src/gltf-writer/face-candidates.mjs:30-32 | a missing or null profile option becomes null; any other value is passed through unchanged |
| FaceCandidates.ProfileFlags | tools/lt-import-gltf-poc/src/gltf-writer/face-candidates.mjs:30-32 | a null profile sets none of the three face-state switches |
| FaceCandidates.ResolveCandidateBuildOptions | tools/lt-import-gltf-poc/src/gltf-writer/face-candidates.mjs:34-39 | the built options allow tilted-only transformable faces exactly when the resolved geometry mode is client |
| FaceCandidates.AllowTiltedOnlyFollowsMode | tools/lt-import-gltf-poc/src/gltf-writer/face-candidates.mjs:109 | without a candidateBuildOptions option, the builder allows tilted-only faces exactly in client mode |
| FaceCandidates.EvaluateFaceCandidateRenderability | tools/lt-import-gltf-poc/src/gltf-writer/face-candidates.mjs:137-166 | the method returns the renderability record of the candidate |
| FaceCandidates.RenderabilityIff | tools/lt-import-gltf-poc/src/gltf-writer/face-candidates.mjs:137-166 | with occlusion a record exists exactly when the evaluated face state is renderable, and without it exactly when an axis or tilted polygon is renderable; the side is isOutsideFace of the face, and a face state is present exactly when occlusion is on |
| FaceCandidates.RenderableCandidateHasPolygon | tools/lt-import-gltf-poc/src/gltf-writer/face-candidates.mjs:145-160 | every candidate that gets a record has a renderable axis or tilted polygon |
| FaceCandidates.PrimedBoxReady | tools/lt-import-gltf-poc/src/gltf-writer/face-candidates.mjs:113 | a primed box has its render cache, and a box that already had one is unchanged |
| FaceCandidates.PrimeTile | tools/lt-import-gltf-poc/src/gltf-writer/face-candidates.mjs:111-113 | every box of the tile is primed in place of the lazy cache lookup, and nothing else of the tile changes |
| FaceCandidates.PrimeRenderCaches | tools/lt-import-gltf-poc/src/gltf-writer/face-candidates.mjs:111-113 | every tile is primed, in order |
| FaceCandidates.IterateFaces | tools/lt-import-gltf-poc/src/gltf-writer/face-candidates.mjs:113-132 | the records for one box are those of its renderable candidates, in candidate order |
| FaceCandidates.BuildBoxCandidates | tools/lt-import-gltf-poc/src/gltf-writer/face-candidates.mjs:113 | a ready box yields the transformable candidates in facing order, or the six AABB candidates |
| FaceCandidates.IterateBoxes | tools/lt-import-gltf-poc/src/gltf-writer/face-candidates.mjs:112-133 | the records for one tile are those of its boxes, box by box |
| FaceCandidates.PrimedTilesReady | tools/lt-import-gltf-poc/src/gltf-writer/face-candidates.mjs:111-113 | after priming every box of every tile has its render cache |
| FaceCandidates.IterateTiles | tools/lt-import-gltf-poc/src/gltf-writer/face-candidates.mjs:111-134 | the records for the scene are those of its tiles, tile by tile |
| FaceCandidates.IterateRenderableFaceCandidates | tools/lt-import-gltf-poc/src/gltf-writer/face-candidates.mjs:105-135 | the tiles are primed and the records are those of every tile, box and candidate in order under the resolved settings |
| FaceCandidates.FaceResultsMember | tools/lt-import-gltf-poc/src/gltf-writer/face-candidates.mjs:113-131 | a record is yielded for a box exactly when one of its candidates yields it |
| FaceCandidates.BoxResultsMember | tools/lt-import-gltf-poc/src/gltf-writer/face-candidates.mjs:112-133 | a record is yielded for a tile exactly when one of its boxes yields it |
| FaceCandidates.TilesResultsMember | tools/lt-import-gltf-poc/src/gltf-writer/face-candidates.mjs:111-134 | a record is yielded for the scene exactly when one of its tiles yields it |
| FaceCandidates.YieldedFromCandidate | tools/lt-import-gltf-poc/src/gltf-writer/face-candidates.mjs:111-131 | every record names a tile of the scene, a box of that tile and a candidate built for that box, and is exactly what that candidate yields |
| FaceCandidates.RenderableCandidateYielded | tools/lt-import-gltf-poc/src/gltf-writer/face-candidates.mjs:111-131 | every candidate of every box that has a renderability record is yielded |
| FaceCandidates.YieldedRecordFields | tools/lt-import-gltf-poc/src/gltf-writer/face-candidates.mjs:125-131 | a record carries its own tile and box; its side is isOutsideFace; with occlusion its face state is the renderable evaluated one, without it there is none and a polygon is renderable |
| FaceCandidates.CandidateOwner | tools/lt-import-gltf-poc/src/gltf-writer/face-candidates.mjs:113 | every candidate built for a box names that tile and box |
| FaceCandidates.FaceResultsAppend | tools/lt-import-gltf-poc/src/gltf-writer/face-candidates.mjs:113-132 | records of candidates one after another come in that order |
| FaceCandidates.BoxResultsAppend | tools/lt-import-gltf-poc/src/gltf-writer/face-candidates.mjs:112-133 | records of boxes one after another come in that order |
| FaceCandidates.TilesResultsAppend | tools/lt-import-gltf-poc/src/gltf-writer/face-candidates.mjs:111-134 | records of tiles one after another come in that order |
| FaceCandidates.VisibleFacesSettings | tools/lt-import-gltf-poc/src/gltf-writer/face-candidates.mjs:41-51 | the candidates of buildVisibleFaces are evaluated with the caller's occlusion switch and profile, tilted-only faces follow the caller's mode, and the evaluator always sees client mode because no mode is forwarded |
| FaceCandidates.EmitPolysSpec | tools/lt-import-gltf-poc/src/gltf-writer/face-candidates.mjs:69-83 | a face is emitted for a polygon list exactly when it is the face of a polygon of three or more vertices that is not degenerate; no more faces than polygons |
| FaceCandidates.EmitPolysType | tools/lt-import-gltf-poc/src/gltf-writer/face-candidates.mjs:79 | every face emitted from one list has that list's face type |
| FaceCandidates.CandidateFacesSpec | tools/lt-import-gltf-poc/src/gltf-writer/face-candidates.mjs:69-99 | the axis faces of a record come before its tilted faces; every face carries the tile's block state, id, colour and solidity, the box kind, the facing and the side, and its vertices are a renderable visible-axis or tilted polygon |
| FaceCandidates.AllFacesUncut | tools/lt-import-gltf-poc/src/gltf-writer/face-candidates.mjs:52-99 | when no axis polygon is cut, the faces are those of the records with their polygons as built |
| FaceCandidates.VisibleAxisPolys | tools/lt-import-gltf-poc/src/gltf-writer/face-candidates.mjs:52-67 | the visible axis polygons are the record's own unless occlusion is on, the axis list is non-empty, the face needs axis cutting and the side allows it, or when no box occludes the face; otherwise each is an axis polygon or a renderable piece |
| FaceCandidates.PushFaces | tools/lt-import-gltf-poc/src/gltf-writer/face-candidates.mjs:69-83 | the loop emits exactly the faces of the renderable polygons, in order |
| FaceCandidates.EmitRecords | tools/lt-import-gltf-poc/src/gltf-writer/face-candidates.mjs:52-100 | the faces are those of each record in turn, with a visible axis list per record that meets the occluder rule |
| FaceCandidates.BuildVisibleFaces | tools/lt-import-gltf-poc/src/gltf-writer/face-candidates.mjs:41-103 | the tiles are primed; the faces are those of the records iterateRenderableFaceCandidates yields under the inner options, record by record, with each record's axis polygons cut as the occluder rule allows |
| FaceCandidates.NoOcclusionNoCut | tools/lt-import-gltf-poc/src/gltf-writer/face-candidates.mjs:54-58 | with internal occlusion off no axis polygon is cut |
| RuntimeProfile.LookupProfile | tools/lt-import-gltf-poc/src/gltf-writer/runtime-face-behavior-profile.mjs:29-32 | an id is found exactly when some table entry carries it |
| RuntimeProfile.CurrentMatchers | tools/lt-import-gltf-poc/src/gltf-writer/runtime-face-behavior-profile.mjs:1-13 | the current profile matches exactly the runtimes whose Minecraft version text starts with 1.21. and whose LittleTiles version text starts with 1.6. |
| RuntimeProfile.DefaultMatchersMatchAll | tools/lt-import-gltf-poc/src/gltf-writer/runtime-face-behavior-profile.mjs:15-20 | the default profile's null prefixes match every runtime |
| RuntimeProfile.FirstMatchSpec | tools/lt-import-gltf-poc/src/gltf-writer/runtime-face-behavior-profile.mjs:61-67 | the default id comes back exactly when no non-default entry matches; otherwise the id is that of a matching entry with no matching non-default entry before it |
| RuntimeProfile.ResolveRuntimeProfileId | tools/lt-import-gltf-poc/src/gltf-writer/runtime-face-behavior-profile.mjs:53-68 | the loop returns the resolved id: the trimmed explicit id, else default without a runtime object, else the first match |
| RuntimeProfile.ExplicitIdWins | tools/lt-import-gltf-poc/src/gltf-writer/runtime-face-behavior-profile.mjs:54-55 | a non-blank runtimeProfile string, trimmed, is the id, and it is not empty |
| RuntimeProfile.ProfileIdFromRuntime | tools/lt-import-gltf-poc/src/gltf-writer/runtime-face-behavior-profile.mjs:57-93 | without an explicit id the id is the current profile's exactly when a runtime object matches its prefixes, and default otherwise |
| RuntimeProfile.Merged | tools/lt-import-gltf-poc/src/gltf-writer/runtime-face-behavior-profile.mjs:102-104 | a source that is not a plain object leaves the target unchanged; otherwise the keys are those of both |
| RuntimeProfile.MergedKeys | tools/lt-import-gltf-poc/src/gltf-writer/runtime-face-behavior-profile.mjs:106-124 | a key the source does not name keeps its value, a scalar or array from the source replaces it, and a nested object is merged into the previous object or into an empty one |
| RuntimeProfile.MergeObjectAt | tools/lt-import-gltf-poc/src/gltf-writer/runtime-face-behavior-profile.mjs:107-123 | every key of the source is in the result, with the value merged over the target's |
| RuntimeProfile.MergeIntoEmptyCopies | tools/lt-import-gltf-poc/src/gltf-writer/runtime-face-behavior-profile.mjs:102-125 | merging an object into an empty object copies it at every depth |
| RuntimeProfile.MergeIdempotent | tools/lt-import-gltf-poc/src/gltf-writer/runtime-face-behavior-profile.mjs:102-125 | merging the same source twice gives the same result as merging it once |
| RuntimeProfile.MergeInto | tools/lt-import-gltf-poc/src/gltf-writer/runtime-face-behavior-profile.mjs:102-125 | the loop over the source's entries, recursing into nested objects, builds the merged object |
| RuntimeProfile.PartialMergeStep | tools/lt-import-gltf-poc/src/gltf-writer/runtime-face-behavior-profile.mjs:107-123 | each loop step merges exactly one more key, and after the last key the result is the full merge |
| RuntimeProfile.DeepMerge | tools/lt-import-gltf-poc/src/gltf-writer/runtime-face-behavior-profile.mjs:95-100 | the sources are merged one after another into an empty object |
| RuntimeProfile.ResolveRuntimeFaceBehaviorProfile | tools/lt-import-gltf-poc/src/gltf-writer/runtime-face-behavior-profile.mjs:38-51 | the result is the merge of the default, the base for the resolved id, the overrides and the explicit profile, with profileId set to the id |
| RuntimeProfile.ResolvedProfileId | tools/lt-import-gltf-poc/src/gltf-writer/runtime-face-behavior-profile.mjs:49 | profileId reports the resolved id, even one the table does not hold |
| RuntimeProfile.DeepMergedPrefix | tools/lt-import-gltf-poc/src/gltf-writer/runtime-face-behavior-profile.mjs:95-100 | four sources merge left to right |
| RuntimeProfile.UnknownIdFallsBack | tools/lt-import-gltf-poc/src/gltf-writer/runtime-face-behavior-profile.mjs:40-49 | an unknown id gives the default contents with the overrides and explicit profile merged over them |
| RuntimeProfile.BuiltInMerge | tools/lt-import-gltf-poc/src/gltf-writer/runtime-face-behavior-profile.mjs:15-27 | merging the default profile and either built-in profile leaves the built-in face states |
| RuntimeProfile.DefaultsFlags | tools/lt-import-gltf-poc/src/gltf-writer/runtime-face-behavior-profile.mjs:21-26 | the built-in face states read as the air policy, no outside occlusion and no cutting |
| RuntimeProfile.DefaultFaceStateFlags | tools/lt-import-gltf-poc/src/gltf-writer/runtime-face-behavior-profile.mjs:38-51 | without object overrides or an explicit profile object, the resolved profile has the air policy, no outside occlusion and no cutting |
| LtImportParser.ResolveGrid | tools/lt-import-gltf-poc/src/lt-import-parser.mjs:284-296 | a grid or `defaultGrid` option is used when it is a positive integer; otherwise the fallback is used; a positive fallback gives a positive grid |
| LtImportParser.StructureId | tools/lt-import-gltf-poc/src/lt-import-parser.mjs:177-188 | an id exactly for a compound structure with a non-null `id` whose text, trimmed, is non-empty, and then it is that trimmed text, which trimming again leaves unchanged |
| LtImportParser.IntArray | tools/lt-import-gltf-poc/src/lt-import-parser.mjs:298-310 | a decoded integer array is a list with one integer per element, each equal to the element's `Number()` value |
| LtImportParser.AsIntArray | tools/lt-import-gltf-poc/src/lt-import-parser.mjs:298-310 | the element loop returns exactly `IntArray`: a non-list is an error, and so is the first element that is not a finite integer |
| LtImportParser.OldTileNameRule | tools/lt-import-gltf-poc/src/lt-import-parser.mjs:190-198 | a legacy name exists exactly for a compound with a string `block`; it starts with the block and differs from it exactly when `meta` is a non-zero integer, and then it is the block, `:` and the meta's decimal text |
| LtImportParser.BoxArrayRules | tools/lt-import-gltf-poc/src/lt-import-parser.mjs:200-257 | a box needs at least six numbers and min < max on each axis; a negative seventh number makes it transformable with data from index 6; otherwise only lengths 6, 7 and 11 are accepted; the bounds are the first six numbers |
| LtImportParser.ClassifyRules | tools/lt-import-gltf-poc/src/lt-import-parser.mjs:65-80 | an entry of a block state is a colour exactly when it is a one-number integer array, and a box exactly when it is another integer array that parses as a box |
| LtImportParser.TileEntriesOk | tools/lt-import-gltf-poc/src/lt-import-parser.mjs:65-92 | a block state's entries decode exactly when every entry is a colour or a box, and then each entry gives its own value in order |
| LtImportParser.EntriesFoldBoxes | tools/lt-import-gltf-poc/src/lt-import-parser.mjs:63-92 | the tiles' boxes, concatenated, are the box entries in order, and every tile carries the block state, the group's grid and its structure id |
| LtImportParser.EntriesFoldColor | tools/lt-import-gltf-poc/src/lt-import-parser.mjs:63-92 | there is a tile as soon as there is an entry, and the running colour is the last colour entry, or -1 when there is none |
| LtImportParser.EntriesFoldColors | tools/lt-import-gltf-poc/src/lt-import-parser.mjs:63-92 | the tiles' colours are the colour entries in order, preceded by -1 when the first entry is a box |
| LtImportParser.ParseTileEntries | tools/lt-import-gltf-poc/src/lt-import-parser.mjs:63-92 | the entries loop with its colour and current-tile variables returns exactly the tiles of the fold, or the first entry's error |
| LtImportParser.BlockStateOrigin | tools/lt-import-gltf-poc/src/lt-import-parser.mjs:59-92 | every tile of a `t` entry carries that entry's key as block state, plus the group's grid and structure id |
| LtImportParser.ParseGroupTiles | tools/lt-import-gltf-poc/src/lt-import-parser.mjs:57-93 | the loop over `t` returns the tiles of all block states in entry order; a block state whose value is not a list is an error |
| LtImportParser.CurrentGroupShape | tools/lt-import-gltf-poc/src/lt-import-parser.mjs:52-119 | a decoded group's grid is its own positive-integer grid or the inherited one; its structure id is read from `s`; all its tiles carry both; its children are the `c` items then the `e` values, each decoded under the group's grid |
| LtImportParser.CurrentGroupOk | tools/lt-import-gltf-poc/src/lt-import-parser.mjs:52-119 | a group decodes exactly when it is not null, every block state of `t` decodes and every child decodes |
| LtImportParser.CurrentGridsPositive | tools/lt-import-gltf-poc/src/lt-import-parser.mjs:52-119 | under a positive default grid, every grid in the decoded tree is positive |
| LtImportParser.ParseCurrentGroup | tools/lt-import-gltf-poc/src/lt-import-parser.mjs:52-119 | the recursive decoder with its loops returns exactly `CurrentGroup`; reading a field of a null group is an error |
| LtImportParser.ParseChildRun | tools/lt-import-gltf-poc/src/lt-import-parser.mjs:95-116 | each child loop extends the children decoded so far by the run's children in order, or returns the first child's error |
| LtImportParser.ParseChild | tools/lt-import-gltf-poc/src/lt-import-parser.mjs:97-115 | one pass of a child loop appends the decoded child to the children so far, or ends the loop with that child's error |
| LtImportParser.LegacyArraysRule | tools/lt-import-gltf-poc/src/lt-import-parser.mjs:137-145 | a legacy tile's arrays come from the first present source: a `boxes` list (one array per item), else `bBox`, else `box`, else none |
| LtImportParser.ReadLegacyArrays | tools/lt-import-gltf-poc/src/lt-import-parser.mjs:137-145 | the array loop returns exactly `LegacyArrays` |
| LtImportParser.ParseBoxArrays | tools/lt-import-gltf-poc/src/lt-import-parser.mjs:156-159 | the box loop gives one box per array, in order, or the first array's error |
| LtImportParser.LegacyTileShape | tools/lt-import-gltf-poc/src/lt-import-parser.mjs:130-160 | a decoded legacy tile takes its old name and colour from the `tile` compound, else from the entry itself; it carries the group's grid and structure id and has exactly one box per array |
| LtImportParser.ParseLegacyTile | tools/lt-import-gltf-poc/src/lt-import-parser.mjs:130-160 | one pass of the tiles loop returns exactly `LegacyTile`; a null entry is an error |
| LtImportParser.ParseLegacyTiles | tools/lt-import-gltf-poc/src/lt-import-parser.mjs:129-160 | the tiles loop gives one tile per item, in order, or the first item's error |
| LtImportParser.LegacyGroupTiles | tools/lt-import-gltf-poc/src/lt-import-parser.mjs:121-160 | a decoded legacy group requires a `tiles` list, takes its grid from its own `grid` or the inherited one and its structure id from `structure`, and has one tile per item |
| LtImportParser.LegacyGroupShape | tools/lt-import-gltf-poc/src/lt-import-parser.mjs:162-174 | a decoded legacy group has one child per `children` item, in order, each decoded under the group's grid |
| LtImportParser.LegacyGridsPositive | tools/lt-import-gltf-poc/src/lt-import-parser.mjs:121-175 | under a positive inherited grid, every grid in the decoded legacy tree is positive |
| LtImportParser.ParseLegacyGroup | tools/lt-import-gltf-poc/src/lt-import-parser.mjs:121-175 | the recursive legacy decoder with its loops returns exactly `LegacyGroup` |
| LtImportParser.FlatBoxesOfFlatTiles | tools/lt-import-gltf-poc/src/lt-import-parser.mjs:259-282 | `flattenBoxes` lists exactly the boxes of the tiles `flattenTiles` lists, in the same order, and every listed tile has a box |
| LtImportParser.FlattenTiles | tools/lt-import-gltf-poc/src/lt-import-parser.mjs:275-282 | the depth-first walk appends exactly the tree's tiles that have boxes to `out` |
| LtImportParser.FlattenBoxes | tools/lt-import-gltf-poc/src/lt-import-parser.mjs:259-273 | the depth-first walk appends to `out` every box of the tree, each carrying its tile's block state, colour, grid and structure id |
| LtImportParser.ParseRoot | tools/lt-import-gltf-poc/src/lt-import-parser.mjs:33-42 | the root is decoded by the legacy decoder exactly for a `tiles` list without a `t` compound; the legacy decoder inherits the data's own grid or the default |
| LtImportParser.ParseLtImport | tools/lt-import-gltf-poc/src/lt-import-parser.mjs:14-50 | the import returns exactly `ParsedOf`: a non-compound is an error; otherwise the schema, the root and its flat tile and box lists |
| LtImportParser.ParsedShape | tools/lt-import-gltf-poc/src/lt-import-parser.mjs:14-50 | a decoded import is legacy exactly for a `tiles` list without a `t` compound; its root grid is the data's own positive-integer grid, else the default grid; every grid is positive; its flat boxes are the boxes of its flat tiles |
| MaterialResolver.Clamp01 | tools/lt-import-gltf-poc/src/gltf-writer/material-resolver.mjs:72-80 | the result lies in [0, 1]: a non-finite value gives 0, a value below 0 gives 0, above 1 gives 1, and a value inside is kept |
| MaterialResolver.RgbaFromArgb | tools/lt-import-gltf-poc/src/gltf-writer/material-resolver.mjs:47-53 | every decoded channel lies in [0, 1] |
| MaterialResolver.RgbaChannelBytes | tools/lt-import-gltf-poc/src/gltf-writer/material-resolver.mjs:47-53 | each channel scaled back by 255 is its byte of the ARGB word: alpha the top byte, then red, green, blue |
| MaterialResolver.RgbaFromArgbBytes | tools/lt-import-gltf-poc/src/gltf-writer/material-resolver.mjs:47-53 | the four channel bytes reassemble the ARGB value modulo 2^32, so the unsigned shifts lose nothing but the sign |
| MaterialResolver.RgbaFromArgbExample | tools/lt-import-gltf-poc/src/gltf-writer/material-resolver.mjs:47-53 | 0x80ff0000 decodes to red with alpha 128/255, its signed 32-bit form decodes the same, and -1 (no colour) is opaque white |
| MaterialResolver.QuantizeColor | tools/lt-import-gltf-poc/src/gltf-writer/material-resolver.mjs:67-70 | two hex digits whose value is the clamped channel times 255, rounded |
| MaterialResolver.QuantizeArgbChannel | tools/lt-import-gltf-poc/src/gltf-writer/material-resolver.mjs:67-70 | quantising a channel decoded from an ARGB byte gives back that byte |
| MaterialResolver.MaterialKeySplit | tools/lt-import-gltf-poc/src/gltf-writer/material-resolver.mjs:55-65 | splitting a material key at `|` gives back its six parts |
| MaterialResolver.MaterialKeyInjective | tools/lt-import-gltf-poc/src/gltf-writer/material-resolver.mjs:55-65 | two equal keys come from the same block id, the same texture URI (absent as empty) and the same four quantised channels |
| MaterialResolver.ParseProp | tools/lt-import-gltf-poc/src/gltf-writer/material-resolver.mjs:214-224 | a kept `key=value` part has a non-empty key and a non-empty value |
| MaterialResolver.PropsFoldKeys | tools/lt-import-gltf-poc/src/gltf-writer/material-resolver.mjs:212-225 | the property map holds exactly the keys of the well-formed parts |
| MaterialResolver.PropsFoldLastValue | tools/lt-import-gltf-poc/src/gltf-writer/material-resolver.mjs:212-225 | a key maps to the value of its last well-formed part, as `Map.set` overwrites |
| MaterialResolver.InsertKeySpec | tools/lt-import-gltf-poc/src/gltf-writer/material-resolver.mjs:229 | inserting a new key into strictly sorted keys keeps them strictly sorted and adds exactly that key |
| MaterialResolver.SortKeysSpec | tools/lt-import-gltf-poc/src/gltf-writer/material-resolver.mjs:229 | the sorted keys are strictly increasing and a permutation of the input |
| MaterialResolver.SortedKeysOf | tools/lt-import-gltf-poc/src/gltf-writer/material-resolver.mjs:226-230 | the keys of the property map, each once, in strictly increasing order |
| MaterialResolver.CanonicalizeBlockStateSpec | tools/lt-import-gltf-poc/src/gltf-writer/material-resolver.mjs:200-231 | without `[` the trimmed text; without a surviving property the bare name; otherwise the name then `[k=v,...]` over every surviving key once, in increasing key order |
| MaterialResolver.BlankBodyHasNoProps | tools/lt-import-gltf-poc/src/gltf-writer/material-resolver.mjs:209-210 | a blank body yields no property, so the early return agrees with the property loop |
| MaterialResolver.PushAliasSpec | tools/lt-import-gltf-poc/src/gltf-writer/material-resolver.mjs:282-288 | pushing keeps the list free of duplicates and adds the alias, if any, to what was there |
| MaterialResolver.LegacyTextureAliasesSpec | tools/lt-import-gltf-poc/src/gltf-writer/material-resolver.mjs:254-275 | the aliases have no duplicates, all come from the alias table, and include the alias of the lower-cased state and id and of each with its `:meta` suffix stripped |
| MaterialResolver.StripMetaSuffixSpec | tools/lt-import-gltf-poc/src/gltf-writer/material-resolver.mjs:263-272 | stripping changes a key only when it contains `:` |
| MaterialResolver.UriEntry | tools/lt-import-gltf-poc/src/gltf-writer/material-resolver.mjs:96-98 | a found URI is a non-empty string stored under the key in an object table |
| MaterialResolver.FirstUri | tools/lt-import-gltf-poc/src/gltf-writer/material-resolver.mjs:89-129 | a found URI is the answer of one of the candidates, and none is found only when no candidate answers |
| MaterialResolver.FirstUriCons | tools/lt-import-gltf-poc/src/gltf-writer/material-resolver.mjs:89-129 | the first candidate that answers wins over all later ones |
| MaterialResolver.AliasUriFirst | tools/lt-import-gltf-poc/src/gltf-writer/material-resolver.mjs:112-127 | the alias loop is the first-answer search over, per alias, the state table, the state table under the canonical alias, then the id table |
| MaterialResolver.UriSearchFirst | tools/lt-import-gltf-poc/src/gltf-writer/material-resolver.mjs:95-127 | the cascade of lookups is the first-answer search over the ordered candidate list |
| MaterialResolver.ResolveTextureUriFirst | tools/lt-import-gltf-poc/src/gltf-writer/material-resolver.mjs:89-129 | resolveTextureUri answers with the first of: the block state, its canonical form, the block id, then the aliases; a found URI is non-empty |
| MaterialResolver.ResolveTextureAnimation | tools/lt-import-gltf-poc/src/gltf-writer/material-resolver.mjs:131-144 | animation metadata is found only for a non-blank trimmed URI, and only when it is an object |
| MaterialResolver.ResolveTextureHasAlpha | tools/lt-import-gltf-poc/src/gltf-writer/material-resolver.mjs:146-156 | a texture has alpha only for a non-blank trimmed URI |
| MaterialResolver.NormalizeTintRgb | tools/lt-import-gltf-poc/src/gltf-writer/material-resolver.mjs:243-252 | a tint exists exactly for an integer value, and its channels lie in [0, 1] |
| MaterialResolver.NormalizeTintRgbBytes | tools/lt-import-gltf-poc/src/gltf-writer/material-resolver.mjs:243-252 | the tint's channel bytes reassemble the low 24 bits of the value |
| MaterialResolver.AliasTint | tools/lt-import-gltf-poc/src/gltf-writer/material-resolver.mjs:183-195 | a tint found through an alias has channels in [0, 1] |
| MaterialResolver.ResolveTintRgb | tools/lt-import-gltf-poc/src/gltf-writer/material-resolver.mjs:158-198 | a resolved tint has channels in [0, 1]; an integer entry under the block state itself always wins |
| MaterialResolver.ApplyTintRgb | tools/lt-import-gltf-poc/src/gltf-writer/material-resolver.mjs:233-241 | without a tint the colour is unchanged; with one every channel lies in [0, 1], and is the channel-wise product when both lie in [0, 1] |
| MaterialResolver.ResolveMaterialAlpha | tools/lt-import-gltf-poc/src/gltf-writer/material-resolver.mjs:12-38 | alpha is the colour's own alpha when below 1, else the clamped translucent alpha (0.35 by default) for a non-solid face, else 1; the material blends exactly when that alpha is below 1 or the texture has alpha, and is double-sided exactly when it blends |
| MaterialResolver.ResolveMaterialColor | tools/lt-import-gltf-poc/src/gltf-writer/material-resolver.mjs:10-35 | the base colour lies in [0, 1]: the decoded colour passed through the resolved tint, with the base alpha |
| MaterialResolver.ResolveMaterialKey | tools/lt-import-gltf-poc/src/gltf-writer/material-resolver.mjs:3-45 | the material is named after the block state, carries the resolved texture URI, and its key is built from the block id, that URI and the base colour |
| MeshAssembly.MinU | tools/lt-import-gltf-poc/src/gltf-writer/mesh-assembly.mjs:814-821 | the least u coordinate: no coordinate is smaller and some coordinate equals it |
| MeshAssembly.MinV | tools/lt-import-gltf-poc/src/gltf-writer/mesh-assembly.mjs:814-821 | the least v coordinate: no coordinate is smaller and some coordinate equals it |
| MeshAssembly.NormalizedUvsSpec | tools/lt-import-gltf-poc/src/gltf-writer/mesh-assembly.mjs:810-827 | normalising keeps every difference between coordinates, makes all of them non-negative, and puts some u and some v at 0 |
| MeshAssembly.NormalizeUvOrigin | tools/lt-import-gltf-poc/src/gltf-writer/mesh-assembly.mjs:810-827 | the two loops return exactly the coordinates shifted by their minima |
| MeshAssembly.ComputeAxisFaceUvs | tools/lt-import-gltf-poc/src/gltf-writer/mesh-assembly.mjs:731-777 | the vertex loop returns exactly the per-facing projection, normalised to its origin |
| MeshAssembly.NorthQuadUvs | tools/lt-import-gltf-poc/src/gltf-writer/mesh-assembly.mjs:751-754 | a unit north quad maps onto the unit square with v pointing down |
| MeshAssembly.SouthQuadUvs | tools/lt-import-gltf-poc/src/gltf-writer/mesh-assembly.mjs:755-758 | a unit south quad maps onto the unit square with v pointing down |
| MeshAssembly.ComputeFaceUvs | tools/lt-import-gltf-poc/src/gltf-writer/mesh-assembly.mjs:721-729 | no coordinates without vertices, axis coordinates for an axis face, planar ones otherwise |
| MeshAssembly.FanIndicesSpec | tools/lt-import-gltf-poc/src/gltf-writer/mesh-assembly.mjs:45-48 | the fan from i has 3(n-1-i) indices, all naming the face's own n vertices |
| MeshAssembly.FaceIndicesSpec | tools/lt-import-gltf-poc/src/gltf-writer/mesh-assembly.mjs:41-48 | the triangle and quad cases equal the general fan; a face of n vertices adds 3(n-2) indices, all naming its own vertices |
| MeshAssembly.AppendFaceTo | tools/lt-import-gltf-poc/src/gltf-writer/mesh-assembly.mjs:34-48 | the push loops append exactly the face's positions, coordinates and indices to the mesh |
| MeshAssembly.AppendFaceData | tools/lt-import-gltf-poc/src/gltf-writer/mesh-assembly.mjs:34-48 | appending a face to the mesh of some faces gives the mesh of those faces followed by it |
| MeshAssembly.FacesToPrimitiveMeshes | tools/lt-import-gltf-poc/src/gltf-writer/mesh-assembly.mjs:5-59 | the face loop returns exactly the grouping of the faces by resolved material key, with its statistics |
| MeshAssembly.KeyFaces | tools/lt-import-gltf-poc/src/gltf-writer/mesh-assembly.mjs:13-32 | the faces of a key are faces that resolve to that key |
| MeshAssembly.KeyFacesNonEmpty | tools/lt-import-gltf-poc/src/gltf-writer/mesh-assembly.mjs:13-32 | a key has faces exactly when some face resolves to it |
| MeshAssembly.GroupFacesKeys | tools/lt-import-gltf-poc/src/gltf-writer/mesh-assembly.mjs:10-32 | the groups are listed once each, exactly for the resolved keys, each mesh carrying its key's material, and the transformable faces are counted |
| MeshAssembly.GroupFacesContents | tools/lt-import-gltf-poc/src/gltf-writer/mesh-assembly.mjs:13-48 | the mesh of a key holds exactly the positions, coordinates and indices of the faces that resolve to it, in face order, and is named after the material of the first such face |
| MeshAssembly.PositionsCount | tools/lt-import-gltf-poc/src/gltf-writer/mesh-assembly.mjs:36-37 | a mesh has three position numbers per vertex |
| MeshAssembly.IndicesInRange | tools/lt-import-gltf-poc/src/gltf-writer/mesh-assembly.mjs:34-48 | every index of a mesh names one of its own vertices, and there are 3(n-2) per face |
| MeshAssembly.AssemblyKeys | tools/lt-import-gltf-poc/src/gltf-writer/mesh-assembly.mjs:51-58 | faceCount is the number of faces; primitiveCount is the number of meshes and of distinct resolved keys; the meshes' keys are exactly those keys, pairwise distinct |
| MeshAssembly.AssemblyMeshesValid | tools/lt-import-gltf-poc/src/gltf-writer/mesh-assembly.mjs:34-48 | every assembled mesh has three numbers per vertex and indices that name its own vertices |
| Strings.ParseIntOfDigits | tools/lt-import-gltf-poc/src/gltf-writer/mesh-assembly.mjs:695 | `parseInt` of a digit string reads its decimal value |
| OffsetTracks.NormalizePositiveInt | tools/lt-import-gltf-poc/src/gltf-writer/mesh-assembly.mjs:694-699 | the result is the fallback or a positive integer |
| OffsetTracks.NormalizePositiveIntSpec | tools/lt-import-gltf-poc/src/gltf-writer/mesh-assembly.mjs:694-699 | a positive whole number, as a number or as its decimal text, is kept; a missing value, null, or a number below 1 gives the fallback |
| OffsetTracks.ClampFrameIndex | tools/lt-import-gltf-poc/src/gltf-writer/mesh-assembly.mjs:701-709 | the index lies in [0, frameCount): kept when inside, 0 below, frameCount - 1 above |
| OffsetTracks.FallbackFrameTime | tools/lt-import-gltf-poc/src/gltf-writer/mesh-assembly.mjs:592 | the default frame time is at least one tick |
| OffsetTracks.NormalizeTrackFrames | tools/lt-import-gltf-poc/src/gltf-writer/mesh-assembly.mjs:591-616 | the two loops return exactly the frames of the specification function |
| OffsetTracks.FramesFromSpec | tools/lt-import-gltf-poc/src/gltf-writer/mesh-assembly.mjs:596-604 | every frame kept from the list has a positive time and an index inside the strip |
| OffsetTracks.TrackFramesSpec | tools/lt-import-gltf-poc/src/gltf-writer/mesh-assembly.mjs:591-616 | the frames are never empty, have positive times and indexes inside the strip; without a usable listed frame they are every strip index in order with the default time |
| OffsetTracks.BuildOffsetTrack | tools/lt-import-gltf-poc/src/gltf-writer/mesh-assembly.mjs:568-589 | a track exists exactly when the frame count is a whole number above 1 |
| OffsetTracks.SumTimesPositive | tools/lt-import-gltf-poc/src/gltf-writer/mesh-assembly.mjs:577 | the period is at least the number of frames when every time is positive |
| OffsetTracks.BuildOffsetTrackSpec | tools/lt-import-gltf-poc/src/gltf-writer/mesh-assembly.mjs:568-589 | a built track has valid frames, a frame count of 2 or more, a period equal to the sum of its frame times and at least 1, and STEP interpolation |
| OffsetTracks.OffsetForFrame | tools/lt-import-gltf-poc/src/gltf-writer/mesh-assembly.mjs:618-620 | a frame inside the strip is offset by index / frameCount |
| OffsetTracks.TicksToSeconds | tools/lt-import-gltf-poc/src/gltf-writer/mesh-assembly.mjs:622-627 | never negative; a non-negative tick count is divided by 20 |
| OffsetTracks.RepeatPass | tools/lt-import-gltf-poc/src/gltf-writer/mesh-assembly.mjs:641-647 | one pass of the inner loop pushes the next keys of the cycle, keeping the times and values pushed so far equal to those keys, and moves the cursor forward |
| OffsetTracks.RepeatPasses | tools/lt-import-gltf-poc/src/gltf-writer/mesh-assembly.mjs:636-648 | the nested loops push exactly the key times and values of the cycle up to the loop end |
| OffsetTracks.RepeatTrackToLoop | tools/lt-import-gltf-poc/src/gltf-writer/mesh-assembly.mjs:629-659 | the method returns exactly the repeated track of the specification function, or none for a period or loop length that is not positive |
| OffsetTracks.TickIncreasing | tools/lt-import-gltf-poc/src/gltf-writer/mesh-assembly.mjs:640-647 | the tick of the cycle's m-th key grows strictly with m |
| OffsetTracks.EmissionsSpec | tools/lt-import-gltf-poc/src/gltf-writer/mesh-assembly.mjs:640-648 | the m-th key starts at the m-th tick of the cycle and shows frame m modulo the number of frames; all keys start before the loop end and the next one would not |
| OffsetTracks.WholePasses | tools/lt-import-gltf-poc/src/gltf-writer/mesh-assembly.mjs:640-648 | a loop of k whole periods repeats every frame exactly k times |
| OffsetTracks.RepeatedTicks | tools/lt-import-gltf-poc/src/gltf-writer/mesh-assembly.mjs:636-651 | the key ticks with the closing key start at 0, are strictly increasing, and number at least two |
| OffsetTracks.RepeatTrackTimes | tools/lt-import-gltf-poc/src/gltf-writer/mesh-assembly.mjs:629-659 | for a valid track and a positive loop the times exist, number the keys plus one closing time, start at 0, end at the loop length in seconds, and strictly increase |
| OffsetTracks.RepeatTrackValues | tools/lt-import-gltf-poc/src/gltf-writer/mesh-assembly.mjs:629-659 | two values per time; each key holds u offset 0 and v offset index / frameCount of its frame; the closing pair repeats the first |
| OffsetTracks.Gcd | tools/lt-import-gltf-poc/src/gltf-writer/mesh-assembly.mjs:677-686 | the result is at least 1 (`x || 1`) |
| OffsetTracks.ComputeGcd | tools/lt-import-gltf-poc/src/gltf-writer/mesh-assembly.mjs:677-686 | Euclid's loop returns exactly the gcd of the absolute values, or 1 when both are 0 |
| OffsetTracks.EuclidDivides | tools/lt-import-gltf-poc/src/gltf-writer/mesh-assembly.mjs:677-686 | Euclid's result divides both inputs |
| OffsetTracks.ComputeLcm | tools/lt-import-gltf-poc/src/gltf-writer/mesh-assembly.mjs:688-690 | the method returns exactly the lcm of the specification function |
| OffsetTracks.LcmSpec | tools/lt-import-gltf-poc/src/gltf-writer/mesh-assembly.mjs:688-690 | for positive inputs the lcm is a common multiple of both and at least each of them |
| OffsetTracks.PositivePeriods | tools/lt-import-gltf-poc/src/gltf-writer/mesh-assembly.mjs:662-664 | the kept periods are exactly the input periods that are at least 1 |
| OffsetTracks.MaxOf | tools/lt-import-gltf-poc/src/gltf-writer/mesh-assembly.mjs:672 | `Math.max` of the periods: one of them, and at least each of them |
| OffsetTracks.ResolveSharedLoopTicks | tools/lt-import-gltf-poc/src/gltf-writer/mesh-assembly.mjs:661-675 | the loop returns exactly the shared loop length of the specification function |
| OffsetTracks.SharedFromSpec | tools/lt-import-gltf-poc/src/gltf-writer/mesh-assembly.mjs:668-674 | the folded value is positive and is either the largest period or a common multiple of all periods, at most 4800 unless it is the last unchecked value |
| OffsetTracks.SharedLoopTicksSpec | tools/lt-import-gltf-poc/src/gltf-writer/mesh-assembly.mjs:661-675 | 0 exactly when no period is positive; otherwise positive, and either a common multiple of every positive period of at most 4800 ticks or the largest period |
| GltfWriter.Align4Spec | tools/lt-import-gltf-poc/src/gltf-writer/mesh-assembly.mjs:368-370 | the aligned value is a multiple of 4, at least the input and less than 4 above it, and the input itself when already aligned |
| GltfWriter.Align4AsWrittenAgrees | tools/lt-import-gltf-poc/src/gltf-writer/mesh-assembly.mjs:368-370 | below 2^31 - 3 the 32-bit bit-mask form, and the chunk offset it yields, equal the exact alignment |
| GltfWriter.Align4AsWrittenOverflows | tools/lt-import-gltf-poc/src/gltf-writer/mesh-assembly.mjs:77-84 | at 2^31 - 3 bytes the bit-mask form wraps to -2^31, no padding is added, and the next chunk starts at an offset that is 1 modulo 4, where the exact alignment is 2^31 |
| GltfWriter.TotalAppend | tools/lt-import-gltf-poc/src/gltf-writer/mesh-assembly.mjs:79-86 | one more chunk adds its length to the buffer's total |
| GltfWriter.BinaryBuffer.AddChunk | tools/lt-import-gltf-poc/src/gltf-writer/mesh-assembly.mjs:70-92 | the chunk is placed at the aligned end of the buffer after zero padding; the total grows to its end, and the chunks list gains the padding and the chunk |
| GltfWriter.MaxValue | tools/lt-import-gltf-poc/src/gltf-writer/mesh-assembly.mjs:349-356 | the result is at least 0 and at least every value, and is 0 or one of the values |
| GltfWriter.IndexWidth | tools/lt-import-gltf-poc/src/gltf-writer/mesh-assembly.mjs:205-224 | 16-bit indices exactly when every index is at most 65535, 32-bit otherwise; the recorded maximum is at least every index and is 0 or one of them |
| GltfWriter.ColumnSnoc | tools/lt-import-gltf-poc/src/gltf-writer/mesh-assembly.mjs:310-320 | one more element adds its component c to column c |
| GltfWriter.WidenColumn | tools/lt-import-gltf-poc/src/gltf-writer/mesh-assembly.mjs:314-319 | the `<` and `>` updates keep the least and greatest of a column grown by one value |
| GltfWriter.BoundsOfFirst | tools/lt-import-gltf-poc/src/gltf-writer/mesh-assembly.mjs:302-320 | the bounds of the first element are its own components |
| GltfWriter.Widen | tools/lt-import-gltf-poc/src/gltf-writer/mesh-assembly.mjs:314-319 | folding one component in keeps the other components' bounds and makes this one the least and greatest of its column so far |
| GltfWriter.WidenVertex | tools/lt-import-gltf-poc/src/gltf-writer/mesh-assembly.mjs:311-319 | one vertex folded in gives the bounds of the first i + 3 numbers |
| GltfWriter.WidenPair | tools/lt-import-gltf-poc/src/gltf-writer/mesh-assembly.mjs:335-340 | one (u, v) pair folded in gives the bounds of the first i + 2 numbers |
| GltfWriter.MinMax3 | tools/lt-import-gltf-poc/src/gltf-writer/mesh-assembly.mjs:302-326 | min and max hold, per axis, the least and the greatest coordinate of all vertices |
| GltfWriter.MinMax2 | tools/lt-import-gltf-poc/src/gltf-writer/mesh-assembly.mjs:328-347 | min and max hold, for u and for v, the least and the greatest of all pairs |
| GltfWriter.TextureTable.constructor | tools/lt-import-gltf-poc/src/gltf-writer/mesh-assembly.mjs:98-100 | the table starts with no image, texture or index |
| GltfWriter.TextureTable.ResolveTextureIndex | tools/lt-import-gltf-poc/src/gltf-writer/mesh-assembly.mjs:107-134 | none for a blank trimmed URI; a known URI returns its texture, which takes on the animation if it had none; a new URI adds one image and one texture with the shared sampler at the end |
| GltfWriter.ImagesDistinct | tools/lt-import-gltf-poc/src/gltf-writer/mesh-assembly.mjs:107-134 | no two images share a URI, and the URIs with a texture are exactly the images |
| GltfWriter.NormalizeVec2 | tools/lt-import-gltf-poc/src/gltf-writer/mesh-assembly.mjs:431-439 | a vector comes only from an array of exactly two elements |
| GltfWriter.NormalizeTextureTransform | tools/lt-import-gltf-poc/src/gltf-writer/mesh-assembly.mjs:441-451 | a transform exists exactly when both `uvTransform.scale` and `uvTransform.offset` normalise |
| GltfWriter.ToGltfMaterial | tools/lt-import-gltf-poc/src/gltf-writer/mesh-assembly.mjs:376-416 | the material carries the mesh's name, colour, alpha mode and sidedness with metallic 0 and roughness 1; it has a texture exactly when the trimmed URI is non-empty, and that texture's image is that URI; images are only appended |
| GltfDocument.PrimitiveDrawnGrows | tools/lt-import-gltf-poc/src/gltf-writer/mesh-assembly.mjs:158-241 | appending views and accessors keeps what a primitive's accessors hold |
| GltfDocument.Drawn | tools/lt-import-gltf-poc/src/gltf-writer/mesh-assembly.mjs:136-138 | every drawn mesh has positions and indices, and there are no more of them than meshes |
| GltfDocument.DrawnFrom | tools/lt-import-gltf-poc/src/gltf-writer/mesh-assembly.mjs:136-138 | the drawn meshes are drawable meshes of the input |
| GltfDocument.AppendDrawn | tools/lt-import-gltf-poc/src/gltf-writer/mesh-assembly.mjs:136-138 | one more mesh is drawn exactly when it has positions and indices |
| GltfDocument.AppendFirsts | tools/lt-import-gltf-poc/src/gltf-writer/mesh-assembly.mjs:140-147 | a drawable mesh with a new material key creates a material; any other mesh creates none |
| GltfDocument.AppendIndexMap | tools/lt-import-gltf-poc/src/gltf-writer/mesh-assembly.mjs:141-143 | a new material's key maps to the material's index |
| GltfDocument.IndexMapSpec | tools/lt-import-gltf-poc/src/gltf-writer/mesh-assembly.mjs:140-147 | every key maps to a material with that key, and every material's key is mapped |
| GltfDocument.FirstOfKeysDistinct | tools/lt-import-gltf-poc/src/gltf-writer/mesh-assembly.mjs:140-147 | no two materials share a key |
| GltfDocument.FirstOfKeysDrawn | tools/lt-import-gltf-poc/src/gltf-writer/mesh-assembly.mjs:136-147 | every material comes from a drawn mesh of the input |
| GltfDocument.FirstOfKeysCover | tools/lt-import-gltf-poc/src/gltf-writer/mesh-assembly.mjs:136-147 | every drawn mesh's key has a material |
| GltfDocument.TargetsOf | tools/lt-import-gltf-poc/src/gltf-writer/mesh-assembly.mjs:149-155 | each animated target names a material that has a texture and whose creating mesh's animation yields a texture transform, with that animation |
| GltfDocument.MaterialsMatchKeep | tools/lt-import-gltf-poc/src/gltf-writer/mesh-assembly.mjs:123-124 | images only being appended, the materials' textures keep showing their URIs |
| GltfDocument.MaterialsMatchAppend | tools/lt-import-gltf-poc/src/gltf-writer/mesh-assembly.mjs:142-147 | a material converted from a new key's mesh joins the materials matching their meshes |
| GltfDocument.TargetsAppend | tools/lt-import-gltf-poc/src/gltf-writer/mesh-assembly.mjs:149-155 | a new material adds a target exactly when it is an animated material target |
| GltfDocument.StorageSnoc | tools/lt-import-gltf-poc/src/gltf-writer/mesh-assembly.mjs:77-92 | a view over an aligned chunk past the end keeps the views aligned, within the buffer and non-overlapping |
| GltfDocument.AddView | tools/lt-import-gltf-poc/src/gltf-writer/mesh-assembly.mjs:159-166 | the chunk is added and a view over it is appended at its aligned offset with the payload's byte length |
| GltfDocument.AddFloatAccessor | tools/lt-import-gltf-poc/src/gltf-writer/mesh-assembly.mjs:158-178 | a float view and an accessor of the given type, count, bounds and target are appended; nothing else changes |
| GltfDocument.AddIndexAccessor | tools/lt-import-gltf-poc/src/gltf-writer/mesh-assembly.mjs:205-229 | the index view holds the indices at the width they need; the accessor has min [0] and max the largest index or 0 |
| GltfDocument.NewMaterial | tools/lt-import-gltf-poc/src/gltf-writer/mesh-assembly.mjs:141-156 | the converted material is appended under its key, and a target is added when it is animated |
| GltfDocument.MaterialFor | tools/lt-import-gltf-poc/src/gltf-writer/mesh-assembly.mjs:140-156 | the material index of the mesh's key, created on first use; earlier keys keep their indexes |
| GltfDocument.AddGeometry | tools/lt-import-gltf-poc/src/gltf-writer/mesh-assembly.mjs:158-241 | the primitive's position, optional texture coordinate and index accessors hold the mesh's data with their bounds, and it uses the given material |
| GltfDocument.PrimitivesOkGrows | tools/lt-import-gltf-poc/src/gltf-writer/mesh-assembly.mjs:158-241 | appending storage keeps every primitive's data |
| GltfDocument.PrimitivesAppend | tools/lt-import-gltf-poc/src/gltf-writer/mesh-assembly.mjs:237-241 | the new primitive of a drawn mesh joins the primitives of the earlier drawn meshes |
| GltfDocument.AddMesh | tools/lt-import-gltf-poc/src/gltf-writer/mesh-assembly.mjs:136-242 | one pass of the mesh loop keeps the document valid for the meshes seen; a mesh without positions or indices changes nothing |
| GltfDocument.Tracked | tools/lt-import-gltf-poc/src/gltf-writer/mesh-assembly.mjs:479-487 | the collected tracks are valid with a positive period and belong to targets |
| GltfDocument.CollectTracks | tools/lt-import-gltf-poc/src/gltf-writer/mesh-assembly.mjs:479-487 | the track loop returns exactly the targets' tracks in order, skipping targets without one |
| GltfDocument.SharedPositive | tools/lt-import-gltf-poc/src/gltf-writer/mesh-assembly.mjs:489-492 | once a track exists the shared loop length is positive, so `repeatTrackToLoop` never answers null |
| GltfDocument.SamplerHoldsGrows | tools/lt-import-gltf-poc/src/gltf-writer/mesh-assembly.mjs:494-543 | appending storage keeps what a sampler's accessors hold |
| GltfDocument.AddSampler | tools/lt-import-gltf-poc/src/gltf-writer/mesh-assembly.mjs:495-543 | the time accessor holds the repeated key times with the first and last as bounds; the value accessor holds the offsets with their bounds; the sampler keeps the track's interpolation |
| GltfDocument.AnimationMatchesSnoc | tools/lt-import-gltf-poc/src/gltf-writer/mesh-assembly.mjs:494-556 | a sampler and a channel for track k extend the animation of the first k tracks |
| GltfDocument.AddChannel | tools/lt-import-gltf-poc/src/gltf-writer/mesh-assembly.mjs:494-556 | one pass of the channel loop adds track k's sampler and the channel driving its material's offset |
| GltfDocument.AddChannels | tools/lt-import-gltf-poc/src/gltf-writer/mesh-assembly.mjs:494-556 | one sampler and one channel per track, in order; channel k points at track k's material offset through sampler k |
| GltfDocument.BuildTextureOffsetAnimation | tools/lt-import-gltf-poc/src/gltf-writer/mesh-assembly.mjs:462-566 | no animation exactly when no target yields a track; otherwise `texture_animation` with one sampler and one channel per track over the shared loop length |
| GltfDocument.ChannelsTargetTransforms | tools/lt-import-gltf-poc/src/gltf-writer/mesh-assembly.mjs:545-555 | every channel's pointer names a material that has a base colour texture with a texture transform |
| GltfDocument.AddMeshes | tools/lt-import-gltf-poc/src/gltf-writer/mesh-assembly.mjs:94-242 | the mesh loop over a fresh buffer and table leaves the document valid for all meshes |
| GltfDocument.WriteGltf | tools/lt-import-gltf-poc/src/gltf-writer/mesh-assembly.mjs:61-300 | the error `No geometry generated.` exactly when no mesh has both positions and indices; otherwise one primitive per drawn mesh holding its data, one material per key, packed views, one image per URI, one sampler, the animation of the animated materials, and exactly the extensions these use |
| GltfDocument.DocWritten | tools/lt-import-gltf-poc/src/gltf-writer/mesh-assembly.mjs:244-287 | the document assembled from the final state is the one written for the meshes |
| GltfDocument.WriteSummaryCounts | tools/lt-import-gltf-poc/src/gltf-writer/mesh-assembly.mjs:293-299 | the summary counts one primitive per drawn mesh and one material per distinct key, and at least one material once something is drawn |
| GltfWriter.BinaryBuffer.constructor | tools/lt-import-gltf-poc/src/gltf-writer/mesh-assembly.mjs:67-68 | the buffer starts with no chunk and a total of 0 bytes |
| GltfDocument.ChannelsSnoc | tools/lt-import-gltf-poc/src/gltf-writer/mesh-assembly.mjs:545-555 | the channel for track k, through sampler k to its material's offset, extends the channels of the first k tracks |
| GltfDocument.SamplersSnoc | tools/lt-import-gltf-poc/src/gltf-writer/mesh-assembly.mjs:494-543 | the sampler for track k extends the samplers of the first k tracks |
| GltfDocument.Periods | tools/lt-import-gltf-poc/src/gltf-writer/mesh-assembly.mjs:489-490 | one period per track, in order, each the track's period |
| GltfDocument.StartDoc | tools/lt-import-gltf-poc/src/gltf-writer/mesh-assembly.mjs:94-105 | a fresh buffer and texture table with an empty document are valid for no meshes |
| TextureReport.NormalizeUriPrefixSpec | tools/lt-import-gltf-poc/src/gltf-writer/texture-report.mjs:82-87 | a blank prefix gives ''; any other gives its trimmed text ending in exactly one added '/' when it lacked one; normalising the result again changes nothing |
| TextureReport.NormalizeTintColor | tools/lt-import-gltf-poc/src/gltf-writer/texture-report.mjs:89-93 | a tint exists exactly for an integer value, lies in [0, 2^24) and is congruent to the value modulo 2^24 (its low 24 bits) |
| TextureReport.HasTrnsChunk | tools/lt-import-gltf-poc/src/gltf-writer/texture-report.mjs:276-295 | the chunk loop from byte 8 answers exactly what the chunk walk `TrnsFrom` answers: stop short or at IEND, true at tRNS |
| TextureReport.Be32OfBytes | tools/lt-import-gltf-poc/src/gltf-writer/texture-report.mjs:270-271 | readUInt32BE of four big-endian bytes of a 32-bit number gives the number back |
| TextureReport.TrnsFromEncoded | tools/lt-import-gltf-poc/src/gltf-writer/texture-report.mjs:276-295 | walking encoded chunks finds tRNS exactly when a tRNS chunk comes before every IEND chunk |
| TextureReport.ReadPngMetadataOfEncoded | tools/lt-import-gltf-poc/src/gltf-writer/texture-report.mjs:242-274 | an encoded PNG with an IHDR chunk reads back its width and height, with alpha exactly when its colour type is 4 or 6 or a tRNS chunk precedes every IEND |
| TextureReport.NormalizeAnimationFrames | tools/lt-import-gltf-poc/src/gltf-writer/texture-report.mjs:168-192 | the loop over the entries yields the frames of the array in order (`FramesOf`), and none for a non-array |
| TextureReport.FramesOfBounds | tools/lt-import-gltf-poc/src/gltf-writer/texture-report.mjs:168-192 | there are no more frames than entries, and with a positive default every frame time is positive |
| TextureReport.FramesOfDrawn | tools/lt-import-gltf-poc/src/gltf-writer/texture-report.mjs:173-190 | every frame is what some entry gives: an integer entry, or an object with an integer index |
| TextureReport.FramesOfIntegers | tools/lt-import-gltf-poc/src/gltf-writer/texture-report.mjs:174-180 | a list of integers gives exactly one frame per integer, in order, each shown for the default time |
| TextureReport.MaxFrameIndex | tools/lt-import-gltf-poc/src/gltf-writer/texture-report.mjs:205-207 | the reduce from 0 is at least 0 and every frame index, and is 0 or one of the indices |
| TextureReport.ToAnimationMetadataSpec | tools/lt-import-gltf-poc/src/gltf-writer/texture-report.mjs:136-166 | an animation exists exactly for an object whose frame count is at least 2; its frame time is positive, the V scale is 1/frameCount, listed frames set the count to the largest index plus one and the offset to the clamped first frame, and otherwise the count is image height over frame height with offset 0 |
| TextureReport.LoadTextureMetadataSpec | tools/lt-import-gltf-poc/src/gltf-writer/texture-report.mjs:102-134 | without a report directory there is no alpha and no animation; alpha needs a readable PNG; an animation needs `hasMcmeta` and a parsed mcmeta file, has at least two frames and names the raw URI plus `.mcmeta` |
| TextureReport.LastMapSpec | tools/lt-import-gltf-poc/src/gltf-writer/texture-report.mjs:22-30 | a key is present exactly when some non-blank write stores it, and holds the value of the last such write |
| TextureReport.FirstMapSpec | tools/lt-import-gltf-poc/src/gltf-writer/texture-report.mjs:46-47 | a key is present exactly when some non-blank write stores it, and holds the value of the first such write (`== null` guard) |
| TextureReport.StateMapKeys | tools/lt-import-gltf-poc/src/gltf-writer/texture-report.mjs:41-45 | a block state is in the map exactly when some block with a value names it as its raw or canonical state |
| TextureReport.StateMapValues | tools/lt-import-gltf-poc/src/gltf-writer/texture-report.mjs:41-45 | a block state holds the value of the last block with a value that names it |
| TextureReport.IdMapSpec | tools/lt-import-gltf-poc/src/gltf-writer/texture-report.mjs:46-56 | a block id is in the map exactly when some block with a value has it, and holds the value of the first such block |
| TextureReport.FirstUriSpec | tools/lt-import-gltf-poc/src/gltf-writer/texture-report.mjs:70-80 | the URI found is that of the first texture id that trims to a key with a non-empty URI, and there is none exactly when no id resolves |
| TextureReport.FirstResolvedUri | tools/lt-import-gltf-poc/src/gltf-writer/texture-report.mjs:70-80 | the early-return loop over the ids answers `FirstUri` |
| TextureReport.IndexedOf | tools/lt-import-gltf-poc/src/gltf-writer/texture-report.mjs:16-25 | an indexed texture has a non-blank id and URI |
| TextureReport.IndexedTextures | tools/lt-import-gltf-poc/src/gltf-writer/texture-report.mjs:15-21 | one entry per texture, and every indexed one has a non-blank id and URI |
| TextureReport.IndexTexture | tools/lt-import-gltf-poc/src/gltf-writer/texture-report.mjs:22-30 | one texture writes its resolved URI under its id, true under the URI when it has alpha, and its animation under the URI when it has one; nothing else changes |
| TextureReport.IndexTextures | tools/lt-import-gltf-poc/src/gltf-writer/texture-report.mjs:15-31 | the texture loop leaves byTextureId, alpha and animations equal to the last-write maps of the indexed textures |
| TextureReport.IndexBlock | tools/lt-import-gltf-poc/src/gltf-writer/texture-report.mjs:34-57 | one block writes its resolved URI and its tint under its raw then canonical state, and under its block id only when the id is new; nothing else changes |
| TextureReport.IndexBlocks | tools/lt-import-gltf-poc/src/gltf-writer/texture-report.mjs:33-58 | the block loop leaves the four block maps equal to the state maps (last wins) and id maps (first wins) of the blocks |
| TextureReport.BuildTextureLookupFromExportReport | tools/lt-import-gltf-poc/src/gltf-writer/texture-report.mjs:4-68 | the lookup is the texture pass then the block pass (`TextureLookupOf`), and a `textures` or `blockStates` value that cannot be iterated is an error |
| TextureReport.TextureIdsSpec | tools/lt-import-gltf-poc/src/gltf-writer/texture-report.mjs:15-23 | an id is in byTextureId exactly when some indexed texture has it, and maps to the prefix followed by the URI of the last such texture |
| TextureReport.AlphaSpec | tools/lt-import-gltf-poc/src/gltf-writer/texture-report.mjs:25-27 | every alpha entry is true and belongs to an indexed texture whose PNG has alpha, under its resolved URI |
| DebugStats.SummarizeFaceSet | tools/lt-import-gltf-poc/src/gltf-writer/debug-stats.mjs:6-35 | the counting loop ends with, for each facing, box kind, face type and side, exactly the number of faces that have it, and totalFaces is the number of faces |
| DebugStats.SummaryOfSpec | tools/lt-import-gltf-poc/src/gltf-writer/debug-stats.mjs:6-35 | each tally of a face-set summary (the six facings, aabb and transformable, axis and tilted, inside and outside) sums to totalFaces |
| DebugStats.TagCountsPartition | tools/lt-import-gltf-poc/src/gltf-writer/debug-stats.mjs:12-26 | every face is counted under exactly one facing, one box kind and one side: each tally sums to the number of faces |
| DebugStats.TypeCountsPartition | tools/lt-import-gltf-poc/src/gltf-writer/debug-stats.mjs:19-20 | axis and tilted counts sum to the number of faces |
| DebugStats.TagCountsAppend | tools/lt-import-gltf-poc/src/gltf-writer/debug-stats.mjs:12-26 | the counts of two face lists one after the other are the sums of their counts |
| DebugStats.SummarizeCandidates | tools/lt-import-gltf-poc/src/gltf-writer/debug-stats.mjs:46-56 | the candidate counting loop ends with, per facing, per box kind and per side, the number of candidates that have it, and a total equal to the number of candidates |
| DebugStats.CandidateSummaryOfSpec | tools/lt-import-gltf-poc/src/gltf-writer/debug-stats.mjs:41-64 | each tally of the candidate summary sums to totalVisibleCandidates |
| DebugStats.CollectRenderableFaceCandidateSummaryFromTiles | tools/lt-import-gltf-poc/src/gltf-writer/debug-stats.mjs:41-64 | the summary counts exactly the candidates the face-candidate pipeline yields for these tiles and options, and each of its tallies sums to the total |
| ParityFaceStates.IsDebugFaceRenderableSpec | tools/lt-import-gltf-poc/src/parity/face-state-summary.mjs:66-71 | a face is not renderable when its state text is UNLOADED, INSIDE_COVERED or OUTISDE_COVERED or its coveredFully is true, and is renderable otherwise |
| ParityFaceStates.FaceCountsConsistent | tools/lt-import-gltf-poc/src/parity/face-state-summary.mjs:22-45 | one face adds exactly one face, one renderable face exactly when it is renderable, and leaves the counters consistent |
| ParityFaceStates.AddConsistent | tools/lt-import-gltf-poc/src/parity/face-state-summary.mjs:22-45 | adding two consistent sets of counters gives consistent counters |
| ParityFaceStates.FacesCountsConsistent | tools/lt-import-gltf-poc/src/parity/face-state-summary.mjs:22-45 | the counters of any faces are consistent (renderable faces never outnumber faces, inside plus outside is each total, facing counters stay within the totals and the renderable ones within all) and totalFaces is the number of faces |
| ParityFaceStates.SummaryFromSpec | tools/lt-import-gltf-poc/src/parity/face-state-summary.mjs:53-64 | the summary throws exactly when the walk throws, is null exactly when the walk saw no face, and otherwise is consistent and counts every face |
| ParityFaceStates.BoxesFacesErr | tools/lt-import-gltf-poc/src/parity/face-state-summary.mjs:18-19 | a null box anywhere in a box list makes the whole list throw |
| ParityFaceStates.TilesFacesErr | tools/lt-import-gltf-poc/src/parity/face-state-summary.mjs:17-18 | a tile that throws anywhere in a tile list makes the whole list throw |
| ParityFaceStates.StackFacesAppend | tools/lt-import-gltf-poc/src/parity/face-state-summary.mjs:11-13 | groups pushed on top of the stack are popped, with all their faces, before the groups below them |
| ParityFaceStates.ChildrenAsStack | tools/lt-import-gltf-poc/src/parity/face-state-summary.mjs:48-49 | the children pushed in order are walked last child first, as the recursive definition of a group's faces says |
| ParityFaceStates.PopGroup | tools/lt-import-gltf-poc/src/parity/face-state-summary.mjs:13-49 | popping an object group yields its own tiles' faces followed by those of the children it pushes, and the stack's weight drops by one |
| ParityFaceStates.FoldSnoc | tools/lt-import-gltf-poc/src/parity/face-state-summary.mjs:22-45 | tallying one more face applies the per-face step to the tally so far |
| ParityFaceStates.FoldTally | tools/lt-import-gltf-poc/src/parity/face-state-summary.mjs:22-45 | tallying faces one by one from zero gives their counters, with seenAny true exactly when there was a face |
| ParityFaceStates.CountFaces | tools/lt-import-gltf-poc/src/parity/face-state-summary.mjs:22-45 | the faceStates loop tallies exactly the faces of the array, in order, on top of what was tallied before |
| ParityFaceStates.CountBoxes | tools/lt-import-gltf-poc/src/parity/face-state-summary.mjs:18-46 | the box loop throws exactly when a box is null, skips boxes without a faceStates array and otherwise tallies every box's faces in order |
| ParityFaceStates.CountTile | tools/lt-import-gltf-poc/src/parity/face-state-summary.mjs:17-18 | one tile throws when it is null or its boxes cannot be iterated and otherwise tallies the faces of its boxes |
| ParityFaceStates.CountTiles | tools/lt-import-gltf-poc/src/parity/face-state-summary.mjs:17-47 | the tile loop throws exactly when a tile throws and otherwise tallies the faces of all tiles in order |
| ParityFaceStates.WalkGroups | tools/lt-import-gltf-poc/src/parity/face-state-summary.mjs:11-51 | the stack walk throws exactly when some group of the tree throws and otherwise tallies every face of the tree, in the order the stack pops the groups |
| ParityFaceStates.SummarizeDebugFaceStates | tools/lt-import-gltf-poc/src/parity/face-state-summary.mjs:1-64 | summarizeDebugFaceStates returns the summary of the faces of the whole tree: null when there are none, otherwise consistent counters with a positive total |
| ParityFaceStates.IntegerField | tools/lt-import-gltf-poc/src/parity/face-state-summary.mjs:78 | a field is kept, with its value, exactly when it is an integer, and is null otherwise |
| ParityFaceStates.SanitizeDebugFaceStateSummary | tools/lt-import-gltf-poc/src/parity/face-state-summary.mjs:73-83 | null exactly when the summary is not an object (arrays pass the typeof test); each of the four counts is kept exactly when it is an integer |
| ParityFaceStates.SanitizeTransformableDiagnosticsSummary | tools/lt-import-gltf-poc/src/parity/face-state-summary.mjs:85-103 | null exactly when the summary is not an object; each of the four diagnostics counts is kept exactly when it is an integer |
| CandidateDiff.BoolOrNull | tools/lt-import-gltf-poc/src/parity/candidate-diff.mjs:359-365 | the result is a boolean exactly when the field holds that boolean, and null for every other value |
| CandidateDiff.DeriveCurrentVsFreshMismatch | tools/lt-import-gltf-poc/src/parity/candidate-diff.mjs:344-357 | null for a non-object; true iff one of the five fields is true; false iff none is true and one is false; null otherwise |
| CandidateDiff.SignatureArray | tools/lt-import-gltf-poc/src/parity/candidate-diff.mjs:400-404 | anything but a non-empty array gives the empty text |
| CandidateDiff.CandidateSignature | tools/lt-import-gltf-poc/src/parity/candidate-diff.mjs:367-382 | the candidate signature has twelve elements |
| CandidateDiff.SignaturesDifferInOutsideOnly | tools/lt-import-gltf-poc/src/parity/candidate-diff.mjs:367-398 | removing the fifth element, the outside flag, from the candidate signature gives the signature ignoring outside |
| CandidateDiff.CandidateSignatureEquality | tools/lt-import-gltf-poc/src/parity/candidate-diff.mjs:367-398 | two candidates share a signature iff they share the signature ignoring outside and are both outside or both not |
| CandidateDiff.BoxSignatureDropsFacing | tools/lt-import-gltf-poc/src/parity/candidate-diff.mjs:615-628 | the box signature is the signature ignoring outside without its facing element |
| CandidateDiff.Added | tools/lt-import-gltf-poc/src/parity/candidate-diff.mjs:238-249 | counting a key raises its count by one, leaves every other key untouched, and keeps the first sample of an existing key |
| CandidateDiff.AddedAllCounts | tools/lt-import-gltf-poc/src/parity/candidate-diff.mjs:238-249 | after counting a sequence of candidates, each key's count is its multiplicity among the counted keys and its sample is the first sample counted under it |
| CandidateDiff.CandidateCounts.AddCandidateCount | tools/lt-import-gltf-poc/src/parity/candidate-diff.mjs:238-249 | the map becomes `Added` of the old map, a new key is appended to the insertion order, and the keys stay distinct with positive counts |
| CandidateDiff.Dedup | tools/lt-import-gltf-poc/src/parity/candidate-diff.mjs:407 | the key set holds exactly the keys of both maps, each once |
| CandidateDiff.MissingOfSpec | tools/lt-import-gltf-poc/src/parity/candidate-diff.mjs:414-428 | a key gets a missing entry iff its expected count exceeds its actual count, and the entry carries both counts and their difference |
| CandidateDiff.ExtraOfSpec | tools/lt-import-gltf-poc/src/parity/candidate-diff.mjs:430-442 | a key gets an extra entry iff its actual count exceeds its expected count, and the entry carries both counts and their difference |
| CandidateDiff.SumDeltasSnoc | tools/lt-import-gltf-poc/src/parity/candidate-diff.mjs:419-433 | adding an entry to a list adds its delta to the list's total |
| CandidateDiff.NotBeforeTransitive | tools/lt-import-gltf-poc/src/parity/candidate-diff.mjs:445-449 | the sort order (descending delta, then ascending key) is transitive |
| CandidateDiff.Insert | tools/lt-import-gltf-poc/src/parity/candidate-diff.mjs:451-452 | inserting an entry adds exactly that entry to the multiset of entries |
| CandidateDiff.InsertSorted | tools/lt-import-gltf-poc/src/parity/candidate-diff.mjs:445-452 | inserting into a sorted list keeps it sorted and adds the entry's delta to the total |
| CandidateDiff.SortEntries | tools/lt-import-gltf-poc/src/parity/candidate-diff.mjs:451-452 | sorting permutes the entries |
| CandidateDiff.SortEntriesSpec | tools/lt-import-gltf-poc/src/parity/candidate-diff.mjs:445-452 | the sorted list is ordered by descending delta then ascending key, has the same members and the same delta total |
| CandidateDiff.DiffOfSpec | tools/lt-import-gltf-poc/src/parity/candidate-diff.mjs:406-456 | a key is missing iff expected exceeds actual and extra iff actual exceeds expected, with the difference as delta; equal counts appear in neither list; both lists are sorted; each total is the sum of its list's deltas |
| CandidateDiff.DiffCandidateMultisets | tools/lt-import-gltf-poc/src/parity/candidate-diff.mjs:406-456 | the loop over the keys of both multisets, expected keys first, computes exactly `DiffOf` of the two maps |
| CandidateDiff.ResolveLimit | tools/lt-import-gltf-poc/src/parity/candidate-diff.mjs:18 | the limit is the option when it is a positive integer and 12 otherwise |
| CandidateDiff.SummarizeDiffEntries | tools/lt-import-gltf-poc/src/parity/candidate-diff.mjs:458-466 | the summary is the prefix of the list of length min(limit, list length) |
| CandidateDiff.FocusEntries | tools/lt-import-gltf-poc/src/parity/candidate-diff.mjs:469-477 | an entry is kept iff its sample is outside, faces DOWN and is transformable |
| CandidateDiff.FocusEntriesSorted | tools/lt-import-gltf-poc/src/parity/candidate-diff.mjs:476-477 | filtering a sorted list keeps it sorted |
| CandidateDiff.SummarizeFocusedCandidateDiff | tools/lt-import-gltf-poc/src/parity/candidate-diff.mjs:468-492 | the focus totals are the delta sums of the focused entries; each focused list holds only focused entries of the diff and at most limit of them |
| CandidateDiff.FocusViewSorted | tools/lt-import-gltf-poc/src/parity/candidate-diff.mjs:468-492 | the focused lists of a sorted diff are sorted |
| CandidateDiff.ReportOf | tools/lt-import-gltf-poc/src/parity/candidate-diff.mjs:17-31 | the report keeps both totals of the diff and the first min(limit, length) entries of each list |
| SchemaTreeCompare.IntOrZero | tools/lt-import-gltf-poc/src/parity/schema-tree-compare.mjs:139-141 | an integer number is kept; anything else, a fraction included, becomes 0 |
| SchemaTreeCompare.SanitizeStats | tools/lt-import-gltf-poc/src/parity/schema-tree-compare.mjs:1-9 | a missing or non-object stats value gives all zeros; otherwise each of the four counters is its field when that is an integer and 0 otherwise |
| SchemaTreeCompare.BoxesStats | tools/lt-import-gltf-poc/src/parity/schema-tree-compare.mjs:21-25 | one box counted per box, no groups or tiles, and the transformable boxes are among the boxes |
| SchemaTreeCompare.TilesStats | tools/lt-import-gltf-poc/src/parity/schema-tree-compare.mjs:19-26 | one tile counted per tile, no groups, and the transformable boxes are among the boxes |
| SchemaTreeCompare.StatsOf | tools/lt-import-gltf-poc/src/parity/schema-tree-compare.mjs:11-37 | a group counts at least itself as a group, and no counter is negative or holds more transformable boxes than boxes |
| SchemaTreeCompare.ChildrenStats | tools/lt-import-gltf-poc/src/parity/schema-tree-compare.mjs:28-34 | the first k children count at least k groups, with the same plausibility |
| SchemaTreeCompare.CountGroupStats | tools/lt-import-gltf-poc/src/parity/schema-tree-compare.mjs:11-37 | the loops over tiles, boxes and children compute exactly the recursive counters of the group |
| SchemaTreeCompare.CountChildren | tools/lt-import-gltf-poc/src/parity/schema-tree-compare.mjs:28-34 | the loop over the children adds exactly the counters of every child and its descendants |
| SchemaTreeCompare.CountTile | tools/lt-import-gltf-poc/src/parity/schema-tree-compare.mjs:19-26 | one pass of the tile loop adds one tile, one box per box and one transformable box per transformable box |
| SchemaTreeCompare.StatsBoxesAreFlatBoxes | tools/lt-import-gltf-poc/src/parity/schema-tree-compare.mjs:11-37 | the box counter equals the number of boxes in the parser's flat box list of the same structure |
| SchemaTreeCompare.TilesStatsBoxes | tools/lt-import-gltf-poc/src/parity/schema-tree-compare.mjs:19-26 | the box counter of some tiles equals the length of their flat box list |
| SchemaTreeCompare.ChildrenStatsBoxes | tools/lt-import-gltf-poc/src/parity/schema-tree-compare.mjs:28-34 | the box counter of the first k children equals the length of their flat box list |
| SchemaTreeCompare.SanitizeNullableKeys | tools/lt-import-gltf-poc/src/parity/schema-tree-compare.mjs:161-175 | scalars and null are returned unchanged, arrays stay arrays of the same length, and an object keeps exactly its keys whose value is not null |
| SchemaTreeCompare.SanitizedIsNullFree | tools/lt-import-gltf-poc/src/parity/schema-tree-compare.mjs:161-175 | after sanitizing, no object at any depth has a null-valued key |
| SchemaTreeCompare.SanitizeKeepsNullFree | tools/lt-import-gltf-poc/src/parity/schema-tree-compare.mjs:161-175 | a value with no null-valued key at any depth is left unchanged |
| SchemaTreeCompare.SanitizeIdempotent | tools/lt-import-gltf-poc/src/parity/schema-tree-compare.mjs:161-175 | sanitizing twice is the same as sanitizing once |
| SchemaTreeCompare.SortedKeys | tools/lt-import-gltf-poc/src/parity/schema-tree-compare.mjs:122-123 | the sorted key list holds exactly the object's keys, in strictly ascending order |
| SchemaTreeCompare.LeastKeyExists | tools/lt-import-gltf-poc/src/parity/schema-tree-compare.mjs:122-123 | every non-empty key set has a least key, so the sort has a first element |
| SchemaTreeCompare.FirstDiffNoneIff | tools/lt-import-gltf-poc/src/parity/schema-tree-compare.mjs:97-137 | firstDiff reports no difference exactly when the two values are equal |
| SchemaTreeCompare.FirstDiffReflexive | tools/lt-import-gltf-poc/src/parity/schema-tree-compare.mjs:97-99 | a value compared with itself has no difference |
| SchemaTreeCompare.ItemsDiffNoneIff | tools/lt-import-gltf-poc/src/parity/schema-tree-compare.mjs:114-119 | the element loop finds nothing exactly when the two arrays agree from position i on |
| SchemaTreeCompare.FieldsDiffNoneIff | tools/lt-import-gltf-poc/src/parity/schema-tree-compare.mjs:131-136 | the key loop finds nothing exactly when every remaining key has equal values |
| SchemaTreeCompare.ItemsDiffIsFirst | tools/lt-import-gltf-poc/src/parity/schema-tree-compare.mjs:114-119 | a reported array difference is the one of the first index whose elements differ; all earlier elements are equal |
| SchemaTreeCompare.FieldsDiffIsFirst | tools/lt-import-gltf-poc/src/parity/schema-tree-compare.mjs:131-136 | a reported object difference is the one of the first sorted key whose values differ; all earlier keys have equal values |
| SchemaTreeCompare.InsertByText | tools/lt-import-gltf-poc/src/parity/schema-tree-compare.mjs:143-159 | inserting adds exactly one occurrence of the new element |
| SchemaTreeCompare.InsertByTextSorted | tools/lt-import-gltf-poc/src/parity/schema-tree-compare.mjs:151-159 | inserting into a list ordered by JSON text keeps it ordered |
| SchemaTreeCompare.SortByTextSpec | tools/lt-import-gltf-poc/src/parity/schema-tree-compare.mjs:143-159 | the sort by compareCanonical gives a list ordered by JSON text that is a permutation of its input |
| SchemaTreeCompare.SortedByTextUnique | tools/lt-import-gltf-poc/src/parity/schema-tree-compare.mjs:151-159 | with an injective JSON text, two ordered permutations of the same elements are the same list |
| SchemaTreeCompare.SortByTextOrderFree | tools/lt-import-gltf-poc/src/parity/schema-tree-compare.mjs:143-159 | with an injective JSON text, the sorted list does not depend on the input order |
| SchemaTreeCompare.MapSeqPermutation | tools/lt-import-gltf-poc/src/parity/schema-tree-compare.mjs:40-58 | mapping two orderings of the same elements gives two orderings of the same results |
| SchemaTreeCompare.CanonicalParsedBox | tools/lt-import-gltf-poc/src/parity/schema-tree-compare.mjs:44-53 | the box record's array starts with the six bounds, continues with the transform data for a transformable box, has exactly six items for an aabb box, and holds no null |
| SchemaTreeCompare.CanonicalGroupFromParsed | tools/lt-import-gltf-poc/src/parity/schema-tree-compare.mjs:39-67 | the canonical group is an object with grid, tiles and children, and has a structureId key exactly when the group has a structure id |
| SchemaTreeCompare.GroupRecord | tools/lt-import-gltf-poc/src/parity/schema-tree-compare.mjs:61-66 | the sanitized record keeps grid, tiles and children and drops a null structureId |
| SchemaTreeCompare.CanonicalTileBoxOrderFree | tools/lt-import-gltf-poc/src/parity/schema-tree-compare.mjs:40-55 | with an injective JSON text, the canonical tile does not depend on the order of its boxes |
| SchemaTreeCompare.CanonicalGroupOrderFree | tools/lt-import-gltf-poc/src/parity/schema-tree-compare.mjs:39-67 | with an injective JSON text, the canonical group does not depend on the order of its tiles or of its children |
| SchemaTreeCompare.CanonicalTilesOrderFree | tools/lt-import-gltf-poc/src/parity/schema-tree-compare.mjs:40-55 | the sorted canonical tiles of two orderings of the same tiles are equal |
| SchemaTreeCompare.CanonicalGroupsOrderFree | tools/lt-import-gltf-poc/src/parity/schema-tree-compare.mjs:57-59 | the sorted canonical children of two orderings of the same children are equal |
| SchemaTreeCompare.MapItems | tools/lt-import-gltf-poc/src/parity/schema-tree-compare.mjs:70 | `(v ?? []).map` sees no items for a missing or null value, the items of an array, and throws a TypeError for anything else |
| SchemaTreeCompare.CanonicalDebugBox | tools/lt-import-gltf-poc/src/parity/schema-tree-compare.mjs:73-82 | a null box throws; any other box gives a record with exactly its present kind and six bounds, copied unchanged, and an array field that is a copy of the box's array when that is an array and the empty array otherwise |
| SchemaTreeCompare.CanonicalDebugBoxes | tools/lt-import-gltf-poc/src/parity/schema-tree-compare.mjs:73-82 | mapping the boxes succeeds exactly when none is null, and then gives, at each index, the record of the box at that index |
| SchemaTreeCompare.CanonicalDebugTile | tools/lt-import-gltf-poc/src/parity/schema-tree-compare.mjs:70-83 | a tile gives a record exactly when it is not null, its boxes are missing, null or an array, and no box is null; the record holds its present blockState and color unchanged and its boxes' records sorted by text, and nothing else |
| SchemaTreeCompare.CanonicalDebugTiles | tools/lt-import-gltf-poc/src/parity/schema-tree-compare.mjs:70-83 | mapping the tiles succeeds exactly when every tile has a record (so never with a null tile), and then gives, at each index, the record of the tile at that index |
| SchemaTreeCompare.CanonicalGroupFromDebug | tools/lt-import-gltf-poc/src/parity/schema-tree-compare.mjs:69-95 | tiles or children that are neither missing, null nor an array throw; a canonical group is an object with no null-valued key at any depth, whose keys are tiles, children, grid exactly when the grid is neither missing nor null, and structureId exactly when the structure id is neither |
| SchemaTreeCompare.DebugGroupRecord | tools/lt-import-gltf-poc/src/parity/schema-tree-compare.mjs:89-94 | the sanitized record keeps tiles and children, keeps grid and structureId exactly when they are not null, has no other key and holds no null-valued key |
| SchemaTreeCompare.CanonicalDebugChildren | tools/lt-import-gltf-poc/src/parity/schema-tree-compare.mjs:85-87 | success gives one canonical tree per child |
| SchemaTreeCompare.DebugChildrenEach | tools/lt-import-gltf-poc/src/parity/schema-tree-compare.mjs:85-87 | the children's list succeeds exactly when every child has a canonical tree |
| SchemaTreeCompare.DebugChildrenOkWhenAll | tools/lt-import-gltf-poc/src/parity/schema-tree-compare.mjs:85-87 | every child having a canonical tree makes the children's list succeed |
| SchemaTreeCompare.DebugChildrenValues | tools/lt-import-gltf-poc/src/parity/schema-tree-compare.mjs:85-87 | a successful children's list holds, at each index, the canonical tree of the child at that index |
| SchemaTreeCompare.DebugGroupOk | tools/lt-import-gltf-poc/src/parity/schema-tree-compare.mjs:69-95 | a debug group has a canonical tree exactly when its tiles and children are missing, null or arrays, every tile has a record and every child has a canonical tree |
| SchemaTreeCompare.DebugGroupFields | tools/lt-import-gltf-poc/src/parity/schema-tree-compare.mjs:85-94 | the canonical tree's tiles are the tiles' records and its children the children's trees, each list sorted by text and sanitised; a kept grid or structure id is the group's own, sanitised |
| SchemaTreeCompare.DebugGroupRecordValues | tools/lt-import-gltf-poc/src/parity/schema-tree-compare.mjs:89-94 | each kept field of the sanitised record is the literal's field sanitised: tiles and children sorted by text, the grid and the structure id as given |
| SchemaTreeCompare.DebugTilesOrderFree | tools/lt-import-gltf-poc/src/parity/schema-tree-compare.mjs:70-92 | two orderings of the same tiles both fail or give the same sorted tile records |
| SchemaTreeCompare.DebugChildrenOrderFree | tools/lt-import-gltf-poc/src/parity/schema-tree-compare.mjs:85-87 | two orderings of the same children both fail or give the same sorted child trees |
| SchemaTreeCompare.DebugGroupOrderFree | tools/lt-import-gltf-poc/src/parity/schema-tree-compare.mjs:69-95 | with an injective JSON text, replacing a debug group's tiles or children by another ordering of the same elements gives the same canonical tree, or the same TypeError |
| SchemaTreeCompare.EmptyDebugRoot | tools/lt-import-gltf-poc/src/parity/schema-tree-compare.mjs:69-95 | a missing debug root gives the tree with empty tiles and children and no other key |
| ParityIo.ParsePositiveIntArg | tools/lt-import-gltf-poc/src/parity/io.mjs:5-10 | accepted exactly when `Number(raw)` is a positive integer, and the result is that number; otherwise the ParseError names the flag |
| ParityIo.PositiveIntRoundTrip | tools/lt-import-gltf-poc/src/parity/io.mjs:5-10 | the decimal text of every positive integer is accepted as that integer |
| ParityIo.NonPositiveRejected | tools/lt-import-gltf-poc/src/parity/io.mjs:6-8 | a missing value, `0` and every negative whole number are rejected with the ParseError |
| ParityIo.ExponentSpellingAccepted | tools/lt-import-gltf-poc/src/parity/io.mjs:5-10 | a positive whole number written with an exponent (`1e3`) is accepted as its value |
| ParityIo.ZeroFractionAccepted | tools/lt-import-gltf-poc/src/parity/io.mjs:5-10 | a positive whole number written with a zero fraction (`10.0`) is accepted as that number |
| ParityIo.HexSpellingAccepted | tools/lt-import-gltf-poc/src/parity/io.mjs:5-10 | the hexadecimal literal `0x10` is accepted as 16 |
| ParityIo.StringOrNull | tools/lt-import-gltf-poc/src/parity/io.mjs:51-56 | a value is kept exactly when it is a string with something left after trimming, and the kept value is the trimmed text |
| ParityIo.StringOrNullStable | tools/lt-import-gltf-poc/src/parity/io.mjs:51-56 | a kept value is non-empty and already trimmed, so reading it again gives it back |
| Json.Coalesce | tools/lt-import-gltf-poc/src/parity/io.mjs:35 | `a ?? b`: b when a is undefined or null, a otherwise |
| ParityIo.RuntimeObject | tools/lt-import-gltf-poc/src/parity/io.mjs:31-33 | a result is always `debug.runtime` itself and is an object |
| ParityIo.VersionField | tools/lt-import-gltf-poc/src/parity/io.mjs:35-38 | the runtime object's field is used when the runtime is an object and the field is not nullish; otherwise the top-level field, each read through stringOrNull |
| ParityIo.SanitizeRuntimeMetadata | tools/lt-import-gltf-poc/src/parity/io.mjs:30-49 | null exactly when none of the four versions is present; otherwise the record of all four, absent ones as null |
| Strings.ParseIntReadsDigits | tools/lt-import-gltf-poc/src/cli.mjs:89-92 | `parseInt` of a number's decimal text, followed by anything that does not start with a digit, is that number |
| Strings.ParseIntNaN | tools/lt-import-gltf-poc/src/cli.mjs:89-92 | a grid value that is blank after leading white space and an optional sign, or whose first significant character is not a digit, gives NaN |
| Cli.NormalizeGeometryMode | tools/lt-import-gltf-poc/src/cli.mjs:169-174 | accepted exactly when the trimmed, lower-cased text is `client` or `server`, as that mode; otherwise the ParseError quotes the flag and the raw value (`undefined` when missing) |
| Cli.GeometryModeRoundTrip | tools/lt-import-gltf-poc/src/cli.mjs:169-174 | each mode's own name is accepted as that mode |
| Cli.GeometryModeNormalised | tools/lt-import-gltf-poc/src/cli.mjs:170 | case and surrounding white space do not change whether a value is accepted, nor the mode it gives |
| Cli.Defaults | tools/lt-import-gltf-poc/src/cli.mjs:64-74 | the options before any argument: no switches set, grid 16, no paths, empty texture prefix, client mode |
| Cli.Step | tools/lt-import-gltf-poc/src/cli.mjs:77-134 | a value flag skips the next argument; it fails exactly on a bad geometry mode or a third positional; the input and output only ever become the current or next argument |
| Cli.ParseArgs | tools/lt-import-gltf-poc/src/cli.mjs:63-138 | the loop's result is the argument-by-argument fold of `Step` from the defaults |
| Cli.NoArgumentsGiveDefaults | tools/lt-import-gltf-poc/src/cli.mjs:63-74 | no argument gives the defaults |
| Cli.Positionals | tools/lt-import-gltf-poc/src/cli.mjs:124-134 | the first plain argument is the input, the second the output, and a third is `Unexpected argument` |
| Cli.TextureUriPrefixIsAlias | tools/lt-import-gltf-poc/src/cli.mjs:104-112 | `--texture-uri-prefix` acts exactly as `--texture-base-uri` wherever it appears |
| Cli.ValueFlagConsumesNext | tools/lt-import-gltf-poc/src/cli.mjs:89-112 | after a value flag, the next word is its value and never the input |
| Cli.PathsComeFromArgv | tools/lt-import-gltf-poc/src/cli.mjs:76-135 | the input and output paths the loop settles on are always arguments |
| Cli.PlanRun | tools/lt-import-gltf-poc/src/cli.mjs:8-43 | help exits 0 and a missing input 1; internal occlusion is on unless `--no-cull`; stdin is read exactly when the input is `-`, and then an output path is present |
| Cli.StdinNeedsOut | tools/lt-import-gltf-poc/src/cli.mjs:10-21 | the run fails before reading exactly when it would read stdin (given `-`, or no input with stdin not a terminal) without an output path and without help |
| ParityDebugCheck.Defaults | tools/lt-import-gltf-poc/src/parity-debug-check.mjs:63-71 | the options before any argument: no switches set, candidate-diff limit 12, no geometry mode, no inputs |
| ParityDebugCheck.ValueAfterEquals | tools/lt-import-gltf-poc/src/parity-debug-check.mjs:97 | `arg.split('=', 2)[1]` is defined exactly when the argument holds an `=` |
| ParityDebugCheck.ValueAfterFlag | tools/lt-import-gltf-poc/src/parity-debug-check.mjs:97 | for `flag=v` with no other `=`, the value read is v |
| ParityDebugCheck.Step | tools/lt-import-gltf-poc/src/parity-debug-check.mjs:74-111 | a plain argument is appended to the inputs and nothing else changes; a separate-value flag skips the next argument; a flag never adds an input |
| ParityDebugCheck.ParseArgs | tools/lt-import-gltf-poc/src/parity-debug-check.mjs:62-115 | the loop's result is the argument-by-argument fold of `Step` from the defaults |
| ParityDebugCheck.PlainArgumentsAreInputs | tools/lt-import-gltf-poc/src/parity-debug-check.mjs:111 | arguments that are not options all become inputs, in their order, and nothing else changes |
| ParityDebugCheck.LimitSpellingsAgree | tools/lt-import-gltf-poc/src/parity-debug-check.mjs:91-101 | `--candidate-diff-limit v` and `--candidate-diff-limit=v` give the same result |
| ParityDebugCheck.ModeSpellingsAgree | tools/lt-import-gltf-poc/src/parity-debug-check.mjs:102-110 | `--geometry-mode v` and `--geometry-mode=v` give the same result |
| ParityDebugCheck.ModeInlineStep | tools/lt-import-gltf-poc/src/parity-debug-check.mjs:106-110 | `--geometry-mode=v` is read by the inline branch with v as its value |
| ParityDebugCheck.LimitMustBePositive | tools/lt-import-gltf-poc/src/parity-debug-check.mjs:91-95 | a missing or zero limit is a ParseError |
| ParityDebugCheck.HelpExitCode | tools/lt-import-gltf-poc/src/parity-debug-check.mjs:10-13 | usage is printed exactly on help or no inputs, with exit code 0 exactly on help |
| ParityDebugCheck.CountFailingZero | tools/lt-import-gltf-poc/src/parity-debug-check.mjs:37-44 | no file is counted as failing exactly when every file has no failure |
| ParityDebugCheck.Summarize | tools/lt-import-gltf-poc/src/parity-debug-check.mjs:15-59 | a ParseError exactly when no JSON file was found; otherwise every file is counted, the failures are the files with at least one failure, PASS exactly when no file failed, and exit code 1 on FAIL |
| McmetaAnimator.Mod | tools/lt-3d-viewer/src/logic/mcmeta-texture-animator.js:851-856 | mod is 0 for a value or divisor that is not finite or a divisor that is not positive, and otherwise lies in [0, divisor) |
| McmetaAnimator.JsRemBounds | tools/lt-3d-viewer/src/logic/mcmeta-texture-animator.js:855 | JavaScript's `%` leaves a remainder with the sign of the dividend and smaller in magnitude than the divisor |
| McmetaAnimator.ModIsFlooredRemainder | tools/lt-3d-viewer/src/logic/mcmeta-texture-animator.js:851-856 | for a positive divisor, mod is the floored remainder value − divisor·⌊value / divisor⌋ |
| McmetaAnimator.ClampFrameIndex | tools/lt-3d-viewer/src/logic/mcmeta-texture-animator.js:825-836 | 0 for a non-integer index or a non-positive count; otherwise the index clamped into [0, frameCount − 1], unchanged when already inside |
| McmetaAnimator.ClampFrameIndexAgrees | tools/lt-3d-viewer/src/logic/mcmeta-texture-animator.js:825-836 | for an integer index and a positive count the viewer's clamp equals the importer's clampFrameIndex |
| McmetaAnimator.DefaultFrames | tools/lt-3d-viewer/src/logic/mcmeta-texture-animator.js:627-632 | the fallback holds frameCount frames, none for a non-positive count |
| McmetaAnimator.NormalizeAnimationFrames | tools/lt-3d-viewer/src/logic/mcmeta-texture-animator.js:594-635 | the entry loop followed by the fallback loop yields exactly the normalised frames (ViewerFrames) |
| McmetaAnimator.ViewerFramesShape | tools/lt-3d-viewer/src/logic/mcmeta-texture-animator.js:594-635 | with a positive count the frames are never empty and every index lies in [0, frameCount); with a positive default time every time is positive |
| McmetaAnimator.ViewerFramesIntegers | tools/lt-3d-viewer/src/logic/mcmeta-texture-animator.js:597-604 | a non-empty array of integers keeps one frame per integer, in order, with its index clamped and the default time |
| McmetaAnimator.ViewerFramesObject | tools/lt-3d-viewer/src/logic/mcmeta-texture-animator.js:607-619 | an object entry with an integer index is kept with its index clamped and its positive `time` or else the default |
| McmetaAnimator.SingleEntryFrames | tools/lt-3d-viewer/src/logic/mcmeta-texture-animator.js:597-624 | an array with one usable entry yields that entry's frame with its index clamped |
| McmetaAnimator.ObjectEntryFrame | tools/lt-3d-viewer/src/logic/mcmeta-texture-animator.js:611-619 | an object with an integer `index` reads as a frame of that index and its normalised time |
| McmetaAnimator.ViewerFramesFallback | tools/lt-3d-viewer/src/logic/mcmeta-texture-animator.js:623-634 | when no entry survives, the frames are 0 .. frameCount − 1 in order, each with the default time |
| McmetaAnimator.SumTimesAtLeastCount | tools/lt-3d-viewer/src/logic/mcmeta-texture-animator.js:391 | with every frame time at least 1 the period is at least the number of frames |
| McmetaAnimator.NormalizeAnimationMetadata | tools/lt-3d-viewer/src/logic/mcmeta-texture-animator.js:365-405 | a result keeps the image width as frame width, a positive frame height, at least two frames and a period equal to the sum of the frame times, at least 1 |
| McmetaAnimator.NormalizeAnimationMetadataSpec | tools/lt-3d-viewer/src/logic/mcmeta-texture-animator.js:365-417 | a result exists exactly when the value is an object with an explicit animation key, the frame height is positive and the frame count is at least 2; its frames are the normalised ones, non-empty, inside the strip and at least one tick long; the frame height falls back to the width; interpolate only for a literal true |
| McmetaAnimator.Duration | tools/lt-3d-viewer/src/logic/mcmeta-texture-animator.js:653 | a frame lasts max(1, time) ticks, which is its time when that is positive |
| McmetaAnimator.StartsIncrease | tools/lt-3d-viewer/src/logic/mcmeta-texture-animator.js:650-670 | the cursor grows by at least one tick per frame |
| McmetaAnimator.StartsIsSumTimes | tools/lt-3d-viewer/src/logic/mcmeta-texture-animator.js:650-670 | with every time at least 1 the cursor after the last frame equals the sum of the frame times, the period |
| McmetaAnimator.SelectFrom | tools/lt-3d-viewer/src/logic/mcmeta-texture-animator.js:651-670 | from any frame of a non-empty list the loop picks a frame at or after it; past the end nothing is picked |
| McmetaAnimator.SelectFromIsFirst | tools/lt-3d-viewer/src/logic/mcmeta-texture-animator.js:651-670 | the picked frame is the first whose end exceeds the tick, or the last frame |
| McmetaAnimator.TickInChosenWindow | tools/lt-3d-viewer/src/logic/mcmeta-texture-animator.js:648-660 | a tick below the total duration lies inside the picked frame's window |
| McmetaAnimator.TicksAt | tools/lt-3d-viewer/src/logic/mcmeta-texture-animator.js:648 | the whole tick count into the period lies in [0, period) |
| McmetaAnimator.SampleFrame | tools/lt-3d-viewer/src/logic/mcmeta-texture-animator.js:637-673 | the cursor loop returns exactly the specified sample (SampleOf) |
| McmetaAnimator.SampleOfSpec | tools/lt-3d-viewer/src/logic/mcmeta-texture-animator.js:637-673 | with frames and a positive period there is always a sample: the picked frame's index, the index of its cyclic successor, and a blend in [0, 1] that is 0 unless interpolating a frame longer than one tick |
| McmetaAnimator.SampleInWindow | tools/lt-3d-viewer/src/logic/mcmeta-texture-animator.js:642-666 | for frames as normalizeAnimationMetadata makes them the tick lies in the picked frame's window, and an interpolated blend is the fraction of that frame already shown |
| McmetaAnimator.StepBinding | tools/lt-3d-viewer/src/logic/mcmeta-texture-animator.js:123-139 | a binding without a sample or with an unchanged key is left alone; an upload is reported exactly when the key changed and the upload succeeded, and only then is the new key recorded |
| McmetaAnimator.BindingsOf | tools/lt-3d-viewer/src/logic/mcmeta-texture-animator.js:39-104 | attach keeps at most one binding per texture, each with no last sample key |
| McmetaAnimator.Animator.constructor | tools/lt-3d-viewer/src/logic/mcmeta-texture-animator.js:4-8 | a new animator has no bindings and nothing interpolating |
| McmetaAnimator.Animator.Reset | tools/lt-3d-viewer/src/logic/mcmeta-texture-animator.js:10-13 | reset leaves no bindings and nothing interpolating |
| McmetaAnimator.Animator.Attach | tools/lt-3d-viewer/src/logic/mcmeta-texture-animator.js:29-105 | attach keeps one fresh binding per resolved animation, in texture order, and sets the interpolation flag exactly when some kept animation interpolates |
| McmetaAnimator.Animator.Update | tools/lt-3d-viewer/src/logic/mcmeta-texture-animator.js:107-142 | update changes nothing and returns false without a model, without bindings, while paused or for a non-finite time; otherwise each binding takes its turn and the result is true exactly when some upload happened |
| McmetaAnimator.UploadedIffChanged | tools/lt-3d-viewer/src/logic/mcmeta-texture-animator.js:121-141 | a pass reports an upload exactly when it changes some binding's last sample key |
| McmetaAnimator.RepeatedUpdateUploadsNothing | tools/lt-3d-viewer/src/logic/mcmeta-texture-animator.js:129-138 | after a pass in which every upload succeeded, a second pass at the same time uploads nothing and changes nothing |
| McmetaAnimator.UriText | tools/lt-3d-viewer/src/logic/mcmeta-texture-animator.js:211 | the push helper's String(value ?? "").trim() is its own trim |
| McmetaAnimator.McmetaOfImage | tools/lt-3d-viewer/src/logic/mcmeta-texture-animator.js:223-226 | '<image uri>.mcmeta' is a candidate exactly when the trimmed image URI is non-empty and not a data: URI, and it is already trimmed |
| McmetaAnimator.ExplicitUris | tools/lt-3d-viewer/src/logic/mcmeta-texture-animator.js:218-221 | the four explicit candidates, each already trimmed |
| McmetaAnimator.ExtrasUri | tools/lt-3d-viewer/src/logic/mcmeta-texture-animator.js:218-221 | an extras mcmetaUri, direct or under minecraftAnimation, as trimmed text |
| McmetaAnimator.PushAll | tools/lt-3d-viewer/src/logic/mcmeta-texture-animator.js:210-216 | pushing never shortens the list |
| McmetaAnimator.PushUriKeeps | tools/lt-3d-viewer/src/logic/mcmeta-texture-animator.js:210-216 | one push keeps the list distinct and trimmed, adds exactly the non-empty new text, and keeps the first entry |
| McmetaAnimator.PushAllSpec | tools/lt-3d-viewer/src/logic/mcmeta-texture-animator.js:210-216 | a run of pushes keeps the list distinct and trimmed and holds exactly what it held plus every non-empty text pushed |
| McmetaAnimator.CollectMcmetaUriCandidatesSpec | tools/lt-3d-viewer/src/logic/mcmeta-texture-animator.js:208-229 | the candidates are distinct, non-empty and trimmed; they are exactly the non-empty explicit URIs and the '<image uri>.mcmeta' one when the image URI is not a data: URI; a non-empty texture mcmetaUri comes first |
| McmetaAnimator.PushAllFirst | tools/lt-3d-viewer/src/logic/mcmeta-texture-animator.js:208-218 | a non-empty first text pushed onto an empty list stays first |
| McmetaAnimator.CandidatesTrimmed | tools/lt-3d-viewer/src/logic/mcmeta-texture-animator.js:218-226 | every candidate pushed is already its own trim |
| McmetaAnimator.McmetaTrimmed | tools/lt-3d-viewer/src/logic/mcmeta-texture-animator.js:225 | appending '.mcmeta' to a trimmed non-empty URI gives a trimmed text |
| McmetaAnimator.SlashesForward | tools/lt-3d-viewer/src/logic/mcmeta-texture-animator.js:305 | replaceAll turns every backslash into '/' and leaves every other character, so no backslash remains |
| McmetaAnimator.RootedPath | tools/lt-3d-viewer/src/logic/mcmeta-texture-animator.js:315-321 | the path always starts with '/' |
| McmetaAnimator.NormalizeFilePath | tools/lt-3d-viewer/src/logic/mcmeta-texture-animator.js:299-324 | a blank value has no path; any path returned starts with '/' |
| McmetaAnimator.NormalizeFilePathLocal | tools/lt-3d-viewer/src/logic/mcmeta-texture-animator.js:299-324 | a path that is not an http(s) URL has no backslash, loses a leading './', and is rooted with '/' unless it already is |
| McmetaAnimator.RootedPathCases | tools/lt-3d-viewer/src/logic/mcmeta-texture-animator.js:315-321 | './x' becomes '/x', '/x' stays, anything else gains a leading '/', and no backslash appears |
| McmetaAnimator.NormalizeFilePathIdempotent | tools/lt-3d-viewer/src/logic/mcmeta-texture-animator.js:299-324 | a path already rooted, slash-normalised and trimmed normalises to itself |
| McmetaAnimator.RootedNotHttp | tools/lt-3d-viewer/src/logic/mcmeta-texture-animator.js:858-860 | a text starting with '/' is no absolute http(s) URL |
| McmetaAnimator.HexDigitValue | tools/lt-3d-viewer/src/logic/mcmeta-texture-animator.js:579-581 | a hex digit of either case has a value below 16, the same as the lower-case digit's |
| McmetaAnimator.HexValue | tools/lt-3d-viewer/src/logic/mcmeta-texture-animator.js:581 | parseInt base 16 of n hex digits lies in [0, 16^n) |
| McmetaAnimator.HexColorDigits | tools/lt-3d-viewer/src/logic/mcmeta-texture-animator.js:580 | a matching text less its optional '#' is six hex digits |
| McmetaAnimator.ChannelsOf | tools/lt-3d-viewer/src/logic/mcmeta-texture-animator.js:570-575 | the three bytes of a 24-bit colour, each divided by 255, lie in [0, 1] |
| McmetaAnimator.ArrayChannels | tools/lt-3d-viewer/src/logic/mcmeta-texture-animator.js:558-560 | three finite numbers are read only from an array of at least three items |
| McmetaAnimator.ScaledColor | tools/lt-3d-viewer/src/logic/mcmeta-texture-animator.js:561-565 | three finite numbers are divided by 255 when one exceeds 1 and taken as they are otherwise, each clamped into [0, 1] |
| McmetaAnimator.HexColor | tools/lt-3d-viewer/src/logic/mcmeta-texture-animator.js:578-589 | a colour is read exactly when the text matches /^#?[0-9a-fA-F]{6}$/ |
| McmetaAnimator.NormalizeColorFactor | tools/lt-3d-viewer/src/logic/mcmeta-texture-animator.js:557-592 | every colour returned has channels in [0, 1]; there is none exactly when the value is no array of three finite numbers, no integer and no six-digit hex text |
| McmetaAnimator.ChannelsRecompose | tools/lt-3d-viewer/src/logic/mcmeta-texture-animator.js:570-575 | the channels of a 24-bit colour give back its three bytes and so the colour |
| McmetaAnimator.IntegerColor | tools/lt-3d-viewer/src/logic/mcmeta-texture-animator.js:569-576 | an integer number is read modulo 2^24, whatever its sign |
| McmetaAnimator.HexDigitsValue | tools/lt-3d-viewer/src/logic/mcmeta-texture-animator.js:581 | parseInt base 16 reads back the hex digits of a number |
| McmetaAnimator.HexAndIntegerAgree | tools/lt-3d-viewer/src/logic/mcmeta-texture-animator.js:569-589 | a colour written as '#rrggbb', as 'rrggbb' or as its integer gives the same factor |
| McmetaAnimator.IntegerColorBelow | tools/lt-3d-viewer/src/logic/mcmeta-texture-animator.js:569-576 | an integer already below 2^24 is its own colour |
| McmetaAnimator.HexForms | tools/lt-3d-viewer/src/logic/mcmeta-texture-animator.js:578-589 | six hex digits with or without '#' give the colour of their value |
| McmetaAnimator.SixDigitTexts | tools/lt-3d-viewer/src/logic/mcmeta-texture-animator.js:579-580 | six hex digits match the pattern with and without '#', and the digits are read back |
| McmetaAnimator.HexColorText | tools/lt-3d-viewer/src/logic/mcmeta-texture-animator.js:578-589 | a matching text yields the channels of the value of its six digits |
| McmetaAnimator.ByteArrayColor | tools/lt-3d-viewer/src/logic/mcmeta-texture-animator.js:558-564 | three bytes given as an array, one above 1, are each divided by 255 |
| McmetaAnimator.PackedChannels | tools/lt-3d-viewer/src/logic/mcmeta-texture-animator.js:570-575 | packing three bytes into 24 bits and reading the channels gives the bytes back over 255 |
| McmetaAnimator.ArrayAndIntegerAgree | tools/lt-3d-viewer/src/logic/mcmeta-texture-animator.js:557-576 | three bytes as an array, one above 1, give the same colour as the integer they pack into |
| LtTextureExport.JavaTrimmed | addons/littletiles-parity-exporter/src/main/java/dev/rvveber/littletiles/parityexporter/LtTextureExportCommand.java:263 | the trimmed text of a possibly null value has nothing left to trim |
| LtTextureExport.DropTrailingEmpty | addons/littletiles-parity-exporter/src/main/java/dev/rvveber/littletiles/parityexporter/LtTextureExportCommand.java:278 | `String.split` keeps a prefix of the pieces that ends in a non-empty piece, and every piece it drops is empty |
| LtTextureExport.JavaSplit | addons/littletiles-parity-exporter/src/main/java/dev/rvveber/littletiles/parityexporter/LtTextureExportCommand.java:278 | a text without the separator splits into itself alone |
| LtTextureExport.JavaSplitJoin | addons/littletiles-parity-exporter/src/main/java/dev/rvveber/littletiles/parityexporter/LtTextureExportCommand.java:278 | splitting the join of separator-free pieces whose last piece is non-empty gives the pieces back |
| LtTextureExport.NormalizeBlockId | addons/littletiles-parity-exporter/src/main/java/dev/rvveber/littletiles/parityexporter/LtTextureExportCommand.java:262-271 | the normalised block id is never empty and always holds a colon |
| LtTextureExport.NormalizeBlockIdDefaults | addons/littletiles-parity-exporter/src/main/java/dev/rvveber/littletiles/parityexporter/LtTextureExportCommand.java:263-269 | a null or blank id becomes `minecraft:air`, and a trimmed id without a colon gets `minecraft:` in front |
| LtTextureExport.NormalizeBlockIdStripsMeta | addons/littletiles-parity-exporter/src/main/java/dev/rvveber/littletiles/parityexporter/LtTextureExportCommand.java:266-267 | an id `ns:path:meta` with an integer meta (optional minus sign) loses its `:meta` |
| LtTextureExport.NormalizeBlockIdKeepsNamespacedId | addons/littletiles-parity-exporter/src/main/java/dev/rvveber/littletiles/parityexporter/LtTextureExportCommand.java:270 | an already trimmed `ns:path` id is kept as it is |
| LtTextureExport.PropertyEntryClean | addons/littletiles-parity-exporter/src/main/java/dev/rvveber/littletiles/parityexporter/LtTextureExportCommand.java:280-289 | an entry that parses gives a non-empty, trimmed key without `=` and a non-empty, trimmed value |
| LtTextureExport.ParseStateProperties | addons/littletiles-parity-exporter/src/main/java/dev/rvveber/littletiles/parityexporter/LtTextureExportCommand.java:273-292 | the loop over the comma-separated entries returns exactly the property map of the text, and nothing for a null or blank text |
| LtTextureExport.PropertiesOfSpec | addons/littletiles-parity-exporter/src/main/java/dev/rvveber/littletiles/parityexporter/LtTextureExportCommand.java:277-290 | every parsed key has a clean value; every entry that parses puts its key in the map; every key in the map comes from an entry that gave that key and value |
| LtTextureExport.PropertiesOfLastWins | addons/littletiles-parity-exporter/src/main/java/dev/rvveber/littletiles/parityexporter/LtTextureExportCommand.java:289 | when a key appears in several entries, the map holds the value of the last one |
| LtTextureExport.PairTexts | addons/littletiles-parity-exporter/src/main/java/dev/rvveber/littletiles/parityexporter/LtTextureExportCommand.java:301-306 | the canonical text holds one `key=value` piece per key, in the order given |
| LtTextureExport.CanonicalStateString | addons/littletiles-parity-exporter/src/main/java/dev/rvveber/littletiles/parityexporter/LtTextureExportCommand.java:294-309 | a state with no properties is the block id alone; otherwise it is the block id, `[`, the comma-joined `key=value` pairs and `]` |
| LtTextureExport.PropertyTextRoundTrip | addons/littletiles-parity-exporter/src/main/java/dev/rvveber/littletiles/parityexporter/LtTextureExportCommand.java:273-309 | parsing the canonical property text of a printable property map gives back that map |
| LtTextureExport.KeysRoundTrip | addons/littletiles-parity-exporter/src/main/java/dev/rvveber/littletiles/parityexporter/LtTextureExportCommand.java:278-306 | parsing the comma-joined `key=value` pairs of all keys, in any order without repeats, gives back the map |
| LtTextureExport.PairsParse | addons/littletiles-parity-exporter/src/main/java/dev/rvveber/littletiles/parityexporter/LtTextureExportCommand.java:279-290 | the pairs written for a list of clean keys parse back to the map restricted to those keys |
| LtTextureExport.PropertiesOfSnoc | addons/littletiles-parity-exporter/src/main/java/dev/rvveber/littletiles/parityexporter/LtTextureExportCommand.java:289 | one more entry that parses to a key and value overwrites that key in the map |
| LtTextureExport.NormalizeNamespace | addons/littletiles-parity-exporter/src/main/java/dev/rvveber/littletiles/parityexporter/LtTextureExportCommand.java:467-470 | a normalised namespace is non-empty and lower-case |
| LtTextureExport.NormalizePath | addons/littletiles-parity-exporter/src/main/java/dev/rvveber/littletiles/parityexporter/LtTextureExportCommand.java:472-477 | a normalised path is non-empty |
| LtTextureExport.MakeResourceId | addons/littletiles-parity-exporter/src/main/java/dev/rvveber/littletiles/parityexporter/LtTextureExportCommand.java:437-440 | the record constructor leaves a non-empty lower-case namespace and a non-empty path |
| LtTextureExport.NormalizeNamespaceIdempotent | addons/littletiles-parity-exporter/src/main/java/dev/rvveber/littletiles/parityexporter/LtTextureExportCommand.java:467-470 | normalising a normalised namespace changes nothing |
| LtTextureExport.ParseResourceId | addons/littletiles-parity-exporter/src/main/java/dev/rvveber/littletiles/parityexporter/LtTextureExportCommand.java:442-460 | a parsed id always has a non-empty lower-case namespace and a non-empty path, and a null text is `air` in the default namespace |
| LtTextureExport.ParseWithoutNamespace | addons/littletiles-parity-exporter/src/main/java/dev/rvveber/littletiles/parityexporter/LtTextureExportCommand.java:451-453 | a trimmed text without a colon or `#` is a path in the default namespace |
| LtTextureExport.ParseWithoutColon | addons/littletiles-parity-exporter/src/main/java/dev/rvveber/littletiles/parityexporter/LtTextureExportCommand.java:445-453 | a trimmed text that does not start with `#` and has no colon is the path in the default namespace |
| LtTextureExport.ParseAtColon | addons/littletiles-parity-exporter/src/main/java/dev/rvveber/littletiles/parityexporter/LtTextureExportCommand.java:451-459 | a text with a colon splits at its first colon into namespace and path |
| LtTextureExport.ResourceIdRoundTrip | addons/littletiles-parity-exporter/src/main/java/dev/rvveber/littletiles/parityexporter/LtTextureExportCommand.java:442-465 | parsing the text `namespace:path` of a canonical id gives the same id back, whatever the default namespace |
| LtTextureExport.CanonicalParts | addons/littletiles-parity-exporter/src/main/java/dev/rvveber/littletiles/parityexporter/LtTextureExportCommand.java:467-477 | a trimmed lower-case namespace and a trimmed path without a leading `/` are unchanged by normalisation |
| LtTextureExport.StateNameOf | addons/littletiles-parity-exporter/src/main/java/dev/rvveber/littletiles/parityexporter/LtTextureExportCommand.java:249 | the state name is never longer than the state text |
| LtTextureExport.ParseBlockStateRef | addons/littletiles-parity-exporter/src/main/java/dev/rvveber/littletiles/parityexporter/LtTextureExportCommand.java:242-260 | the parsed state is non-empty, its block id is `namespace:path`, and its canonical state is the canonical string of that id and its properties |
| LtTextureExport.CanonicalStateRoundTrip | addons/littletiles-parity-exporter/src/main/java/dev/rvveber/littletiles/parityexporter/LtTextureExportCommand.java:242-309 | parsing the canonical state string of a canonical id and printable properties gives back the same id, the same properties and the same canonical string |
| LtTextureExport.StateOfParts | addons/littletiles-parity-exporter/src/main/java/dev/rvveber/littletiles/parityexporter/LtTextureExportCommand.java:242-259 | a state whose name and bracketed text parse to an id and a property map gives a reference with that id, those properties and their canonical string |
| LtTextureExport.BareStateParts | addons/littletiles-parity-exporter/src/main/java/dev/rvveber/littletiles/parityexporter/LtTextureExportCommand.java:247-252 | a state without brackets is all name and has no property text |
| LtTextureExport.BracketedStateParts | addons/littletiles-parity-exporter/src/main/java/dev/rvveber/littletiles/parityexporter/LtTextureExportCommand.java:247-252 | `name[body]` splits into the name and the body between the first `[` and the last `]` |
| LtTextureExport.CanonicalIdBlockId | addons/littletiles-parity-exporter/src/main/java/dev/rvveber/littletiles/parityexporter/LtTextureExportCommand.java:262-270 | the text of a canonical id without a metadata suffix is its own normalised block id |
| LtTextureExport.AlternativesMatch | addons/littletiles-parity-exporter/src/main/java/dev/rvveber/littletiles/parityexporter/LtTextureExportCommand.java:895-902 | an expected value `a|b|…` matches exactly the actual values that are one of the alternatives |
| LtTextureExport.VariantMatchesState | addons/littletiles-parity-exporter/src/main/java/dev/rvveber/littletiles/parityexporter/LtTextureExportCommand.java:827-847 | the loop over the comma-separated clauses returns exactly whether the variant key matches: true for a null or blank key, false for a malformed clause or a missing property, and otherwise whether every clause value matches |
| LtTextureExport.VariantOfOwnState | addons/littletiles-parity-exporter/src/main/java/dev/rvveber/littletiles/parityexporter/LtTextureExportCommand.java:827-847 | the canonical property text of a state is a variant key that matches that state |
| LtTextureExport.VariantOfKeys | addons/littletiles-parity-exporter/src/main/java/dev/rvveber/littletiles/parityexporter/LtTextureExportCommand.java:827-847 | the `key=value` pairs of any list of the state's keys make a variant key that matches the state |
| LtTextureExport.OwnClauseMatches | addons/littletiles-parity-exporter/src/main/java/dev/rvveber/littletiles/parityexporter/LtTextureExportCommand.java:835-844 | a clause `key=value` taken from the state matches it |
| LtTextureExport.VariantMissingProperty | addons/littletiles-parity-exporter/src/main/java/dev/rvveber/littletiles/parityexporter/LtTextureExportCommand.java:835-842 | a variant key with a well-formed clause whose key the state lacks does not match |
| LtTextureExport.EmptyWhenMatches | addons/littletiles-parity-exporter/src/main/java/dev/rvveber/littletiles/parityexporter/LtTextureExportCommand.java:881-892 | an empty `when` object matches every state |
| LtTextureExport.SingleAlternative | addons/littletiles-parity-exporter/src/main/java/dev/rvveber/littletiles/parityexporter/LtTextureExportCommand.java:857-879 | an `OR` or an `AND` of a single condition holds exactly when that condition holds |
| LtTextureExport.WhenMissingProperty | addons/littletiles-parity-exporter/src/main/java/dev/rvveber/littletiles/parityexporter/LtTextureExportCommand.java:881-887 | a plain `when` object that names a property the state lacks does not match |
| LtTextureExport.WhenOfOwnState | addons/littletiles-parity-exporter/src/main/java/dev/rvveber/littletiles/parityexporter/LtTextureExportCommand.java:881-892 | a plain `when` object whose values are the state's own values matches the state |
| LtTextureExport.ResolveTextureRefLoop | addons/littletiles-parity-exporter/src/main/java/dev/rvveber/littletiles/parityexporter/LtTextureExportCommand.java:904-918 | the while loop over `#key` references, with its visited set, returns exactly the resolved reference of the specification |
| LtTextureExport.ResolveFromSpec | addons/littletiles-parity-exporter/src/main/java/dev/rvveber/littletiles/parityexporter/LtTextureExportCommand.java:907-917 | a reference resolved from a trimmed text is non-empty, trimmed and does not start with `#`, and it is the text itself or the trimmed value of a texture key |
| LtTextureExport.ResolveTextureRefSpec | addons/littletiles-parity-exporter/src/main/java/dev/rvveber/littletiles/parityexporter/LtTextureExportCommand.java:904-918 | a resolved reference is non-empty, trimmed and does not start with `#`, and it is the trimmed reference or the trimmed value of a texture key |
| LtTextureExport.SelfReference | addons/littletiles-parity-exporter/src/main/java/dev/rvveber/littletiles/parityexporter/LtTextureExportCommand.java:908-911 | a key whose value refers back to the key resolves to nothing |
| LtTextureExport.OneHop | addons/littletiles-parity-exporter/src/main/java/dev/rvveber/littletiles/parityexporter/LtTextureExportCommand.java:908-917 | a reference to a key whose value is a plain texture resolves to that texture |
| LtTextureExport.OutputFileName | addons/littletiles-parity-exporter/src/main/java/dev/rvveber/littletiles/parityexporter/LtTextureExportCommand.java:418-424 | the output name always ends with the suffix |
| LtTextureExport.TexturesFileName | addons/littletiles-parity-exporter/src/main/java/dev/rvveber/littletiles/parityexporter/LtTextureExportCommand.java:418-424 | the texture report name ends with `.textures.json` |
| LtTextureExport.NoExtension | addons/littletiles-parity-exporter/src/main/java/dev/rvveber/littletiles/parityexporter/LtTextureExportCommand.java:419-423 | a name without a dot keeps all of it before the suffix |
| LtTextureExport.ReplacesLastExtension | addons/littletiles-parity-exporter/src/main/java/dev/rvveber/littletiles/parityexporter/LtTextureExportCommand.java:419-423 | the last extension of a name with a non-blank base is replaced by the suffix, and only the last one |
| LtTextureExport.LeadingDotKept | addons/littletiles-parity-exporter/src/main/java/dev/rvveber/littletiles/parityexporter/LtTextureExportCommand.java:419-423 | a name whose only dot is its first character is kept whole |
| LtDebugExport.GeometryModeFromArg | addons/littletiles-parity-exporter/src/main/java/dev/rvveber/littletiles/parityexporter/LtDebugExportCommand.java:72-79 | a mode is read exactly when the trimmed, lower-cased argument is `client` or `server`, and it is the mode of that id; null and anything else give none |
| LtDebugExport.GeometryModeIds | addons/littletiles-parity-exporter/src/main/java/dev/rvveber/littletiles/parityexporter/LtDebugExportCommand.java:62-79 | each mode's own id reads back as that mode, and a null argument reads as no mode |
| LtDebugExport.Span | addons/littletiles-parity-exporter/src/main/java/dev/rvveber/littletiles/parityexporter/LtDebugExportCommand.java:471-472 | a span is never negative, and it is zero exactly when the box's maximum on the axis is not above its minimum |
| LtDebugExport.EstimateFaceCellCount | addons/littletiles-parity-exporter/src/main/java/dev/rvveber/littletiles/parityexporter/LtDebugExportCommand.java:470-474 | the estimate is never negative, and it is zero exactly when one of the two in-plane spans is zero |
| LtDebugExport.OppositeFacesSameEstimate | addons/littletiles-parity-exporter/src/main/java/dev/rvveber/littletiles/parityexporter/LtDebugExportCommand.java:470-474 | opposite facings of a box get the same cell estimate |
| LtDebugExport.EstimateCountsFullFace | addons/littletiles-parity-exporter/src/main/java/dev/rvveber/littletiles/parityexporter/LtDebugExportCommand.java:470-474 | the estimate equals the filled-cell count of a fully covered grid of the face's two spans |
| LtDebugExport.OutsideAgreesWithCandidates | addons/littletiles-parity-exporter/src/main/java/dev/rvveber/littletiles/parityexporter/LtDebugExportCommand.java:476-479 | the exporter's outside test is the same as the importer's outside test on the face candidate of that box side |
| LtDebugExport.OutsideIffOnBoundary | addons/littletiles-parity-exporter/src/main/java/dev/rvveber/littletiles/parityexporter/LtDebugExportCommand.java:476-479 | for a box inside the grid, a face is outside exactly when it lies on the grid's lower or upper boundary on its axis |
| LtDebugExport.RowCount | addons/littletiles-parity-exporter/src/main/java/dev/rvveber/littletiles/parityexporter/LtDebugExportCommand.java:630-633 | a row never counts more filled cells than it has |
| LtDebugExport.CountFilledCells | addons/littletiles-parity-exporter/src/main/java/dev/rvveber/littletiles/parityexporter/LtDebugExportCommand.java:626-635 | the nested loop returns exactly the number of true cells, and zero for a missing or empty array |
| LtDebugExport.RowCountZero | addons/littletiles-parity-exporter/src/main/java/dev/rvveber/littletiles/parityexporter/LtDebugExportCommand.java:631-633 | a row counts zero exactly when none of its cells is filled |
| LtDebugExport.GridCountBounds | addons/littletiles-parity-exporter/src/main/java/dev/rvveber/littletiles/parityexporter/LtDebugExportCommand.java:626-635 | the count never exceeds the number of cells, and it is zero exactly when no cell is filled |
| LtDebugExport.FullGrid | addons/littletiles-parity-exporter/src/main/java/dev/rvveber/littletiles/parityexporter/LtDebugExportCommand.java:626-635 | a full grid has the given number of rows, each of the given length and all filled |
| LtDebugExport.FullGridCount | addons/littletiles-parity-exporter/src/main/java/dev/rvveber/littletiles/parityexporter/LtDebugExportCommand.java:626-635 | every cell of an n-by-m full grid is counted: the count is n·m |
| LtDebugExport.MakeCacheDebug | addons/littletiles-parity-exporter/src/main/java/dev/rvveber/littletiles/parityexporter/LtDebugExportCommand.java:895-925 | missing snapshots read as the empty snapshot; the overall mismatch holds exactly when the two snapshots differ; the generateFace and set mismatches hold exactly when their two flags differ; the field mismatches agree with the snapshots |
| LtDebugExport.FieldMismatchesReadBack | addons/littletiles-parity-exporter/src/main/java/dev/rvveber/littletiles/parityexporter/LtDebugExportCommand.java:909-944 | reading back the `fieldMismatches` object of a consistent record finds a true field exactly when the overall mismatch is set |
| LtDebugExport.RenderableStates | addons/littletiles-parity-exporter/src/main/java/dev/rvveber/littletiles/parityexporter/LtDebugExportCommand.java:812-814 | a face is renderable exactly when its state is one of the four partially covered or uncovered states |
| LtDebugExport.RenderableReadBack | addons/littletiles-parity-exporter/src/main/java/dev/rvveber/littletiles/parityexporter/LtDebugExportCommand.java:812-822 | the `renderable` flag of a face agrees with what the viewer derives from its written `state` and `coveredFully` fields |
| LtDebugExport.FaceCells | addons/littletiles-parity-exporter/src/main/java/dev/rvveber/littletiles/parityexporter/LtDebugExportCommand.java:793 | the cell count of a face is never negative, and for a well-formed face it is the product of its two extents |
| LtDebugExport.UnloadedEvaluation | addons/littletiles-parity-exporter/src/main/java/dev/rvveber/littletiles/parityexporter/LtDebugExportCommand.java:783-785 | an unloaded evaluation has reason `face_unloaded`, no cells, and is neither renderable nor outside |
| LtDebugExport.OutsideEvaluation | addons/littletiles-parity-exporter/src/main/java/dev/rvveber/littletiles/parityexporter/LtDebugExportCommand.java:787-795 | an outside evaluation keeps the given state and reason, counts the face's cells and no filled cells |
| LtDebugExport.InsideEvaluation | addons/littletiles-parity-exporter/src/main/java/dev/rvveber/littletiles/parityexporter/LtDebugExportCommand.java:797-800 | an inside evaluation has reason `inside_uncovered`, counts the face's cells, no filled cells, and is renderable and inside |
| LtDebugExport.OutsideCount | addons/littletiles-parity-exporter/src/main/java/dev/rvveber/littletiles/parityexporter/LtDebugExportCommand.java:977-978 | no more faces are outside than were recorded |
| LtDebugExport.InsideCount | addons/littletiles-parity-exporter/src/main/java/dev/rvveber/littletiles/parityexporter/LtDebugExportCommand.java:979-980 | no more faces are inside than were recorded |
| LtDebugExport.RenderableCount | addons/littletiles-parity-exporter/src/main/java/dev/rvveber/littletiles/parityexporter/LtDebugExportCommand.java:981-982 | no more faces are renderable than were recorded |
| LtDebugExport.InsideOutsidePartition | addons/littletiles-parity-exporter/src/main/java/dev/rvveber/littletiles/parityexporter/LtDebugExportCommand.java:977-980 | every recorded face is counted as inside or as outside, never both |
| LtDebugExport.StateCountsSum | addons/littletiles-parity-exporter/src/main/java/dev/rvveber/littletiles/parityexporter/LtDebugExportCommand.java:974 | the per-state counts add up to the number of recorded faces |
| LtDebugExport.FacingCountsSum | addons/littletiles-parity-exporter/src/main/java/dev/rvveber/littletiles/parityexporter/LtDebugExportCommand.java:975 | the per-facing counts add up to the number of recorded faces |
| LtDebugExport.ReasonCountPositive | addons/littletiles-parity-exporter/src/main/java/dev/rvveber/littletiles/parityexporter/LtDebugExportCommand.java:976 | a reason has a positive count exactly when some recorded face gave it |
| LtDebugExport.CountedInitially | addons/littletiles-parity-exporter/src/main/java/dev/rvveber/littletiles/parityexporter/LtDebugExportCommand.java:965-970 | the initial maps hold a zero for every state and facing and no reason, which are the counts of no faces |
| LtDebugExport.CountedStep | addons/littletiles-parity-exporter/src/main/java/dev/rvveber/littletiles/parityexporter/LtDebugExportCommand.java:972-983 | recording one face adds one to its state, its facing and its reason, and one to the outside or inside count and to the renderable count when it applies |
| LtDebugExport.FaceStateSummary.constructor | addons/littletiles-parity-exporter/src/main/java/dev/rvveber/littletiles/parityexporter/LtDebugExportCommand.java:965-970 | a new summary has no faces, all counters zero, every state and facing at zero and no reasons |
| LtDebugExport.FaceStateSummary.Record | addons/littletiles-parity-exporter/src/main/java/dev/rvveber/littletiles/parityexporter/LtDebugExportCommand.java:972-983 | recording a face adds it to the recorded faces and one to the total; the outside, inside and renderable counters grow by one exactly when the face is so; the state, facing and reason maps stay equal to the counts over all recorded faces |
| LtDebugExport.Flagged | addons/littletiles-parity-exporter/src/main/java/dev/rvveber/littletiles/parityexporter/LtDebugExportCommand.java:1014-1024 | no more faces are flagged than were evaluated |
| LtDebugExport.Capped | addons/littletiles-parity-exporter/src/main/java/dev/rvveber/littletiles/parityexporter/LtDebugExportCommand.java:1028-1031 | the kept samples are the first SAMPLE_LIMIT (16) flagged faces, or all of them when there are fewer |
| LtDebugExport.AddSampleKeepsFirst | addons/littletiles-parity-exporter/src/main/java/dev/rvveber/littletiles/parityexporter/LtDebugExportCommand.java:1028-1031 | adding a sample to the capped list is the same as capping the list with the sample appended: the first sixteen are kept |
| LtDebugExport.FlaggedStep | addons/littletiles-parity-exporter/src/main/java/dev/rvveber/littletiles/parityexporter/LtDebugExportCommand.java:1009-1025 | evaluating one more face appends its location to the flagged list and to the samples, while there is room, exactly when its cache shows that mismatch |
| LtDebugExport.KindCountedBounds | addons/littletiles-parity-exporter/src/main/java/dev/rvveber/littletiles/parityexporter/LtDebugExportCommand.java:1028-1031 | a mismatch kept in step has at most sixteen samples, no more samples than flagged faces and no more flagged faces than evaluated ones |
| LtDebugExport.KindCountedStep | addons/littletiles-parity-exporter/src/main/java/dev/rvveber/littletiles/parityexporter/LtDebugExportCommand.java:1013-1025 | one more evaluated face keeps each mismatch counter and its samples equal to the flagged count and the first sixteen flagged locations |
| LtDebugExport.TransformableDiagnosticsSummary.constructor | addons/littletiles-parity-exporter/src/main/java/dev/rvveber/littletiles/parityexporter/LtDebugExportCommand.java:998-1007 | a new summary has evaluated no face and holds no samples |
| LtDebugExport.TransformableDiagnosticsSummary.Record | addons/littletiles-parity-exporter/src/main/java/dev/rvveber/littletiles/parityexporter/LtDebugExportCommand.java:1009-1025 | a face without a transformable cache changes nothing; otherwise it is evaluated, and each mismatch counter equals the number of evaluated faces with that mismatch while its samples are the first sixteen of their locations |
| LtDebugExport.DebugFileName | addons/littletiles-parity-exporter/src/main/java/dev/rvveber/littletiles/parityexporter/LtDebugExportCommand.java:651-657 | the debug report name always ends with `.json` |
| LtDebugExport.ReportsShareBase | addons/littletiles-parity-exporter/src/main/java/dev/rvveber/littletiles/parityexporter/LtDebugExportCommand.java:651-657 | the debug report and the texture report of one input file share the same base name |

## Left out

- Float32 rounding (`Math.fround`) and IEEE-754 behaviour are left out. Geometry is over exact reals, so near-zero sign decisions can differ from the source.
- `Math.hypot` is replaced by an upward bisection square root. Comparisons against a length (`len <= EPSILON`, `|denom| <= EPSILON`) are stated on squares, which is exact over the reals.
- NaN components are modelled as `None`. Only `normalizeVec` of the zero vector and `Number()` of a non-numeric value produce them.
- File, console and process I/O are left out, as are the WebGL viewer, the `URL` class and the SNBT (mojangson) text parser. The model starts from already-parsed values.
- Json.StringToNumber: `Number()` reads decimal literals with a fraction and an exponent and `0x`/`0o`/`0b` literals as exact reals; floating-point rounding and overflow (`1e400`, fractions beyond double precision) are not modelled, `Infinity` is taken as NaN (the core reads every `Number()` result through Number.isInteger or Number.isFinite, which reject both), and a non-empty array gives NaN although JavaScript reads a one-element array through its text. ParityIo.ParsePositiveIntArg inherits these limits.
- JSON object key order is not kept (objects are maps).
- String lower-casing is ASCII only. There is no Unicode case folding or normalisation.
- `blockIdPathTokens` splits on single separator characters, where the source splits on runs (`/[_./-]+/`). The non-empty tokens are the same, and an empty token never matches a translucent or leaves token, so `inferTranslucent` and `isLeavesBlockId` agree.
- `normalizeTilesForRendering` takes typed raw tiles (`RawTile`, `RawBox`), not arbitrary JSON.
  - `String(tile.blockState)` of a non-string value is not modelled.
  - `Array.isArray(tile.boxes)` of a non-array is modelled as an empty box list.
- World bounds are exact quotients `raw / grid`. The source multiplies by `1 / grid` in double precision.
- Grids are positive integers by type (`PositiveInt`). The source's branches for a non-positive ratio in `convertRawCoord` are therefore unreachable and not modelled.
- `getTransformableRenderCache` memoises into the box, which the model returns as an updated box value rather than mutating a shared object. Aliasing of one box between tiles is not captured.
- Candidate building for transformable boxes is modelled with the cache already primed. This is equivalent because the source's lazy computation is deterministic.
- `computeFaceCoverage` uses a `Uint8Array`; the model uses a Dafny `array<bool>` of the same size and index layout.
- `collectTransformableDiagnostics` (`transformable-cache.mjs:88-119`) only counts raw and degenerate polygons for a debug report and is not part of this model.
- `hasStaticExternalNeighbour` always answers false (no world context). It is kept as a constant predicate.
- TransformableRender.ClipToBox: states only that a missing strip stays missing and that a result has three or more vertices. The clipped shape itself is given by `ClipPolygonByPlane` one plane at a time. TiltOf, and with it TiltFace and TiltedPass, therefore pins the unclipped strips but says of the stored strips only that they exist where the unclipped ones do.
- TransformableRender.CutAxisStripsSingle: each clip is stated by the contract of `ClipPolygonByPlane` (ClipOutcome). That contract fixes the result for a strip wholly behind or wholly in front of the plane. For a strip the plane crosses, it says only that every vertex is a kept vertex or a point on the plane. The same holds for every cut that AxisCut, RawCachesOf and GetTransformableRenderCache describe.
- TransformableRender.DualCutPieces: the overlap test and the fan pieces are stated only by the contracts of `PolygonIntersect2d` and `PolygonCut2d`. Clips that coincide or are nested count as overlapping; any other pair may go either way. Each fan piece is the first clip or renderable.
- PolygonOps.ClipPolygonByPlane: for a polygon that straddles the plane, the contract states only that every output vertex is an input vertex not in front of the plane, or a point on the plane. Vertex order is not stated.
- PolygonOps.PlaneIntersectSegment: states only that the point lies on the plane. When it is None (a segment shorter than EPSILON, or one within EPSILON of parallel to the plane) is left to the body.
- Polygon2d.PolygonIntersect2d: states the cases that decide true (cyclic equality, containment either way), not the edge-crossing cases.
- Polygon2d.PolygonCut2d: states piece counts and that pieces are renderable or the input, not their shape.
- The string keys of `dedupeExactFaces` and seam buckets are modelled as records (`DedupeKey`, `SeamKey`). The joined strings are injective on these fields, because only the block id can contain the `|` separator and it comes first.
- Polygon keys sort quantised points in lexicographic integer order, where the source sorts their decimal strings. Key equality, which is all the passes use, is the same.
- `quantizeCoord` is modelled as an integer number of micro-units (exact reals). Its `-0` to `'0'` case is implied; the NaN case cannot arise on exact reals.
- Visible faces are typed records, so the `?? ''`, `Number.isInteger(face.color)` and `Array.isArray` fallbacks of the key builders are not modelled.
- Seam buckets are visited in map order in the source. Since the removed set is a union, order does not matter and the model picks keys in any order.
- The render caches of transformable boxes are primed for all tiles before iterating, where the source fills its memo on first use. The computation is deterministic, so the records are the same; the yielded `tile` and `box` are the primed values.
- buildVisibleFaces passes no `geometryMode` in the inner options, so its candidates are always evaluated in client mode, while tilted-only faces follow the caller's mode. The model keeps this as written (`FaceCandidates.VisibleFacesSettings`).
- FaceCandidates.VisibleAxisPolys: the polygons after `applyOccluders` are only stated to be axis polygons or renderable pieces, because `applyOccluders` itself is characterised that far.
- FaceCandidates.ProfileFlags: states only the null profile. The three switches are read by strict comparison (`=== 'air'`, `=== true`), as the body shows.
- `hasStaticExternalNeighbour` is false for every static structure, because there is no world around it. The model keeps the branch and passes only the facing, which is not read.
- Json.JsText: `String()` of a number is modelled only for integers below 10^21 in magnitude. Other numbers give no text and match no active prefix. This is exact for the built-in prefixes, which hold two dots that no number's text has.
- Profile ids that name `Object.prototype` members (`toString`, `__proto__`) find no entry in the model. In the source they find a non-enumerable object or a function, which the merge ignores, so the result is the same.
- A `__proto__` key inside a merged source is an ordinary key in the model. The source's assignment would change the prototype instead.
- SNBT text parsing (`snbt-parser.mjs`, `sanitizeSnbt`) is not part of this model: `LtImportParser` starts from the parsed value, and a failure to parse the text is not modelled.
- The text of `ParseError` messages, including their paths, is not modelled: an error is its kind.
- Compound keys are taken as distinct and walked in their stored order; JavaScript's rule that `Object.entries` lists integer-like keys first, in ascending order, is not modelled.
- LtImportParser.StructureId: a numeric id that is not an integer, or whose magnitude is 10^21 or more, gives no id here; JavaScript would format it as decimal or exponent text.
- LtImportParser.OldTileName: a meta of magnitude 10^21 or more is written in plain digits, where JavaScript would switch to exponent form.
- LtImportParser.ParseTileEntries: it collects each block state's tiles in a local list and appends that list afterwards, where the source appends each tile as it opens; the resulting order is the same.
- Block-state property keys are sorted in code-unit order. `localeCompare` uses locale collation, which can order mixed-case or non-ASCII keys differently.
- `resolveMaterial` receives typed faces, so the `?? 'minecraft:air'` and `String()` fallbacks and a non-integer `color` are not modelled; `blockId` is always given.
- The resolver's `alphaCutoff` (always null) and `textureKey` (always the URI) fields are not modelled.
- The material-resolver tests expect `MASK` with a 0.5 cutoff and a default texture URI for a textured solid tile without lookup tables. The code yields `OPAQUE` and no URI in that case. The model follows the code.
- `computePlanarFaceUvs` (`mesh-assembly.mjs:779-808`) needs square roots and finiteness checks of floating-point vectors; the planar projection is a parameter of `MeshAssembly` (`AssemblyOptions.planarUvs`).
- The material resolver is a parameter of `facesToPrimitiveMeshes` (`AssemblyOptions.resolve`), as in the source's `options.resolveMaterial`, with the material options folded into it; a resolver that answers nothing skips the face.
- OffsetTracks.SharedLoopTicksSpec: states that the shared loop is a common multiple, not that it is the least one.
- `Number.parseInt` of exponent or hexadecimal text is not modelled beyond the leading decimal digits, which is what it reads.
- Frame times and key times are exact rationals; the Float32 rounding of key times and offsets in the written buffer is not modelled.
- The Float32, Uint16 and Uint32 encoding of buffer contents, `concatChunks`, the JSON text of the document and the file writes are not modelled; a view records its numbers and their byte length.
- GltfWriter.MinMax3: starts from the first element instead of Infinity. The result is the same for any non-empty input, and an empty mesh is never drawn. MinMax2 does the same.
- GltfDocument.AddMesh: requires the position count to be a multiple of 3, which every assembled mesh has (`MeshAssembly.AssemblyMeshesValid`); the source would write a fractional accessor count otherwise.
- `toGltfMaterial`'s `MASK` branch and `alphaCutoff` are not modelled: the resolver only yields `OPAQUE` or `BLEND`.
- The texture `extras` object is modelled as its `minecraftAnimation` field only.
- TextureReport.TrimmedText: `String()` of a fractional number or one of 10^21 or more reads as blank, where JavaScript would give its decimal or exponent text.
- The files beside the report are a parameter (`LocalFiles`) keyed by the raw texture URI: `path.resolve`, the report directory and the file reads are not modelled, and a file that cannot be read or parsed is `None`.
- A string `textures` or `blockStates` value is taken as no entries; its characters carry none of the fields either loop reads, so the lookup is the same.
- collectFaceDebugSummaryFromVisibleFaces (`debug-stats.mjs:37-39`) returns summarizeFaceSet of its argument; it has no member of its own, `DebugStats.SummarizeFaceSet` stands for both.
- DebugStats.SummarizeFaceSet: faces are typed, so the guards that skip an unknown facing, box kind or face type (`debug-stats.mjs:13,16,19`) always pass and the skip is not modelled.
- ParityFaceStates: the byFacing objects are modelled as a record with one counter per facing; a facing text that names no facing adds to no facing counter, as `Object.hasOwn` on the six keys does.
- ParityFaceStates: a string used as a tile, box or group list is iterated character by character in the source; a character has no boxes, tiles or children, so the model lets such a list contribute nothing.
- The candidate collectors of `candidate-diff.mjs` (`collectStandaloneCandidateMultiset`, `collectDebugCandidateMultiset`, `buildParsedBoxMetaMap`, `walkGroupTree`) are not modelled: they feed the multiset by walking the same trees that `FaceCandidates` and `ParityFaceStates` model, and the model starts from `CandidateCounts` instead.
- The enrichment of diff samples in `candidate-diff.mjs` (`buildStandaloneFaceCacheIndex`, `buildDebugFaceStateContextIndex`, `addDebugFaceStateContext`, the two `enrichDiffEntries…` loops and `normalizeDebugTransformableCache`) is not modelled: it attaches diagnostic records to the samples by mutating them, and those records do not affect the keys, counts, totals or order of the diff.
- CandidateDiff.CandidateSignature: a signature is the array whose `JSON.stringify` text is the key; the text itself is not modelled, and the keys of `CandidateCounts` are taken as given strings.
- CandidateDiff.SignatureArray: an array holding a number whose text is not plain digits is kept as an array rather than joined, because number-to-text conversion is only modelled for integers.
- SchemaTreeCompare.SortByText: JSON.stringify is a parameter `text` of the model, not a serializer; the order-independence lemmas assume that text is injective, as JSON.stringify is on these records.
- SchemaTreeCompare.FirstDiff: the Object.is test on two objects compares identity; the model compares them structurally, which gives the same report because equal subtrees produce no difference; -0 and NaN do not occur in the model's numbers.
- SchemaTreeCompare.CanonicalGroupFromDebug: every JavaScript exception is the single TypeError; which element threw first is not recorded.
- `expandJsonInputs` (`parity/io.mjs`) is not modelled: it resolves paths and lists directories on the file system.
- The converter's `defaultOutputPath` and `defaultBinPath`, `path.resolve`, the file reads and the usage text are not modelled; `PlanRun` stops where the input would be read.
- The parity checker's `checkFile`, `buildFatalFileResult` and the reporting module are not modelled: `Summarize` takes each file's failure count as given.
- OccluderOps.CutPolygons2d: polygonCut2d and polygonIntersect2d are methods specified by their contracts, not by functions, so a polygon that is "left alone" is stated through the recorded outcomes of the calls. Only the first cutter's outcomes are recorded. With several cutters, the later rounds are covered only by the shape and distinctness properties.
- McmetaAnimator: the WebGL and canvas work of `mcmeta-texture-animator.js` is not modelled: `drawSample`, `drawFrame`, `uploadSample`, `uploadToTextureHandle`, `usesMipmaps` and `sampleDominantColorFromTopFrame`. Whether an upload succeeds is the parameter `uploads` of `Animator.Update`.
- McmetaAnimator.Animator.Attach: the asynchronous part of attach is not modelled. That covers the texture filter (TEXTURE_2D, integer source, image dimensions, byte-addressable MIME type), `resolveTextureMetadata`, `loadMcmetaText` with its fetch, `buildAdditionalFileIndex`, `findAdditionalFile` and `getImageDimensions`. Attach takes the animation each texture resolved to (`None` when it has none).
- The emissive half of `normalizeMcmetaMetadata` is not modelled: `normalizeEmissiveMetadata`, `applyEmissiveOverrides`, `cloneTextureInfo` and `normalizePositiveNumber`. They write into the viewer's glTF material objects. `normalizeColorFactor`, which they use, is modelled.
- `resolveResourceUri` and the `URL` class are not modelled. `NormalizeFilePath` takes the URL pathname reader as a parameter (`urlPathname`); `None` stands for a URL that does not parse.
- McmetaAnimator.KeyOf: `blend.toFixed(6)` is modelled as the blend in millionths rounded half up, and the key is a record rather than the joined text. Binary floating-point rounding at the sixth digit is not modelled.
- McmetaAnimator: numbers are exact reals, and a value that is not finite is `None` where the source tests `Number.isFinite`. `Number(state.animationTimer.elapsedSec())` is given as an `Option<real>`.
- McmetaAnimator.Animator: `hasActiveAnimations` and `needsContinuousRedraw` are predicates on the fields. The `state` argument is reduced to `hasGltf` and `paused`.
- LtTextureExport: the server command itself is not modelled: `register`, `executeBatch`, `processSingleFile`, `collectBlockStates` over a LittleTiles group, `inferDefaultTintColor`, `parseLegacyMetaSuffix`, the JSON builders and sorters, `resolvePath`, `TextureResolver` with its blockstate and model loading from the game's resources, and `collectModelRefs`. They read files and game state. The pure text rules they apply are modelled.
- LtTextureExport.JavaTrimmed: `String.trim` drops characters up to U+0020, and `isBlank` is read as "nothing left after trim"; Java's `isBlank` tests `Character.isWhitespace`, which differs on a few control and Unicode space characters.
- LtTextureExport.NormalizeNamespace: `toLowerCase(Locale.ROOT)` is modelled as ASCII lower-casing; Unicode case mapping is not modelled.
- LtTextureExport.WhenMatchesState: the blockstate `when` condition is an already-parsed JSON value; Gson parsing is not modelled.
- LtDebugExport: the game-side work of the debug command is not modelled: `register`, `executeBatch`, `processSingleFile`, `evaluateFace`, `evaluateClientTiltedOnlyFace`, `snapshotTransformableFaceCache` and `snapshotTransformableFaceCacheState`, the tile context collection, `resolvePath` and the JSON writers. They run LittleTiles and Minecraft code on a live server and write files. The counters, flags and file name they produce are modelled.
- LtDebugExport.FaceEvaluation: only the facing, state, reason, cell counts and cache record are kept; the tile counters (`evaluatedTiles`, `eligibleTiles` and the others) that `evaluateFace` fills are not modelled, nor is `toJson`. The `simple` factory is the datatype constructor.
- LtDebugExport.CacheDebug: the top-level copies of the current snapshot's fields (`axisStripCount`, `hasAxisStrip`, …) are not separate fields; they are `currentSnapshot`'s.
- LtDebugExport.EstimateFaceCellCount: the product of the two spans is unbounded; Java's 32-bit `int` overflow on spans past 46340 is not modelled, nor in `FaceCells`.
- LtDebugExport.CountFilledCells: `boolean[][]` is a sequence of rows, so a null row is not modelled.
- LtDebugExport.FaceStateSummary.Record: `byState` and `byFacing` use `get(...) + 1` on keys the constructor put in, and the model bumps them with a zero default (`Bump`); with every state and facing present from the start the two agree.
- LtDebugExport.TransformableDiagnosticsSummary.Record: the sample lists are sequence fields that the method reassigns; the Java `addSample` mutates the list passed to it, which is the same list each time.

## Findings

| source | as written | input that shows it | evidently intended | confidence | as-written member | corrected member |
|---|---|---|---|---|---|---|
| tools/lt-import-gltf-poc/src/gltf-writer/mesh-assembly.mjs:368-370 | `align4` rounds up with `(value + 3) & ~3`, which JavaScript evaluates in 32-bit signed arithmetic | a buffer of 2^31 − 3 bytes: `align4` gives −2^31, `addChunk` adds no padding and the next chunk starts at an offset that is 1 modulo 4 | round up to the next multiple of 4 at any size | low (needs a buffer of about 2 GiB); not executed | GltfWriter.Align4AsWrittenOverflows | GltfWriter.BinaryBuffer.AddChunk |
