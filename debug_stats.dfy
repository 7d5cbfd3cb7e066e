/**
 * The debug summaries of `debug-stats.mjs`: per-facing, per-box-kind,
 * per-face-type and inside/outside tallies of a face set, and of the
 * renderable face candidates of a tile list.
 *
 * Faces and candidates are typed records here, so every face has one of the
 * six facings, one of the two box kinds and one of the two face types; the
 * source's guards against other values always pass.
 */
module DebugStats {
  import opened Facings
  import opened Scene
  import opened Json
  import FaceCandidates

  /** What a tally reads from one face or candidate. */
  datatype Tag = Tag(facing: Facing, kind: BoxKind, outside: bool)

  datatype KindCounts = KindCounts(aabb: nat, transformable: nat)
  datatype TypeCounts = TypeCounts(axis: nat, tilted: nat)
  datatype OutsideCounts = OutsideCounts(inside: nat, outside: nat)

  /** The result of summarizeFaceSet. */
  datatype FaceSetSummary = FaceSetSummary(
    totalFaces: nat,
    byFacing: map<Facing, nat>,
    bySourceKind: KindCounts,
    byFaceType: TypeCounts,
    byOutside: OutsideCounts)

  /** The result of collectRenderableFaceCandidateSummaryFromTiles. */
  datatype CandidateSummary = CandidateSummary(
    totalVisibleCandidates: nat,
    byFacing: map<Facing, nat>,
    bySourceKind: KindCounts,
    byOutside: OutsideCounts)

  function FaceTag(face: VisibleFace): Tag
  {
    Tag(face.facing, face.sourceKind, face.outside)
  }

  function CandidateTag(c: FaceCandidates.YieldedCandidate): Tag
  {
    Tag(c.face.facing, c.box.kind, c.outside)
  }

  function FaceTags(faces: seq<VisibleFace>): (tags: seq<Tag>)
    ensures |tags| == |faces|
  {
    seq(|faces|, k requires 0 <= k < |faces| => FaceTag(faces[k]))
  }

  function CandidateTags(cs: seq<FaceCandidates.YieldedCandidate>): (tags: seq<Tag>)
    ensures |tags| == |cs|
  {
    seq(|cs|, k requires 0 <= k < |cs| => CandidateTag(cs[k]))
  }

  // ---------------------------------------------------------------------------
  // Counts
  // ---------------------------------------------------------------------------

  /** How many tags have facing `f`. */
  function FacingCount(tags: seq<Tag>, f: Facing): nat
    decreases |tags|
  {
    if tags == [] then 0 else FacingCount(tags[..|tags| - 1], f) + (if tags[|tags| - 1].facing == f then 1 else 0)
  }

  /** How many tags come from a box of kind `k`. */
  function KindCount(tags: seq<Tag>, k: BoxKind): nat
    decreases |tags|
  {
    if tags == [] then 0 else KindCount(tags[..|tags| - 1], k) + (if tags[|tags| - 1].kind == k then 1 else 0)
  }

  /** How many tags are outside (`outside === true`) or, with `outside` false, inside. */
  function SideCount(tags: seq<Tag>, outside: bool): nat
    decreases |tags|
  {
    if tags == [] then 0 else SideCount(tags[..|tags| - 1], outside) + (if tags[|tags| - 1].outside == outside then 1 else 0)
  }

  /** How many faces carry polygons of type `t`. */
  function TypeCount(faces: seq<VisibleFace>, t: FaceType): nat
    decreases |faces|
  {
    if faces == [] then 0 else TypeCount(faces[..|faces| - 1], t) + (if faces[|faces| - 1].faceType == t then 1 else 0)
  }

  /** The per-facing object: every facing of FACING_ORDER with its count. */
  function FacingTally(tags: seq<Tag>): map<Facing, nat>
  {
    map[DOWN := FacingCount(tags, DOWN), UP := FacingCount(tags, UP), NORTH := FacingCount(tags, NORTH),
        SOUTH := FacingCount(tags, SOUTH), WEST := FacingCount(tags, WEST), EAST := FacingCount(tags, EAST)]
  }

  /** The sum over the six facings. */
  function FacingSum(m: map<Facing, nat>): nat
  {
    CountOf(m, DOWN) + CountOf(m, UP) + CountOf(m, NORTH) + CountOf(m, SOUTH) + CountOf(m, WEST) + CountOf(m, EAST)
  }

  /** A facing's entry in the per-facing object, 0 when it is absent. */
  function CountOf(m: map<Facing, nat>, f: Facing): nat
  {
    if f in m then m[f] else 0
  }

  function SummaryOf(faces: seq<VisibleFace>): FaceSetSummary
  {
    var tags := FaceTags(faces);
    FaceSetSummary(
      |faces|,
      FacingTally(tags),
      KindCounts(KindCount(tags, Aabb), KindCount(tags, Transformable)),
      TypeCounts(TypeCount(faces, AxisFace), TypeCount(faces, TiltedFace)),
      OutsideCounts(SideCount(tags, false), SideCount(tags, true)))
  }

  function CandidateSummaryOf(cs: seq<FaceCandidates.YieldedCandidate>): CandidateSummary
  {
    var tags := CandidateTags(cs);
    CandidateSummary(
      |cs|,
      FacingTally(tags),
      KindCounts(KindCount(tags, Aabb), KindCount(tags, Transformable)),
      OutsideCounts(SideCount(tags, false), SideCount(tags, true)))
  }

  // ---------------------------------------------------------------------------
  // Properties of the counts
  // ---------------------------------------------------------------------------

  /**
   * Every tag is counted under exactly one facing, one box kind and one
   * side, so each tally sums to the number of tags.
   */
  lemma {:induction false} TagCountsPartition(tags: seq<Tag>)
    ensures FacingSum(FacingTally(tags)) == |tags|
    ensures KindCount(tags, Aabb) + KindCount(tags, Transformable) == |tags|
    ensures SideCount(tags, false) + SideCount(tags, true) == |tags|
    decreases |tags|
  {
    if tags != [] {
      TagCountsPartition(tags[..|tags| - 1]);
    }
  }

  /** Every face has exactly one of the two face types. */
  lemma {:induction false} TypeCountsPartition(faces: seq<VisibleFace>)
    ensures TypeCount(faces, AxisFace) + TypeCount(faces, TiltedFace) == |faces|
    decreases |faces|
  {
    if faces != [] {
      TypeCountsPartition(faces[..|faces| - 1]);
    }
  }

  /** Counting two lists one after the other adds their counts. */
  lemma {:induction false} TagCountsAppend(a: seq<Tag>, b: seq<Tag>, f: Facing, k: BoxKind, side: bool)
    ensures FacingCount(a + b, f) == FacingCount(a, f) + FacingCount(b, f)
    ensures KindCount(a + b, k) == KindCount(a, k) + KindCount(b, k)
    ensures SideCount(a + b, side) == SideCount(a, side) + SideCount(b, side)
    decreases |b|
  {
    if b == [] {
      assert a + b == a;
    } else {
      assert (a + b)[..|a + b| - 1] == a + b[..|b| - 1];
      TagCountsAppend(a, b[..|b| - 1], f, k, side);
    }
  }

  /** The tallies of a face set each sum to its size, and its totalFaces is its length. */
  lemma SummaryOfSpec(faces: seq<VisibleFace>)
    ensures var s := SummaryOf(faces);
            && s.totalFaces == |faces|
            && FacingSum(s.byFacing) == s.totalFaces
            && s.bySourceKind.aabb + s.bySourceKind.transformable == s.totalFaces
            && s.byFaceType.axis + s.byFaceType.tilted == s.totalFaces
            && s.byOutside.inside + s.byOutside.outside == s.totalFaces
  {
    TagCountsPartition(FaceTags(faces));
    TypeCountsPartition(faces);
  }

  /** The tallies of the candidate summary each sum to the number of candidates. */
  lemma CandidateSummaryOfSpec(cs: seq<FaceCandidates.YieldedCandidate>)
    ensures var s := CandidateSummaryOf(cs);
            && s.totalVisibleCandidates == |cs|
            && FacingSum(s.byFacing) == s.totalVisibleCandidates
            && s.bySourceKind.aabb + s.bySourceKind.transformable == s.totalVisibleCandidates
            && s.byOutside.inside + s.byOutside.outside == s.totalVisibleCandidates
  {
    TagCountsPartition(CandidateTags(cs));
  }

  // ---------------------------------------------------------------------------
  // The counting loops
  // ---------------------------------------------------------------------------

  /** The per-facing object before any face: all six facings at 0. */
  function ZeroFacings(): (m: map<Facing, nat>)
    ensures m == FacingTally([])
  {
    map[DOWN := 0, UP := 0, NORTH := 0, SOUTH := 0, WEST := 0, EAST := 0]
  }

  /** One more tag: its facing's count goes up by one and the other facings keep theirs. */
  lemma FacingTallySnoc(tags: seq<Tag>, t: Tag)
    ensures FacingTally(tags + [t]) == FacingTally(tags)[t.facing := CountOf(FacingTally(tags), t.facing) + 1]
  {
    assert (tags + [t])[..|tags|] == tags;
  }

  /** One more tag in the kind and side counts. */
  lemma CountsSnoc(tags: seq<Tag>, t: Tag)
    ensures KindCount(tags + [t], Aabb) == KindCount(tags, Aabb) + (if t.kind == Aabb then 1 else 0)
    ensures KindCount(tags + [t], Transformable) == KindCount(tags, Transformable) + (if t.kind == Transformable then 1 else 0)
    ensures SideCount(tags + [t], true) == SideCount(tags, true) + (if t.outside then 1 else 0)
    ensures SideCount(tags + [t], false) == SideCount(tags, false) + (if t.outside then 0 else 1)
  {
    assert (tags + [t])[..|tags|] == tags;
  }

  lemma FaceTagsSnoc(faces: seq<VisibleFace>, i: nat)
    requires i < |faces|
    ensures FaceTags(faces[..i + 1]) == FaceTags(faces[..i]) + [FaceTag(faces[i])]
    ensures TypeCount(faces[..i + 1], AxisFace) == TypeCount(faces[..i], AxisFace) + (if faces[i].faceType == AxisFace then 1 else 0)
    ensures TypeCount(faces[..i + 1], TiltedFace) == TypeCount(faces[..i], TiltedFace) + (if faces[i].faceType == TiltedFace then 1 else 0)
  {
    assert faces[..i + 1][..i] == faces[..i];
  }

  /** summarizeFaceSet: one pass over the faces, counting each into every tally. */
  method SummarizeFaceSet(faces: seq<VisibleFace>) returns (s: FaceSetSummary)
    ensures s == SummaryOf(faces)
  {
    var byFacing := ZeroFacings();
    var aabb, transformable, axis, tilted, inside, outside := 0, 0, 0, 0, 0, 0;
    for i := 0 to |faces|
      invariant byFacing == FacingTally(FaceTags(faces[..i]))
      invariant aabb == KindCount(FaceTags(faces[..i]), Aabb) && transformable == KindCount(FaceTags(faces[..i]), Transformable)
      invariant axis == TypeCount(faces[..i], AxisFace) && tilted == TypeCount(faces[..i], TiltedFace)
      invariant inside == SideCount(FaceTags(faces[..i]), false) && outside == SideCount(FaceTags(faces[..i]), true)
    {
      var face := faces[i];
      ghost var before := FaceTags(faces[..i]);
      FaceTagsSnoc(faces, i);
      FacingTallySnoc(before, FaceTag(face));
      CountsSnoc(before, FaceTag(face));
      byFacing := byFacing[face.facing := CountOf(byFacing, face.facing) + 1];
      if face.sourceKind == Aabb {
        aabb := aabb + 1;
      } else {
        transformable := transformable + 1;
      }
      if face.faceType == AxisFace {
        axis := axis + 1;
      } else {
        tilted := tilted + 1;
      }
      if face.outside {
        outside := outside + 1;
      } else {
        inside := inside + 1;
      }
    }
    assert faces[..|faces|] == faces;
    s := FaceSetSummary(|faces|, byFacing, KindCounts(aabb, transformable), TypeCounts(axis, tilted), OutsideCounts(inside, outside));
  }

  lemma CandidateTagsSnoc(cs: seq<FaceCandidates.YieldedCandidate>, i: nat)
    requires i < |cs|
    ensures CandidateTags(cs[..i + 1]) == CandidateTags(cs[..i]) + [CandidateTag(cs[i])]
  {
  }

  /** The counting loop of the candidate summary over the yielded candidates. */
  method SummarizeCandidates(cs: seq<FaceCandidates.YieldedCandidate>) returns (s: CandidateSummary)
    ensures s == CandidateSummaryOf(cs)
  {
    var byFacing := ZeroFacings();
    var aabb, transformable, inside, outside := 0, 0, 0, 0;
    var total := 0;
    for i := 0 to |cs|
      invariant total == i
      invariant byFacing == FacingTally(CandidateTags(cs[..i]))
      invariant aabb == KindCount(CandidateTags(cs[..i]), Aabb) && transformable == KindCount(CandidateTags(cs[..i]), Transformable)
      invariant inside == SideCount(CandidateTags(cs[..i]), false) && outside == SideCount(CandidateTags(cs[..i]), true)
    {
      var c := cs[i];
      ghost var before := CandidateTags(cs[..i]);
      CandidateTagsSnoc(cs, i);
      FacingTallySnoc(before, CandidateTag(c));
      CountsSnoc(before, CandidateTag(c));
      total := total + 1;
      byFacing := byFacing[c.face.facing := CountOf(byFacing, c.face.facing) + 1];
      if c.box.kind == Aabb {
        aabb := aabb + 1;
      } else {
        transformable := transformable + 1;
      }
      if c.outside {
        outside := outside + 1;
      } else {
        inside := inside + 1;
      }
    }
    assert cs[..|cs|] == cs;
    s := CandidateSummary(total, byFacing, KindCounts(aabb, transformable), OutsideCounts(inside, outside));
  }

  /**
   * collectRenderableFaceCandidateSummaryFromTiles: the summary of the
   * candidates the pipeline yields for the tiles, one count per candidate,
   * so the total equals each tally's sum.
   */
  method CollectRenderableFaceCandidateSummaryFromTiles(tiles: seq<Tile>, options: Json) returns (s: CandidateSummary)
    ensures exists primed :: FaceCandidates.Priming(tiles, primed) &&
              s == CandidateSummaryOf(FaceCandidates.TilesResults(primed, primed, FaceCandidates.SettingsOf(options)))
    ensures FacingSum(s.byFacing) == s.totalVisibleCandidates
    ensures s.bySourceKind.aabb + s.bySourceKind.transformable == s.totalVisibleCandidates
    ensures s.byOutside.inside + s.byOutside.outside == s.totalVisibleCandidates
  {
    var candidates, primed := FaceCandidates.IterateRenderableFaceCandidates(tiles, options);
    s := SummarizeCandidates(candidates);
    CandidateSummaryOfSpec(candidates);
  }
}
