/**
 * The render cache of a transformable box: the tilted strips of each face
 * (clipped to the box and filed under their nearest facing), the axis
 * strips left of each box side once the tilted planes have cut it, and the
 * memoised per-facing result in world units.
 */
module TransformableRender {
  import opened Wrappers
  import opened Facings
  import opened PolygonOps
  import opened Polygon2d
  import opened Scene
  import opened TransformableCache

  // ---------------------------------------------------------------------
  // Strips

  /** The corners as real points. */
  function CornerPoints(cs: seq<IVec>): (r: seq<Vec3>)
    ensures |r| == |cs| && forall i :: 0 <= i < |cs| ==> r[i] == cs[i].ToVec()
  {
    seq(|cs|, i requires 0 <= i < |cs| => cs[i].ToVec())
  }

  predicate ValidKeys(keys: seq<nat>, n: nat)
  {
    forall i :: 0 <= i < |keys| ==> keys[i] < n
  }

  /**
   * The first pass of createStrip: the keyed corners in key order, skipping
   * a corner within EPSILON of one already kept. No two kept points are
   * EPSILON-close, every kept point is a keyed corner, and every keyed
   * corner has a kept point close to it.
   */
  function StripPoints(keys: seq<nat>, corners: seq<Vec3>): (r: Polygon)
    requires ValidKeys(keys, |corners|)
    ensures |r| <= |keys|
    ensures forall i, j :: 0 <= i < j < |r| ==> !PointsEqual(r[i], r[j], EPSILON)
    ensures forall v :: v in r ==> exists i :: 0 <= i < |keys| && v == corners[keys[i]]
    ensures forall i :: 0 <= i < |keys| ==> HasClosePoint(corners[keys[i]], r, EPSILON)
    decreases |keys|
  {
    if keys == [] then []
    else
      var init := keys[..|keys| - 1];
      var out := StripPoints(init, corners);
      var p := corners[keys[|keys| - 1]];
      assert forall i :: 0 <= i < |init| ==> init[i] == keys[i];
      if HasClosePoint(p, out, EPSILON) then out
      else
        assert forall j :: 0 <= j < |out| ==> !PointsEqual(out[j], p, EPSILON) by {
          forall j | 0 <= j < |out|
            ensures !PointsEqual(out[j], p, EPSILON)
          {
            if PointsEqual(out[j], p, EPSILON) {
              assert PointsEqual(p, out[j], EPSILON);
            }
          }
        }
        var r := out + [p];
        assert PointsEqual(p, r[|out|], EPSILON);
        assert forall i :: 0 <= i < |init| ==> HasClosePoint(corners[keys[i]], r, EPSILON) by {
          forall i | 0 <= i < |init|
            ensures HasClosePoint(corners[keys[i]], r, EPSILON)
          {
            var j :| 0 <= j < |out| && PointsEqual(corners[init[i]], out[j], EPSILON);
            assert r[j] == out[j];
          }
        }
        r
  }

  /** createStrip: the deduplicated corners, simplified; None when nothing renderable is left. */
  method CreateStrip(keys: seq<nat>, corners: seq<Vec3>) returns (r: Option<Polygon>)
    requires ValidKeys(keys, |corners|)
    ensures r == Simplify(StripPoints(keys, corners))
  {
    var out: Polygon := [];
    var i := 0;
    while i < |keys|
      invariant 0 <= i <= |keys|
      invariant ValidKeys(keys[..i], |corners|)
      invariant out == StripPoints(keys[..i], corners)
    {
      var point := corners[keys[i]];
      var duplicate := FindClosePoint(point, out, EPSILON);
      assert keys[..i + 1][..i] == keys[..i];
      if !duplicate {
        out := out + [point];
      }
      i := i + 1;
    }
    assert keys[..|keys|] == keys;
    r := SimplifyPolygon(out);
  }

  /** The checkEqualAxis relation: every keyed corner is within EPSILON of its base corner on the axis. */
  predicate SameOnAxis(corners: seq<Vec3>, base: seq<Vec3>, keys: seq<nat>, axis: nat)
    requires ValidKeys(keys, |corners|) && ValidKeys(keys, |base|) && axis < 3
  {
    forall i :: 0 <= i < |keys| ==> Abs(corners[keys[i]].At(axis) - base[keys[i]].At(axis)) <= EPSILON
  }

  /** checkEqualAxis */
  method CheckEqualAxis(corners: seq<Vec3>, base: seq<Vec3>, keys: seq<nat>, axis: nat) returns (b: bool)
    requires ValidKeys(keys, |corners|) && ValidKeys(keys, |base|) && axis < 3
    ensures b == SameOnAxis(corners, base, keys, axis)
    ensures corners == base ==> b
  {
    for i := 0 to |keys|
      invariant forall k :: 0 <= k < i ==> Abs(corners[keys[k]].At(axis) - base[keys[k]].At(axis)) <= EPSILON
    {
      if Abs(corners[keys[i]].At(axis) - base[keys[i]].At(axis)) > EPSILON {
        return false;
      }
    }
    return true;
  }

  // ---------------------------------------------------------------------
  // The raw face cache

  /** The per-facing working state of computeTransformableRawFaceCache. */
  datatype RawFaceCache = RawFaceCache(
    convex: bool,
    tiltedStrip1: Option<Polygon>,
    tiltedStrip2: Option<Polygon>,
    cutPlane1: Option<Plane>,
    cutPlane2: Option<Plane>,
    axisStrips: seq<Polygon>,
    tiltedRender: seq<Polygon>)

  const InitialRawFaceCache: RawFaceCache := RawFaceCache(true, None, None, None, None, [], [])

  const InitialRawFaceCaches: map<Facing, RawFaceCache> := map f: Facing | true :: InitialRawFaceCache

  predicate AtLeastTriangles(polys: seq<Polygon>)
  {
    forall p :: p in polys ==> |p| >= 3
  }

  predicate StripsAreTriangles(c: RawFaceCache)
  {
    AtLeastTriangles(c.axisStrips) && AtLeastTriangles(c.tiltedRender)
  }

  /** What one face contributes when it is tilted: two optional strips, their planes and convexity. */
  datatype Tilt = Tilt(convex: bool, strip1: Option<Polygon>, strip2: Option<Polygon>, plane1: Option<Plane>, plane2: Option<Plane>)

  /** The convexity test: some vertex of the strip lies in front of the plane by EPSILON or more. */
  method AnyVertexInFront(plane: Plane, strip: Polygon) returns (b: bool)
    ensures b <==> SomeVertexInFront(plane, strip)
  {
    for i := 0 to |strip|
      invariant forall k :: 0 <= k < i ==> InFront(plane, strip[k], EPSILON) != Some(true)
    {
      if InFront(plane, strip[i], EPSILON) == Some(true) {
        return true;
      }
    }
    return false;
  }

  /** The clip of a tilted strip by the six box planes in facing order. */
  method ClipToBox(strip: Option<Polygon>, axisPlanes: seq<Plane>) returns (r: Option<Polygon>)
    requires |axisPlanes| == 6
    ensures strip.None? ==> r.None?
    ensures r.Some? ==> |r.value| >= 3
  {
    r := strip;
    for i := 0 to 6
      invariant strip.None? ==> r.None?
      invariant i > 0 && r.Some? ==> |r.value| >= 3
    {
      if r.Some? {
        r := ClipPolygonByPlane(r.value, axisPlanes[i], CUT_EPSILON);
      }
    }
  }

  /** The unit normal of the triangle on three keyed corners, if it has one. */
  function TriNormal(corners: seq<Vec3>, tri: seq<nat>): Option<Vec3>
    requires |tri| == 3 && ValidKeys(tri, |corners|)
  {
    NormalizeVec(TriangleNormal(corners[tri[0]], corners[tri[1]], corners[tri[2]]))
  }

  /** The first triangle's plane: made when it left its base position, has a normal and gave a strip. */
  function PlaneOne(corners: seq<Vec3>, keys: seq<nat>, triA: seq<nat>, triB: seq<nat>, firstSame: bool): Option<Plane>
    requires |corners| == 8 && ValidKeys(keys, 8) && |triA| == 3 && |triB| == 3 && ValidKeys(triA, 8) && ValidKeys(triB, 8)
  {
    var parallel := VectorsParallel(TriNormal(corners, triA), TriNormal(corners, triB), EPSILON);
    if !firstSame && !NearZero(TriNormal(corners, triA)) && Simplify(StripPoints(if parallel then keys else triA, corners)).Some?
    then Some(CreatePlane(corners[triA[0]], TriNormal(corners, triA))) else None
  }

  /** The second triangle's plane: made only when the normals are not parallel, under the same conditions. */
  function PlaneTwo(corners: seq<Vec3>, triA: seq<nat>, triB: seq<nat>, secondSame: bool): Option<Plane>
    requires |corners| == 8 && |triA| == 3 && |triB| == 3 && ValidKeys(triA, 8) && ValidKeys(triB, 8)
  {
    var parallel := VectorsParallel(TriNormal(corners, triA), TriNormal(corners, triB), EPSILON);
    if !parallel && !secondSame && !NearZero(TriNormal(corners, triB)) && Simplify(StripPoints(triB, corners)).Some?
    then Some(CreatePlane(corners[triB[0]], TriNormal(corners, triB))) else None
  }

  /** The first strip: the four face corners when the normals are parallel, else the first triangle; kept only with a valid plane. */
  function StripOne(corners: seq<Vec3>, keys: seq<nat>, triA: seq<nat>, triB: seq<nat>, firstSame: bool): (r: Option<Polygon>)
    requires |corners| == 8 && ValidKeys(keys, 8) && |triA| == 3 && |triB| == 3 && ValidKeys(triA, 8) && ValidKeys(triB, 8)
    ensures r.Some? ==> Renderable(r.value)
  {
    var parallel := VectorsParallel(TriNormal(corners, triA), TriNormal(corners, triB), EPSILON);
    var plane := PlaneOne(corners, keys, triA, triB, firstSame);
    if plane.Some? && !plane.value.invalid then Simplify(StripPoints(if parallel then keys else triA, corners)) else None
  }

  /** The second strip: the second triangle, kept only with a valid plane. */
  function StripTwo(corners: seq<Vec3>, triA: seq<nat>, triB: seq<nat>, secondSame: bool): (r: Option<Polygon>)
    requires |corners| == 8 && |triA| == 3 && |triB| == 3 && ValidKeys(triA, 8) && ValidKeys(triB, 8)
    ensures r.Some? ==> Renderable(r.value)
  {
    var plane := PlaneTwo(corners, triA, triB, secondSame);
    if plane.Some? && !plane.value.invalid then Simplify(StripPoints(triB, corners)) else None
  }

  /**
   * The strips and planes of one tilted face before the convexity test:
   * one strip over all four corners when the triangle normals are parallel,
   * else one per triangle that left its base position; a strip whose plane
   * is invalid is dropped (its plane is kept).
   */
  method TiltStrips(corners: seq<Vec3>, keys: seq<nat>, triA: seq<nat>, triB: seq<nat>, firstSame: bool, secondSame: bool)
    returns (strip1: Option<Polygon>, strip2: Option<Polygon>, plane1: Option<Plane>, plane2: Option<Plane>)
    requires |corners| == 8 && ValidKeys(keys, 8) && |triA| == 3 && |triB| == 3 && ValidKeys(triA, 8) && ValidKeys(triB, 8)
    ensures plane1 == PlaneOne(corners, keys, triA, triB, firstSame) && plane2 == PlaneTwo(corners, triA, triB, secondSame)
    ensures strip1 == StripOne(corners, keys, triA, triB, firstSame) && strip2 == StripTwo(corners, triA, triB, secondSame)
    ensures firstSame ==> strip1.None? && plane1.None?
    ensures secondSame ==> strip2.None? && plane2.None?
    ensures strip1.Some? ==> plane1.Some? && !plane1.value.invalid && |strip1.value| >= 3
    ensures strip2.Some? ==> plane2.Some? && !plane2.value.invalid && |strip2.value| >= 3
  {
    var normalA := NormalizeVec(TriangleNormal(corners[triA[0]], corners[triA[1]], corners[triA[2]]));
    var normalB := NormalizeVec(TriangleNormal(corners[triB[0]], corners[triB[1]], corners[triB[2]]));
    strip1, strip2, plane1, plane2 := None, None, None, None;
    if VectorsParallel(normalA, normalB, EPSILON) {
      if !firstSame && !NearZero(normalA) {
        strip1 := CreateStrip(keys, corners);
        plane1 := if strip1.Some? then Some(CreatePlane(corners[triA[0]], normalA)) else None;
      }
    } else {
      if !firstSame && !NearZero(normalA) {
        strip1 := CreateStrip(triA, corners);
        plane1 := if strip1.Some? then Some(CreatePlane(corners[triA[0]], normalA)) else None;
      }
      if !secondSame && !NearZero(normalB) {
        strip2 := CreateStrip(triB, corners);
        plane2 := if strip2.Some? then Some(CreatePlane(corners[triB[0]], normalB)) else None;
      }
    }
    if strip1.Some? && (plane1.None? || plane1.value.invalid) {
      strip1 := None;
    }
    if strip2.Some? && (plane2.None? || plane2.value.invalid) {
      strip2 := None;
    }
  }

  /** Some vertex of the strip lies in front of the plane by EPSILON or more. */
  predicate SomeVertexInFront(plane: Plane, strip: Polygon)
  {
    exists i :: 0 <= i < |strip| && InFront(plane, strip[i], EPSILON) == Some(true)
  }

  /**
   * What the FACE_DEFS loop makes of one face: nothing when both triangles
   * keep their base position on the face axis; otherwise the two planes,
   * strips that exist only where the unclipped strips do (each of three or
   * more vertices once clipped), and concavity exactly when both strips
   * exist and some vertex of the second lies in front of the first plane.
   */
  predicate TiltOf(corners: seq<Vec3>, base: seq<Vec3>, indicator: int, def: FaceDef, t: Option<Tilt>)
    requires |corners| == 8 && |base| == 8 && |def.corners| == 4 && ValidKeys(def.corners, 8)
  {
    var (triA, triB) := TriangleKeys(def.corners, Flipped(indicator, def.facing));
    var axis := AxisIndex(FacingAxis(def.facing));
    && ValidKeys(triA, 8) && ValidKeys(triB, 8)
    && var firstSame := SameOnAxis(corners, base, triA, axis);
    var secondSame := SameOnAxis(corners, base, triB, axis);
    && (t.None? <==> firstSame && secondSame)
    && (t.Some? ==>
      var s1 := StripOne(corners, def.corners, triA, triB, firstSame);
      var s2 := StripTwo(corners, triA, triB, secondSame);
      var p1 := PlaneOne(corners, def.corners, triA, triB, firstSame);
      && t.value.plane1 == p1 && t.value.plane2 == PlaneTwo(corners, triA, triB, secondSame)
      && (t.value.strip1.Some? ==> s1.Some? && |t.value.strip1.value| >= 3)
      && (t.value.strip2.Some? ==> s2.Some? && |t.value.strip2.value| >= 3)
      && (t.value.convex <==> !(s1.Some? && s2.Some? && p1.Some? && SomeVertexInFront(p1.value, s2.value))))
  }

  /**
   * The body of the FACE_DEFS loop for one face. None when both triangles
   * keep their base position on the face axis (the face is skipped).
   * A triangle that keeps its base position on the axis yields no strip
   * and no plane; a kept strip has a valid plane; a concave result has
   * both planes.
   */
  method TiltFace(corners: seq<Vec3>, base: seq<Vec3>, indicator: int, def: FaceDef, axisPlanes: seq<Plane>)
    returns (t: Option<Tilt>)
    requires |corners| == 8 && |base| == 8 && |def.corners| == 4 && ValidKeys(def.corners, 8) && |axisPlanes| == 6
    ensures TiltOf(corners, base, indicator, def, t)
    ensures var (triA, triB) := TriangleKeys(def.corners, Flipped(indicator, def.facing));
      var axis := AxisIndex(FacingAxis(def.facing));
      ValidKeys(triA, 8) && ValidKeys(triB, 8) &&
      (t.Some? && SameOnAxis(corners, base, triA, axis) ==> t.value.strip1.None? && t.value.plane1.None?)
    ensures t.Some? ==> (t.value.strip1.Some? ==> t.value.plane1.Some? && !t.value.plane1.value.invalid)
    ensures t.Some? ==> (t.value.strip2.Some? ==> t.value.plane2.Some? && !t.value.plane2.value.invalid)
    ensures t.Some? && !t.value.convex ==> t.value.plane1.Some? && t.value.plane2.Some?
    ensures corners == base ==> t.None?
  {
    var flipped := Flipped(indicator, def.facing);
    var (triA, triB) := TriangleKeys(def.corners, flipped);
    var axis := AxisIndex(FacingAxis(def.facing));
    var firstSame := CheckEqualAxis(corners, base, triA, axis);
    var secondSame := CheckEqualAxis(corners, base, triB, axis);
    if firstSame && secondSame {
      return None;
    }
    var strip1, strip2, plane1, plane2 := TiltStrips(corners, def.corners, triA, triB, firstSame, secondSame);
    var convex := true;
    if strip1.Some? && strip2.Some? && plane1.Some? {
      var front := AnyVertexInFront(plane1.value, strip2.value);
      convex := !front;
    }
    assert convex <==> !(strip1.Some? && strip2.Some? && plane1.Some? && SomeVertexInFront(plane1.value, strip2.value));
    strip1 := ClipToBox(strip1, axisPlanes);
    strip2 := ClipToBox(strip2, axisPlanes);
    return Some(Tilt(convex, strip1, strip2, plane1, plane2));
  }

  /** Every facing has a cache, without axis strips yet, whose polygons have three or more vertices. */
  predicate TiltedCachesWellFormed(caches: map<Facing, RawFaceCache>)
  {
    forall f: Facing :: f in caches && StripsAreTriangles(caches[f]) && caches[f].axisStrips == []
  }

  /** Every facing has a cache. */
  predicate AllFacings(caches: map<Facing, RawFaceCache>)
  {
    forall f: Facing :: f in caches
  }

  /** The caches with a strip appended to the render list of the facing nearest its plane normal. */
  function Filed(caches: map<Facing, RawFaceCache>, strip: Polygon, plane: Plane): (r: map<Facing, RawFaceCache>)
    requires AllFacings(caches)
    ensures AllFacings(r)
  {
    var target := Nearest(plane.normal);
    caches[target := caches[target].(tiltedRender := caches[target].tiltedRender + [strip])]
  }

  /** Appends a tilted strip to the render list of the facing nearest its plane normal. */
  method FileTiltedStrip(caches: map<Facing, RawFaceCache>, strip: Polygon, plane: Plane)
    returns (out: map<Facing, RawFaceCache>)
    requires TiltedCachesWellFormed(caches) && |strip| >= 3
    ensures TiltedCachesWellFormed(out)
    ensures out == caches[Nearest(plane.normal) := caches[Nearest(plane.normal)].(tiltedRender := caches[Nearest(plane.normal)].tiltedRender + [strip])]
  {
    var target := NearestFacing(plane.normal);
    out := caches[target := caches[target].(tiltedRender := caches[target].tiltedRender + [strip])];
  }

  /**
   * The caches once one face's tilt is recorded: its convexity, strips and
   * planes stored in its own cache, then each strip that has a plane filed
   * under the facing nearest that plane's normal, the first before the
   * second.
   */
  function Tilted(caches: map<Facing, RawFaceCache>, facing: Facing, tilt: Tilt): (r: map<Facing, RawFaceCache>)
    requires AllFacings(caches)
    ensures AllFacings(r)
  {
    var c := caches[facing];
    var recorded := caches[facing := c.(convex := tilt.convex, tiltedStrip1 := tilt.strip1,
      tiltedStrip2 := tilt.strip2, cutPlane1 := tilt.plane1, cutPlane2 := tilt.plane2)];
    var one := if tilt.strip1.Some? && tilt.plane1.Some? then Filed(recorded, tilt.strip1.value, tilt.plane1.value) else recorded;
    if tilt.strip2.Some? && tilt.plane2.Some? then Filed(one, tilt.strip2.value, tilt.plane2.value) else one
  }

  /** Records the tilt of one face in its cache and files its surviving strips. */
  method ApplyTilt(caches: map<Facing, RawFaceCache>, facing: Facing, tilt: Tilt)
    returns (out: map<Facing, RawFaceCache>)
    requires TiltedCachesWellFormed(caches)
    requires tilt.strip1.Some? ==> |tilt.strip1.value| >= 3
    requires tilt.strip2.Some? ==> |tilt.strip2.value| >= 3
    ensures TiltedCachesWellFormed(out)
    ensures out == Tilted(caches, facing, tilt)
  {
    var c := caches[facing];
    out := caches[facing := c.(convex := tilt.convex, tiltedStrip1 := tilt.strip1,
      tiltedStrip2 := tilt.strip2, cutPlane1 := tilt.plane1, cutPlane2 := tilt.plane2)];
    if tilt.strip1.Some? && tilt.plane1.Some? {
      out := FileTiltedStrip(out, tilt.strip1.value, tilt.plane1.value);
    }
    if tilt.strip2.Some? && tilt.plane2.Some? {
      out := FileTiltedStrip(out, tilt.strip2.value, tilt.plane2.value);
    }
  }

  /**
   * A recorded tilt: the face keeps its convexity, strips and planes (filing
   * only ever appends to render lists), each filed strip ends its target's
   * render list or precedes the second strip there, and every facing that
   * is neither the face nor a target is unchanged.
   */
  lemma TiltedEffect(caches: map<Facing, RawFaceCache>, facing: Facing, tilt: Tilt)
    requires AllFacings(caches)
    ensures var out := Tilted(caches, facing, tilt);
      && out[facing].convex == tilt.convex
      && out[facing].tiltedStrip1 == tilt.strip1 && out[facing].tiltedStrip2 == tilt.strip2
      && out[facing].cutPlane1 == tilt.plane1 && out[facing].cutPlane2 == tilt.plane2
      && (tilt.strip2.Some? && tilt.plane2.Some? ==>
            (var t2 := Nearest(tilt.plane2.value.normal);
             |out[t2].tiltedRender| > 0 && out[t2].tiltedRender[|out[t2].tiltedRender| - 1] == tilt.strip2.value))
      && (tilt.strip1.Some? && tilt.plane1.Some? ==> tilt.strip1.value in out[Nearest(tilt.plane1.value.normal)].tiltedRender)
      && forall g: Facing :: (g != facing
           && !(tilt.strip1.Some? && tilt.plane1.Some? && g == Nearest(tilt.plane1.value.normal))
           && !(tilt.strip2.Some? && tilt.plane2.Some? && g == Nearest(tilt.plane2.value.normal)))
           ==> out[g] == caches[g]
  {
    TiltedRecords(caches, facing, tilt);
    TiltedLeavesOthers(caches, facing, tilt);
  }

  /** The face's own record of its tilt, and where its strips are filed. */
  lemma TiltedRecords(caches: map<Facing, RawFaceCache>, facing: Facing, tilt: Tilt)
    requires AllFacings(caches)
    ensures var out := Tilted(caches, facing, tilt);
      && out[facing].convex == tilt.convex
      && out[facing].tiltedStrip1 == tilt.strip1 && out[facing].tiltedStrip2 == tilt.strip2
      && out[facing].cutPlane1 == tilt.plane1 && out[facing].cutPlane2 == tilt.plane2
      && (tilt.strip2.Some? && tilt.plane2.Some? ==>
            (var t2 := Nearest(tilt.plane2.value.normal);
             |out[t2].tiltedRender| > 0 && out[t2].tiltedRender[|out[t2].tiltedRender| - 1] == tilt.strip2.value))
      && (tilt.strip1.Some? && tilt.plane1.Some? ==> tilt.strip1.value in out[Nearest(tilt.plane1.value.normal)].tiltedRender)
  {
    var c := caches[facing];
    var recorded := caches[facing := c.(convex := tilt.convex, tiltedStrip1 := tilt.strip1,
      tiltedStrip2 := tilt.strip2, cutPlane1 := tilt.plane1, cutPlane2 := tilt.plane2)];
    var one := if tilt.strip1.Some? && tilt.plane1.Some? then Filed(recorded, tilt.strip1.value, tilt.plane1.value) else recorded;
    if tilt.strip1.Some? && tilt.plane1.Some? {
      FiledEffect(recorded, tilt.strip1.value, tilt.plane1.value);
    }
    if tilt.strip2.Some? && tilt.plane2.Some? {
      FiledEffect(one, tilt.strip2.value, tilt.plane2.value);
    }
  }

  /** Every facing that is neither the face nor a target of its strips is unchanged. */
  lemma TiltedLeavesOthers(caches: map<Facing, RawFaceCache>, facing: Facing, tilt: Tilt)
    requires AllFacings(caches)
    ensures var out := Tilted(caches, facing, tilt);
      forall g: Facing :: (g != facing
           && !(tilt.strip1.Some? && tilt.plane1.Some? && g == Nearest(tilt.plane1.value.normal))
           && !(tilt.strip2.Some? && tilt.plane2.Some? && g == Nearest(tilt.plane2.value.normal)))
           ==> out[g] == caches[g]
  {
    var c := caches[facing];
    var recorded := caches[facing := c.(convex := tilt.convex, tiltedStrip1 := tilt.strip1,
      tiltedStrip2 := tilt.strip2, cutPlane1 := tilt.plane1, cutPlane2 := tilt.plane2)];
    var one := if tilt.strip1.Some? && tilt.plane1.Some? then Filed(recorded, tilt.strip1.value, tilt.plane1.value) else recorded;
    if tilt.strip1.Some? && tilt.plane1.Some? {
      FiledEffect(recorded, tilt.strip1.value, tilt.plane1.value);
    }
    if tilt.strip2.Some? && tilt.plane2.Some? {
      FiledEffect(one, tilt.strip2.value, tilt.plane2.value);
    }
  }

  /** Filing a strip appends it to its target's render list, leaves the rest of that cache alone and changes no other facing. */
  lemma FiledEffect(caches: map<Facing, RawFaceCache>, strip: Polygon, plane: Plane)
    requires AllFacings(caches)
    ensures var out := Filed(caches, strip, plane); var t := Nearest(plane.normal);
      && out[t] == caches[t].(tiltedRender := caches[t].tiltedRender + [strip])
      && forall g: Facing :: g != t ==> out[g] == caches[g]
  {
  }

  /** The caches after the first n faces of FACE_DEFS, each with its tilt or skipped. */
  function TiltAll(caches: map<Facing, RawFaceCache>, tilts: seq<Option<Tilt>>, n: nat): (r: map<Facing, RawFaceCache>)
    requires AllFacings(caches) && n <= |tilts| && n <= |FaceDefs|
    ensures AllFacings(r)
  {
    if n == 0 then caches
    else
      var before := TiltAll(caches, tilts, n - 1);
      if tilts[n - 1].Some? then Tilted(before, FaceDefs[n - 1].facing, tilts[n - 1].value) else before
  }

  /** Each entry of FACE_DEFS lists four corner indices. */
  lemma FaceDefCorners(d: nat)
    requires d < 6
    ensures |FaceDefs[d].corners| == 4 && ValidKeys(FaceDefs[d].corners, 8)
  {
  }

  /** The tilts of the six faces of FACE_DEFS, each what the loop makes of that face. */
  predicate TiltsOf(corners: seq<Vec3>, base: seq<Vec3>, indicator: int, tilts: seq<Option<Tilt>>)
    requires |corners| == 8 && |base| == 8
  {
    && |tilts| == 6
    && TiltsUpTo(corners, base, indicator, tilts, 6)
  }

  /** The first n tilts are what the loop makes of the first n faces. */
  predicate TiltsUpTo(corners: seq<Vec3>, base: seq<Vec3>, indicator: int, tilts: seq<Option<Tilt>>, n: nat)
    requires |corners| == 8 && |base| == 8 && n <= |tilts| && n <= 6
  {
    forall d :: 0 <= d < n ==>
      (|FaceDefs[d].corners| == 4 && ValidKeys(FaceDefs[d].corners, 8) && TiltOf(corners, base, indicator, FaceDefs[d], tilts[d]))
  }

  /** One more face's tilt in the loop. */
  lemma TiltsUpToStep(corners: seq<Vec3>, base: seq<Vec3>, indicator: int, tilts: seq<Option<Tilt>>, t: Option<Tilt>)
    requires |corners| == 8 && |base| == 8 && |tilts| < 6
    requires TiltsUpTo(corners, base, indicator, tilts, |tilts|)
    requires |FaceDefs[|tilts|].corners| == 4 && ValidKeys(FaceDefs[|tilts|].corners, 8)
    requires TiltOf(corners, base, indicator, FaceDefs[|tilts|], t)
    ensures TiltsUpTo(corners, base, indicator, tilts + [t], |tilts| + 1)
  {
  }

  /** The caches after one more face. */
  lemma TiltAllStep(caches: map<Facing, RawFaceCache>, tilts: seq<Option<Tilt>>, t: Option<Tilt>)
    requires AllFacings(caches) && |tilts| < 6
    ensures TiltAll(caches, tilts + [t], |tilts| + 1)
      == if t.Some? then Tilted(TiltAll(caches, tilts, |tilts|), FaceDefs[|tilts|].facing, t.value) else TiltAll(caches, tilts, |tilts|)
  {
    TiltAllPrefix(caches, tilts + [t], |tilts|);
    assert (tilts + [t])[..|tilts|] == tilts;
  }

  /**
   * The first loop of computeTransformableRawFaceCache: every face in
   * FACE_DEFS order records its tilt, and each clipped strip is filed under
   * the facing nearest its plane. The ghost result holds each face's tilt.
   * When no corner is displaced, every face is skipped and the caches keep
   * their initial state.
   */
  method TiltedPass(corners: seq<Vec3>, base: seq<Vec3>, indicator: int, axisPlanes: seq<Plane>)
    returns (caches: map<Facing, RawFaceCache>, ghost tilts: seq<Option<Tilt>>)
    requires |corners| == 8 && |base| == 8 && |axisPlanes| == 6
    ensures TiltedCachesWellFormed(caches)
    ensures TiltsOf(corners, base, indicator, tilts)
    ensures caches == TiltAll(InitialRawFaceCaches, tilts, 6)
    ensures corners == base ==> caches == InitialRawFaceCaches
  {
    caches, tilts := InitialRawFaceCaches, [];
    for d := 0 to 6
      invariant |tilts| == d
      invariant TiltedCachesWellFormed(caches)
      invariant TiltsUpTo(corners, base, indicator, tilts, d)
      invariant caches == TiltAll(InitialRawFaceCaches, tilts, d)
      invariant corners == base ==> caches == InitialRawFaceCaches
    {
      FaceDefCorners(d);
      var t := TiltFace(corners, base, indicator, FaceDefs[d], axisPlanes);
      if t.Some? {
        caches := ApplyTilt(caches, FaceDefs[d].facing, t.value);
      }
      TiltsUpToStep(corners, base, indicator, tilts, t);
      TiltAllStep(InitialRawFaceCaches, tilts, t);
      tilts := tilts + [t];
    }
  }

  /** The first n faces' caches depend only on the first n tilts. */
  lemma {:induction false} TiltAllPrefix(caches: map<Facing, RawFaceCache>, tilts: seq<Option<Tilt>>, n: nat)
    requires AllFacings(caches) && n <= |tilts| && n <= |FaceDefs|
    ensures TiltAll(caches, tilts[..n], n) == TiltAll(caches, tilts, n)
    decreases n
  {
    if n > 0 {
      TiltAllPrefix(caches, tilts, n - 1);
      assert tilts[..n][..n - 1] == tilts[..n - 1];
      TiltAllPrefix(caches, tilts[..n], n - 1);
    }
  }

  // ---------------------------------------------------------------------
  // Cutting the axis strips

  /**
   * The cut planes one face imposes on the others: both when it has no
   * tilted strip left, when it is concave or when both strips survive;
   * otherwise only the plane of the surviving strip, in the first slot.
   */
  function SelectCutPlanes(source: RawFaceCache): (r: (Option<Plane>, Option<Plane>))
    ensures r.1.Some? ==> r.1 == source.cutPlane2
    ensures r.0.Some? ==> r.0 == source.cutPlane1 || r.0 == source.cutPlane2
    ensures source.tiltedStrip1.Some? && source.tiltedStrip2.None? && source.convex ==> r == (source.cutPlane1, None)
    ensures source.tiltedStrip1.None? && source.tiltedStrip2.Some? && source.convex ==> r == (source.cutPlane2, None)
  {
    if source.tiltedStrip1.None? && source.tiltedStrip2.None? then (source.cutPlane1, source.cutPlane2)
    else if !source.convex || (source.tiltedStrip1.Some? && source.tiltedStrip2.Some?) then (source.cutPlane1, source.cutPlane2)
    else if source.tiltedStrip1.Some? then (source.cutPlane1, None)
    else (source.cutPlane2, None)
  }

  /** The axis-cut tolerance: 1e-7 for the DOWN face and 5e-4 for every other face. */
  function AxisCutEpsilon(f: Facing): real
  {
    if f == DOWN then 0.0000001 else 0.0005
  }

  /** A plane the axis cut skips: missing, invalid, or within 2e-3 of the face's own normal. */
  predicate SkipsCut(plane: Option<Plane>, f: Facing)
  {
    plane.None? || plane.value.invalid || PlaneIsFacing(plane.value, f)
  }

  /** The clipped polygons that survived, in the order of their strips. */
  function Kept(clips: seq<Option<Polygon>>): (r: seq<Polygon>)
    ensures |r| <= |clips|
    decreases |clips|
  {
    if clips == [] then []
    else
      var prev := Kept(clips[..|clips| - 1]);
      if clips[|clips| - 1].Some? then prev + [clips[|clips| - 1].value] else prev
  }

  /**
   * One single cut of a list of strips by a plane: the strips unchanged
   * for a skipped plane, otherwise one clip per strip, each as
   * clipPolygonByPlane promises, keeping the clips that survive in order.
   */
  predicate SingleCut(strips: seq<Polygon>, f: Facing, plane: Option<Plane>, eps: real, clips: seq<Option<Polygon>>, out: seq<Polygon>)
  {
    if SkipsCut(plane, f) then out == strips
    else
      && |clips| == |strips|
      && (forall i :: 0 <= i < |strips| ==> ClipOutcome(strips[i], plane.value, eps, clips[i]))
      && out == Kept(clips)
  }

  /**
   * cutAxisStripsSingle: the strips unchanged for a skipped plane, else
   * the clip of each strip, keeping the non-empty ones. The ghost result
   * holds each strip's clip.
   */
  method CutAxisStripsSingle(strips: seq<Polygon>, f: Facing, plane: Option<Plane>, eps: real)
    returns (out: seq<Polygon>, ghost clips: seq<Option<Polygon>>)
    ensures SingleCut(strips, f, plane, eps, clips, out)
    ensures SkipsCut(plane, f) ==> out == strips
    ensures !SkipsCut(plane, f) ==> |out| <= |strips| && AtLeastTriangles(out)
  {
    clips := [];
    if SkipsCut(plane, f) {
      return strips, clips;
    }
    out, clips := ClipAll(strips, plane.value, eps);
  }

  /** The loop of cutAxisStripsSingle: every strip clipped in turn, the survivors kept in order. */
  method ClipAll(strips: seq<Polygon>, plane: Plane, eps: real)
    returns (out: seq<Polygon>, ghost clips: seq<Option<Polygon>>)
    ensures |clips| == |strips| && out == Kept(clips) && AtLeastTriangles(out)
    ensures forall k :: 0 <= k < |strips| ==> ClipOutcome(strips[k], plane, eps, clips[k])
  {
    out, clips := [], [];
    for i := 0 to |strips|
      invariant AtLeastTriangles(out)
      invariant |clips| == i && out == Kept(clips)
      invariant forall k :: 0 <= k < i ==> ClipOutcome(strips[k], plane, eps, clips[k])
    {
      var clipped := ClipPolygonByPlane(strips[i], plane, eps);
      assert (clips + [clipped])[..i] == clips;
      clips := clips + [clipped];
      if clipped.Some? {
        out := out + [clipped.value];
      }
    }
  }

  predicate Unusable(plane: Option<Plane>)
  {
    plane.None? || plane.value.invalid
  }

  /** The two clips of one strip in a dual cut, whether they overlapped, and the pieces kept. */
  datatype DualTrace = DualTrace(cut1: Option<Polygon>, cut2: Option<Polygon>, overlapped: bool, pieces: seq<Polygon>)

  /**
   * What one strip contributes to a dual cut: both clips as
   * clipPolygonByPlane promises; the one clip that exists, or nothing;
   * with two clips, both when they do not overlap, and otherwise the
   * second clip followed by pieces of the first outside it (each the first
   * clip itself or renderable). Two clips that coincide, or of which one
   * lies inside the other, overlap.
   */
  predicate DualPieces(strip: Polygon, f: Facing, plane1: Plane, plane2: Plane, eps: real, t: DualTrace)
  {
    && ClipOutcome(strip, plane1, eps, t.cut1)
    && ClipOutcome(strip, plane2, eps, t.cut2)
    && AtLeastTriangles(t.pieces)
    && (t.cut1.None? && t.cut2.None? ==> t.pieces == [])
    && (t.cut1.Some? && t.cut2.None? ==> t.pieces == [t.cut1.value])
    && (t.cut1.None? && t.cut2.Some? ==> t.pieces == [t.cut2.value])
    && (t.cut1.Some? && t.cut2.Some? ==>
          var (one, two) := FacePlaneAxes(f);
          var inverse := FacingPositive(f);
          && ((|| CyclicEqual(t.cut1.value, t.cut2.value, one, two, EPSILON)
               || InsideAll(t.cut1.value, one, two, t.cut2.value, inverse)
               || InsideAll(t.cut2.value, one, two, t.cut1.value, inverse)) ==> t.overlapped)
          && (!t.overlapped ==> t.pieces == [t.cut1.value, t.cut2.value])
          && (t.overlapped ==>
                && 1 <= |t.pieces| <= 1 + |t.cut2.value|
                && t.pieces[0] == t.cut2.value
                && forall q :: q in t.pieces[1..] ==> q == t.cut1.value || Renderable(q)))
  }

  /**
   * The pieces one strip contributes to a dual cut: the second clip and the
   * fans of the first clip outside it when the two clips overlap, both
   * clips otherwise, or the one clip that exists.
   */
  method DualCutPieces(strip: Polygon, f: Facing, plane1: Plane, plane2: Plane, eps: real)
    returns (pieces: seq<Polygon>, ghost trace: DualTrace)
    ensures trace.pieces == pieces && DualPieces(strip, f, plane1, plane2, eps, trace)
    ensures AtLeastTriangles(pieces)
  {
    var cut1 := ClipPolygonByPlane(strip, plane1, eps);
    var cut2 := ClipPolygonByPlane(strip, plane2, eps);
    pieces := [];
    var overlap := false;
    if cut1.Some? && cut2.Some? {
      var (one, two) := FacePlaneAxes(f);
      var inverse := FacingPositive(f);
      overlap := PolygonIntersect2d(cut1.value, cut2.value, one, two, inverse, 0.001);
      if overlap {
        var fans := PolygonCut2d(cut1.value, cut2.value, one, two, inverse, false);
        pieces := [cut2.value];
        for k := 0 to |fans|
          invariant AtLeastTriangles(pieces)
          invariant 1 <= |pieces| <= 1 + k && pieces[0] == cut2.value
          invariant forall q :: q in pieces[1..] ==> q == cut1.value || Renderable(q)
        {
          if |fans[k]| >= 3 {
            assert fans[k] in fans;
            pieces := pieces + [fans[k]];
          }
        }
      } else {
        pieces := [cut1.value, cut2.value];
      }
    } else if cut1.Some? {
      pieces := [cut1.value];
    } else if cut2.Some? {
      pieces := [cut2.value];
    }
    trace := DualTrace(cut1, cut2, overlap, pieces);
  }

  /** The pieces of every strip of a dual cut, in strip order. */
  function AllPieces(traces: seq<DualTrace>): (r: seq<Polygon>)
    decreases |traces|
  {
    if traces == [] then [] else AllPieces(traces[..|traces| - 1]) + traces[|traces| - 1].pieces
  }

  /**
   * The cuts the loop of computeTransformableRawFaceCache makes with one
   * face's planes: the strip list after the first single cut, the clips of
   * each single cut, and the per-strip record of a dual cut.
   */
  datatype CutTrace = CutTrace(mid: seq<Polygon>, clips1: seq<Option<Polygon>>, clips2: seq<Option<Polygon>>, duals: seq<DualTrace>)

  /**
   * One dual cut: the strips unchanged with no usable plane, the single
   * cut by the one usable plane, and with two usable planes every strip's
   * pieces in order, deduplicated within 1e-4.
   */
  predicate DualCut(strips: seq<Polygon>, f: Facing, plane1: Option<Plane>, plane2: Option<Plane>, eps: real, trace: CutTrace, out: seq<Polygon>)
  {
    if Unusable(plane1) && Unusable(plane2) then out == strips
    else if Unusable(plane1) then SingleCut(strips, f, plane2, eps, trace.clips1, out)
    else if Unusable(plane2) then SingleCut(strips, f, plane1, eps, trace.clips1, out)
    else
      && |trace.duals| == |strips|
      && (forall i :: 0 <= i < |strips| ==> DualPieces(strips[i], f, plane1.value, plane2.value, eps, trace.duals[i]))
      && out == Dedupe(AllPieces(trace.duals), 0.0001)
  }

  /** Each strip's dual-cut record, for the first n strips. */
  predicate DualsUpTo(strips: seq<Polygon>, f: Facing, plane1: Plane, plane2: Plane, eps: real, duals: seq<DualTrace>)
    requires |duals| <= |strips|
  {
    forall i :: 0 <= i < |duals| ==> DualPieces(strips[i], f, plane1, plane2, eps, duals[i])
  }

  /** One more strip's dual-cut record. */
  lemma DualsUpToStep(strips: seq<Polygon>, f: Facing, plane1: Plane, plane2: Plane, eps: real, duals: seq<DualTrace>, t: DualTrace)
    requires |duals| < |strips| && DualsUpTo(strips, f, plane1, plane2, eps, duals)
    requires DualPieces(strips[|duals|], f, plane1, plane2, eps, t)
    ensures DualsUpTo(strips, f, plane1, plane2, eps, duals + [t])
  {
    forall i | 0 <= i < |duals| + 1
      ensures DualPieces(strips[i], f, plane1, plane2, eps, (duals + [t])[i])
    {
      if i < |duals| {
        assert (duals + [t])[i] == duals[i];
      }
    }
  }

  /** The loop of cutAxisStripsDual with two usable planes: every strip's pieces, in strip order. */
  method DualPiecesAll(strips: seq<Polygon>, f: Facing, plane1: Plane, plane2: Plane, eps: real)
    returns (pieces: seq<Polygon>, ghost duals: seq<DualTrace>)
    ensures |duals| == |strips| && pieces == AllPieces(duals) && AtLeastTriangles(pieces)
    ensures DualsUpTo(strips, f, plane1, plane2, eps, duals)
  {
    pieces, duals := [], [];
    for i := 0 to |strips|
      invariant AtLeastTriangles(pieces)
      invariant |duals| == i && pieces == AllPieces(duals)
      invariant DualsUpTo(strips, f, plane1, plane2, eps, duals)
    {
      var more, t := DualCutPieces(strips[i], f, plane1, plane2, eps);
      DualsUpToStep(strips, f, plane1, plane2, eps, duals, t);
      assert (duals + [t])[..i] == duals;
      duals := duals + [t];
      pieces := pieces + more;
    }
  }

  /**
   * cutAxisStripsDual: with no usable plane the strips are unchanged, with
   * one usable plane it is the single cut by that plane, and with two the
   * pieces of every strip, deduplicated within 1e-4 so that no two kept
   * pieces are equal.
   */
  method CutAxisStripsDual(strips: seq<Polygon>, f: Facing, plane1: Option<Plane>, plane2: Option<Plane>, eps: real)
    returns (out: seq<Polygon>, ghost trace: CutTrace)
    ensures DualCut(strips, f, plane1, plane2, eps, trace, out)
    ensures Unusable(plane1) && Unusable(plane2) ==> out == strips
    ensures Unusable(plane1) && !Unusable(plane2) && SkipsCut(plane2, f) ==> out == strips
    ensures !Unusable(plane1) && Unusable(plane2) && SkipsCut(plane1, f) ==> out == strips
    ensures !Unusable(plane1) || !Unusable(plane2) ==> AtLeastTriangles(strips) ==> AtLeastTriangles(out)
    ensures !Unusable(plane1) && !Unusable(plane2) ==>
      AtLeastTriangles(out) && forall k, l :: 0 <= k < l < |out| ==> !EqualWithin(out[k], out[l], 0.0001)
  {
    trace := CutTrace(strips, [], [], []);
    if Unusable(plane1) && Unusable(plane2) {
      return strips, trace;
    }
    if Unusable(plane1) {
      ghost var clips;
      out, clips := CutAxisStripsSingle(strips, f, plane2, eps);
      trace := trace.(clips1 := clips);
      return;
    }
    if Unusable(plane2) {
      ghost var clips;
      out, clips := CutAxisStripsSingle(strips, f, plane1, eps);
      trace := trace.(clips1 := clips);
      return;
    }
    var pieces;
    ghost var duals;
    pieces, duals := DualPiecesAll(strips, f, plane1.value, plane2.value, eps);
    out := DedupePolygons(pieces, 0.0001);
    DedupeIsSubsequence(pieces, 0.0001);
    DedupeDistinctAndComplete(pieces, 0.0001);
    trace := trace.(duals := duals);
  }

  /** The full undisplaced rectangle of a facing through createStrip (fullRaw). */
  function FullRaw(f: Facing, base: seq<Vec3>): (r: Option<Polygon>)
    requires |base| == 8
    ensures r.Some? ==> Renderable(r.value)
  {
    Simplify(StripPoints(FaceCorners(f), base))
  }

  /** The starting axis strip of a facing: its base rectangle, if renderable. */
  function AxisStart(f: Facing, base: seq<Vec3>): (r: seq<Polygon>)
    requires |base| == 8
  {
    var full := FullRaw(f, base);
    if full.Some? then [full.value] else []
  }

  /** No face imposes a cut plane. */
  predicate NoCutPlanes(caches: map<Facing, RawFaceCache>)
  {
    forall f: Facing :: f in caches ==> caches[f].cutPlane1.None? && caches[f].cutPlane2.None?
  }

  /**
   * The cut one face imposes on a facing's strips: for a convex source two
   * single cuts in turn, by its first and then its second selected plane;
   * otherwise the dual cut by both.
   */
  predicate FaceCut(strips: seq<Polygon>, f: Facing, source: RawFaceCache, eps: real, trace: CutTrace, out: seq<Polygon>)
  {
    var (plane1, plane2) := SelectCutPlanes(source);
    if source.convex then
      SingleCut(strips, f, plane1, eps, trace.clips1, trace.mid) && SingleCut(trace.mid, f, plane2, eps, trace.clips2, out)
    else DualCut(strips, f, plane1, plane2, eps, trace, out)
  }

  /**
   * One step of the inner loop for a facing: the cut the face `source`
   * imposes, single cuts for a convex source and the dual cut otherwise.
   * A source without cut planes leaves the strips as they are.
   */
  method CutByFace(strips: seq<Polygon>, f: Facing, source: RawFaceCache, eps: real)
    returns (out: seq<Polygon>, ghost trace: CutTrace)
    requires AtLeastTriangles(strips)
    ensures FaceCut(strips, f, source, eps, trace, out)
    ensures AtLeastTriangles(out)
    ensures source.cutPlane1.None? && source.cutPlane2.None? ==> out == strips
  {
    var (plane1, plane2) := SelectCutPlanes(source);
    out := strips;
    trace := CutTrace(strips, [], [], []);
    if source.convex {
      if plane1.Some? {
        ghost var clips;
        out, clips := CutAxisStripsSingle(out, f, plane1, eps);
        trace := trace.(mid := out, clips1 := clips);
      }
      if plane2.Some? {
        ghost var clips;
        out, clips := CutAxisStripsSingle(out, f, plane2, eps);
        trace := trace.(clips2 := clips);
      }
    } else {
      out, trace := CutAxisStripsDual(out, f, plane1, plane2, eps);
    }
  }

  /**
   * The axis strips of one facing, with every stage of the inner loop:
   * the first stage is the facing's base rectangle, stage i + 1 is stage i
   * (non-empty) cut by the planes of the i-th facing in facing order with
   * the tolerance AxisCutEpsilon(f), and the loop stops early only once
   * nothing is left.
   */
  predicate AxisCut(f: Facing, caches: map<Facing, RawFaceCache>, base: seq<Vec3>,
                    stages: seq<seq<Polygon>>, traces: seq<CutTrace>, strips: seq<Polygon>)
    requires |base| == 8 && AllFacings(caches)
  {
    && 1 <= |stages| <= 7 && |traces| == |stages| - 1
    && stages[0] == AxisStart(f, base)
    && strips == stages[|stages| - 1]
    && (|stages| < 7 ==> strips == [])
    && CutsUpTo(f, caches, stages, traces)
  }

  /** Each recorded stage is the one before it, non-empty, cut by the next facing's planes. */
  predicate CutsUpTo(f: Facing, caches: map<Facing, RawFaceCache>, stages: seq<seq<Polygon>>, traces: seq<CutTrace>)
    requires AllFacings(caches) && |traces| < |stages| && |traces| <= 6
  {
    forall i :: 0 <= i < |traces| ==>
      stages[i] != [] && FaceCut(stages[i], f, caches[FacingOrder[i]], AxisCutEpsilon(f), traces[i], stages[i + 1])
  }

  /** One more stage of the inner loop. */
  lemma CutsUpToStep(f: Facing, caches: map<Facing, RawFaceCache>, stages: seq<seq<Polygon>>, traces: seq<CutTrace>,
                     trace: CutTrace, out: seq<Polygon>)
    requires AllFacings(caches) && |traces| + 1 == |stages| && |traces| < 6
    requires CutsUpTo(f, caches, stages, traces)
    requires stages[|traces|] != []
    requires FaceCut(stages[|traces|], f, caches[FacingOrder[|traces|]], AxisCutEpsilon(f), trace, out)
    ensures CutsUpTo(f, caches, stages + [out], traces + [trace])
  {
    var s, t := stages + [out], traces + [trace];
    forall i | 0 <= i < |t|
      ensures s[i] != [] && FaceCut(s[i], f, caches[FacingOrder[i]], AxisCutEpsilon(f), t[i], s[i + 1])
    {
      if i < |traces| {
        assert s[i] == stages[i] && s[i + 1] == stages[i + 1] && t[i] == traces[i];
      }
    }
  }

  /** `[createStrip(axisFace.corners, baseCorners)].filter(Boolean)`: the starting axis strips of a facing. */
  method AxisStartStrips(f: Facing, base: seq<Vec3>) returns (strips: seq<Polygon>)
    requires |base| == 8
    ensures strips == AxisStart(f, base) && AtLeastTriangles(strips)
  {
    var full := CreateStrip(FaceCorners(f), base);
    strips := if full.Some? then [full.value] else [];
  }

  /** One pass of the inner loop: the last stage cut by the planes of the next facing in facing order. */
  method CutStage(strips: seq<Polygon>, i: nat, f: Facing, caches: map<Facing, RawFaceCache>, eps: real,
                  ghost stages: seq<seq<Polygon>>, ghost traces: seq<CutTrace>)
    returns (next: seq<Polygon>, ghost trace: CutTrace)
    requires AllFacings(caches) && i == |traces| && |traces| + 1 == |stages| && i < 6 && eps == AxisCutEpsilon(f)
    requires CutsUpTo(f, caches, stages, traces)
    requires strips == stages[i] && strips != [] && AtLeastTriangles(strips)
    ensures CutsUpTo(f, caches, stages + [next], traces + [trace])
    ensures AtLeastTriangles(next)
    ensures NoCutPlanes(caches) ==> next == strips
  {
    next, trace := CutByFace(strips, f, caches[FacingOrder[i]], eps);
    CutsUpToStep(f, caches, stages, traces, trace, next);
  }

  /**
   * The second loop of computeTransformableRawFaceCache for one facing:
   * its base rectangle, cut by the planes every face imposes in facing
   * order with AxisCutEpsilon(f), stopping once nothing is left. Without
   * cut planes the rectangle is kept as it is.
   */
  method AxisStripsForFacing(f: Facing, caches: map<Facing, RawFaceCache>, base: seq<Vec3>)
    returns (strips: seq<Polygon>, ghost stages: seq<seq<Polygon>>, ghost traces: seq<CutTrace>)
    requires |base| == 8 && AllFacings(caches)
    ensures AxisCut(f, caches, base, stages, traces, strips)
    ensures AtLeastTriangles(strips)
    ensures NoCutPlanes(caches) ==> IsAxisStart(strips, f, base)
  {
    strips := AxisStartStrips(f, base);
    stages, traces := [strips], [];
    var eps := AxisCutEpsilon(f);
    for i := 0 to 6
      invariant |stages| == i + 1 && |traces| == i
      invariant stages[0] == AxisStart(f, base) && strips == stages[i]
      invariant CutsUpTo(f, caches, stages, traces)
      invariant AtLeastTriangles(strips)
      invariant NoCutPlanes(caches) ==> IsAxisStart(strips, f, base)
    {
      if |strips| == 0 {
        break;
      }
      var next, trace := CutStage(strips, i, f, caches, eps, stages, traces);
      strips, stages, traces := next, stages + [next], traces + [trace];
    }
  }

  /** The caches once every facing has its axis strips. */
  function WithAxisStrips(tilted: map<Facing, RawFaceCache>, axis: seq<seq<Polygon>>): map<Facing, RawFaceCache>
    requires |axis| == 6 && forall f: Facing :: f in tilted
  {
    map f: Facing | true :: tilted[f].(axisStrips := axis[Ordinal(f)])
  }

  /** The six box planes in facing order. */
  function AxisPlanes(box: Box): (r: seq<Plane>)
    ensures |r| == 6
  {
    seq(6, i requires 0 <= i < 6 => PlaneForFacing(box, FacingOrder[i]))
  }

  /** A facing's strips are its starting axis strip. */
  predicate IsAxisStart(strips: seq<Polygon>, f: Facing, base: seq<Vec3>)
    requires |base| == 8
  {
    strips == AxisStart(f, base)
  }

  /** The k-th strips in facing order are the starting axis strip of that facing. */
  predicate IsAxisStartAt(strips: seq<Polygon>, k: nat, base: seq<Vec3>)
    requires k < 6 && |base| == 8
  {
    IsAxisStart(strips, FacingOrder[k], base)
  }

  /** The axis strips of the six facings in facing order, each with the stages and cuts that made it. */
  predicate AxisStripsOf(tilted: map<Facing, RawFaceCache>, base: seq<Vec3>,
                         axis: seq<seq<Polygon>>, stages: seq<seq<seq<Polygon>>>, traces: seq<seq<CutTrace>>)
    requires |base| == 8 && AllFacings(tilted)
  {
    && |axis| == 6 && |stages| == 6 && |traces| == 6
    && AxisUpTo(tilted, base, axis, stages, traces, 6)
  }

  /** The first n facings' axis strips, stages and cuts. */
  predicate AxisUpTo(tilted: map<Facing, RawFaceCache>, base: seq<Vec3>,
                     axis: seq<seq<Polygon>>, stages: seq<seq<seq<Polygon>>>, traces: seq<seq<CutTrace>>, n: nat)
    requires |base| == 8 && AllFacings(tilted) && n <= 6 && n <= |axis| && n <= |stages| && n <= |traces|
  {
    forall k :: 0 <= k < n ==> AxisCut(FacingOrder[k], tilted, base, stages[k], traces[k], axis[k])
  }

  /** One more facing's axis strips. */
  lemma AxisUpToStep(tilted: map<Facing, RawFaceCache>, base: seq<Vec3>,
                     axis: seq<seq<Polygon>>, stages: seq<seq<seq<Polygon>>>, traces: seq<seq<CutTrace>>,
                     strips: seq<Polygon>, s: seq<seq<Polygon>>, t: seq<CutTrace>)
    requires |base| == 8 && AllFacings(tilted) && |axis| < 6 && |stages| == |axis| && |traces| == |axis|
    requires AxisUpTo(tilted, base, axis, stages, traces, |axis|)
    requires AxisCut(FacingOrder[|axis|], tilted, base, s, t, strips)
    ensures AxisUpTo(tilted, base, axis + [strips], stages + [s], traces + [t], |axis| + 1)
  {
    var n := |axis|;
    forall k | 0 <= k < n + 1
      ensures AxisCut(FacingOrder[k], tilted, base, (stages + [s])[k], (traces + [t])[k], (axis + [strips])[k])
    {
      if k < n {
        assert (stages + [s])[k] == stages[k] && (traces + [t])[k] == traces[k] && (axis + [strips])[k] == axis[k];
      }
    }
  }

  /** The axis strips of the six facings, in facing order. */
  method AxisLoop(tilted: map<Facing, RawFaceCache>, base: seq<Vec3>)
    returns (axis: seq<seq<Polygon>>, ghost stages: seq<seq<seq<Polygon>>>, ghost traces: seq<seq<CutTrace>>)
    requires |base| == 8 && AllFacings(tilted)
    ensures AxisStripsOf(tilted, base, axis, stages, traces)
    ensures forall k :: 0 <= k < 6 ==> AtLeastTriangles(axis[k])
    ensures NoCutPlanes(tilted) ==> forall k :: 0 <= k < 6 ==> IsAxisStartAt(axis[k], k, base)
  {
    axis, stages, traces := [], [], [];
    for i := 0 to 6
      invariant |axis| == i && |stages| == i && |traces| == i
      invariant AxisUpTo(tilted, base, axis, stages, traces, i)
      invariant forall k :: 0 <= k < i ==> AtLeastTriangles(axis[k])
      invariant NoCutPlanes(tilted) ==> forall k :: 0 <= k < i ==> IsAxisStartAt(axis[k], k, base)
    {
      var strips, s, t := AxisStripsForFacing(FacingOrder[i], tilted, base);
      AxisUpToStep(tilted, base, axis, stages, traces, strips, s, t);
      axis, stages, traces := axis + [strips], stages + [s], traces + [t];
    }
  }

  /** Every facing in its initial state apart from its base rectangle as the only axis strip. */
  predicate UndisplacedCaches(caches: map<Facing, RawFaceCache>, base: seq<Vec3>)
    requires |base| == 8
  {
    forall f: Facing :: f in caches && caches[f] == InitialRawFaceCache.(axisStrips := AxisStart(f, base))
  }

  /**
   * The second loop of computeTransformableRawFaceCache: every facing keeps
   * its tilted state and receives its axis strips. From the initial state
   * each facing keeps its base rectangle.
   */
  method AxisPass(tilted: map<Facing, RawFaceCache>, base: seq<Vec3>)
    returns (caches: map<Facing, RawFaceCache>, ghost axis: seq<seq<Polygon>>,
             ghost stages: seq<seq<seq<Polygon>>>, ghost traces: seq<seq<CutTrace>>)
    requires |base| == 8 && TiltedCachesWellFormed(tilted)
    ensures AllFacings(tilted) && AxisStripsOf(tilted, base, axis, stages, traces)
    ensures caches == WithAxisStrips(tilted, axis)
    ensures forall f: Facing :: f in caches && StripsAreTriangles(caches[f])
    ensures forall f: Facing :: caches[f] == tilted[f].(axisStrips := caches[f].axisStrips)
    ensures tilted == InitialRawFaceCaches ==> UndisplacedCaches(caches, base)
  {
    var a;
    a, stages, traces := AxisLoop(tilted, base);
    axis := a;
    caches := WithAxisStrips(tilted, a);
    FacingOrderIsOrdinal();
    if tilted == InitialRawFaceCaches {
      assert NoCutPlanes(tilted);
    }
  }

  /** The record of computeTransformableRawFaceCache: each face's tilt, then the axis strips of every facing with their stages and cuts. */
  datatype RawTrace = RawTrace(tilts: seq<Option<Tilt>>, axis: seq<seq<Polygon>>, stages: seq<seq<seq<Polygon>>>, traces: seq<seq<CutTrace>>)

  /**
   * The raw caches of a box: the tilted pass over the decoded corners (each
   * face's tilt as TiltOf says) applied to the initial caches, then each
   * facing's axis strips cut as AxisCut says.
   */
  predicate RawCachesOf(box: Box, data: seq<int>, base: seq<Vec3>, t: RawTrace, caches: map<Facing, RawFaceCache>)
    requires |base| == 8
  {
    var corners := CornerPoints(DecodedCorners(box, data));
    && |corners| == 8
    && TiltsOf(corners, base, Indicator(data), t.tilts)
    && var tilted := TiltAll(InitialRawFaceCaches, t.tilts, 6);
      AxisStripsOf(tilted, base, t.axis, t.stages, t.traces) && caches == WithAxisStrips(tilted, t.axis)
  }

  /**
   * computeTransformableRawFaceCache: the tilted pass over FACE_DEFS, then
   * the axis strips of every facing. When no corner is displaced, every
   * facing keeps its initial state apart from its base rectangle.
   */
  method ComputeTransformableRawFaceCache(box: Box, data: seq<int>)
    returns (caches: map<Facing, RawFaceCache>, base: seq<Vec3>, ghost trace: RawTrace)
    ensures base == CornerPoints(BaseCorners(box))
    ensures RawCachesOf(box, data, base, trace, caches)
    ensures forall f: Facing :: f in caches && StripsAreTriangles(caches[f])
    ensures DecodedCorners(box, data) == BaseCorners(box) ==> UndisplacedCaches(caches, base)
  {
    var decoded := DecodeTransformableCorners(box, data);
    var corners := CornerPoints(decoded);
    base := CornerPoints(BaseCorners(box));
    var indicator := Indicator(data);
    var axisPlanes := AxisPlanes(box);
    var tilted;
    ghost var tilts, axis, stages, traces;
    tilted, tilts := TiltedPass(corners, base, indicator, axisPlanes);
    caches, axis, stages, traces := AxisPass(tilted, base);
    trace := RawTrace(tilts, axis, stages, traces);
    if decoded == BaseCorners(box) {
      assert corners == base;
    }
  }

  // ---------------------------------------------------------------------
  // The render cache

  function ScalePolygon(p: Polygon, k: real): (r: Polygon)
    ensures |r| == |p|
  {
    seq(|p|, i requires 0 <= i < |p| => Scale(p[i], k))
  }

  /**
   * The rendered list of a raw list: its renderable polygons (three or
   * more vertices, not degenerate), scaled from grid to world units.
   */
  function RenderPolygons(ps: seq<Polygon>, k: real): (r: seq<Polygon>)
    ensures |r| <= |ps|
    ensures forall p :: p in r <==> exists q :: q in ps && Renderable(q) && p == ScalePolygon(q, k)
    decreases |ps|
  {
    if ps == [] then []
    else
      var rest := RenderPolygons(ps[1..], k);
      assert forall q :: q in ps <==> q == ps[0] || q in ps[1..];
      if Renderable(ps[0]) then [ScalePolygon(ps[0], k)] + rest else rest
  }

  /**
   * The face a raw cache renders as, given the full undisplaced rectangle
   * `fullRaw`: both lists rendered, and completely filled when there is no
   * tilted strip, there is exactly one raw axis strip, and it equals the
   * full rectangle within 1e-4.
   */
  function FaceRenderSpec(raw: RawFaceCache, fullRaw: Option<Polygon>, k: real): FaceRender
  {
    FaceRender(
      RenderPolygons(raw.axisStrips, k),
      RenderPolygons(raw.tiltedRender, k),
      raw.tiltedStrip1.None? && raw.tiltedStrip2.None? && |raw.axisStrips| == 1 &&
      fullRaw.Some? && EqualWithin(raw.axisStrips[0], fullRaw.value, 0.0001))
  }

  /**
   * The body of the facing loop of getTransformableRenderCache. The face is
   * completely filled only when all three hold: no tilted strip, exactly
   * one raw axis strip, and that strip equal to the full rectangle.
   */
  method FaceRenderOf(raw: RawFaceCache, fullRaw: Option<Polygon>, k: real) returns (fr: FaceRender)
    ensures fr == FaceRenderSpec(raw, fullRaw, k)
    ensures fr.isCompletelyFilled <==>
      raw.tiltedStrip1.None? && raw.tiltedStrip2.None? && |raw.axisStrips| == 1 &&
      fullRaw.Some? && EqualWithin(raw.axisStrips[0], fullRaw.value, 0.0001)
  {
    var filled := false;
    if raw.tiltedStrip1.None? && raw.tiltedStrip2.None? && |raw.axisStrips| == 1 && fullRaw.Some? {
      filled := PolygonsEqual(raw.axisStrips[0], fullRaw.value, 0.0001);
    }
    fr := FaceRender(RenderPolygons(raw.axisStrips, k), RenderPolygons(raw.tiltedRender, k), filled);
  }

  /** The face rendered for the k-th facing in facing order. */
  predicate RendersAt(fr: FaceRender, k: nat, caches: map<Facing, RawFaceCache>, base: seq<Vec3>, scale: real)
    requires k < 6 && |base| == 8 && forall f: Facing :: f in caches
  {
    RendersAs(fr, caches[FacingOrder[k]], FacingOrder[k], base, scale)
  }

  /** A facing's rendered face, from its raw cache and its full rectangle. */
  predicate RendersAs(fr: FaceRender, raw: RawFaceCache, f: Facing, base: seq<Vec3>, scale: real)
    requires |base| == 8
  {
    fr == FaceRenderSpec(raw, FullRaw(f, base), scale)
  }

  /** One facing of the loop: its full rectangle through createStrip, then its rendered face. */
  method RenderFace(f: Facing, raw: RawFaceCache, base: seq<Vec3>, k: real) returns (fr: FaceRender)
    requires |base| == 8
    ensures RendersAs(fr, raw, f, base, k)
  {
    var fullRaw := CreateStrip(FaceCorners(f), base);
    fr := FaceRenderOf(raw, fullRaw, k);
  }

  /** The facing loop of getTransformableRenderCache: the rendered faces in facing order. */
  method RenderFaces(caches: map<Facing, RawFaceCache>, base: seq<Vec3>, k: real) returns (renders: seq<FaceRender>)
    requires |base| == 8 && forall f: Facing :: f in caches
    ensures |renders| == 6 && forall j :: 0 <= j < 6 ==> RendersAt(renders[j], j, caches, base, k)
  {
    renders := [];
    for i := 0 to 6
      invariant |renders| == i
      invariant RendersUpTo(renders, caches, base, k)
    {
      var fr := RenderFace(FacingOrder[i], caches[FacingOrder[i]], base, k);
      RendersUpToStep(renders, caches, base, k, fr);
      renders := renders + [fr];
    }
  }

  /** Every face rendered so far is the one of its facing. */
  predicate RendersUpTo(renders: seq<FaceRender>, caches: map<Facing, RawFaceCache>, base: seq<Vec3>, k: real)
    requires |renders| <= 6 && |base| == 8 && AllFacings(caches)
  {
    forall j :: 0 <= j < |renders| ==> RendersAt(renders[j], j, caches, base, k)
  }

  /** One more rendered face. */
  lemma RendersUpToStep(renders: seq<FaceRender>, caches: map<Facing, RawFaceCache>, base: seq<Vec3>, k: real, fr: FaceRender)
    requires |renders| < 6 && |base| == 8 && AllFacings(caches)
    requires RendersUpTo(renders, caches, base, k)
    requires RendersAs(fr, caches[FacingOrder[|renders|]], FacingOrder[|renders|], base, k)
    ensures RendersUpTo(renders + [fr], caches, base, k)
  {
    forall j | 0 <= j < |renders| + 1
      ensures RendersAt((renders + [fr])[j], j, caches, base, k)
    {
      if j < |renders| {
        assert (renders + [fr])[j] == renders[j];
      }
    }
  }

  /** The render cache: one rendered face per facing. */
  method BuildRenderCache(caches: map<Facing, RawFaceCache>, base: seq<Vec3>, k: real) returns (cache: RenderCache)
    requires |base| == 8 && forall f: Facing :: f in caches
    ensures cache.Complete()
    ensures forall f: Facing :: cache.faces[f] == FaceRenderSpec(caches[f], FullRaw(f, base), k)
  {
    var renders := RenderFaces(caches, base, k);
    cache := RenderCache(map f: Facing | true :: renders[Ordinal(f)]);
    FacingOrderIsOrdinal();
    forall f: Facing
      ensures cache.faces[f] == FaceRenderSpec(caches[f], FullRaw(f, base), k)
    {
      assert RendersAt(renders[Ordinal(f)], Ordinal(f), caches, base, k);
      assert RendersAs(cache.faces[f], caches[f], f, base, k);
    }
  }

  /** Transform data that counts: present and non-empty. */
  predicate HasTransformData(box: Box)
  {
    box.transformData.Some? && |box.transformData.value| > 0
  }

  /**
   * getTransformableRenderCache. An existing memo is returned as it is and
   * the box is unchanged. Otherwise the computed cache is stored in the
   * box: six empty faces without transform data, and else one rendered
   * face per facing. When the transform data displaces no corner, no face
   * has tilted polygons and each face is completely filled exactly when
   * its base rectangle is renderable.
   */
  method GetTransformableRenderCache(box: Box)
    returns (cache: RenderCache, updated: Box, ghost raw: map<Facing, RawFaceCache>, ghost trace: RawTrace)
    ensures box.transformCache.Some? ==> cache == box.transformCache.value && updated == box
    ensures box.transformCache.None? ==> updated == box.(transformCache := Some(cache)) && cache.Complete()
    ensures box.transformCache.None? && !HasTransformData(box) ==> cache == EmptyRenderCache
    ensures box.transformCache.None? && HasTransformData(box) ==>
      var base := CornerPoints(BaseCorners(box));
      && RawCachesOf(box, box.transformData.value, base, trace, raw)
      && forall f: Facing :: f in raw && cache.faces[f] == FaceRenderSpec(raw[f], FullRaw(f, base), 1.0 / box.grid as real)
    ensures box.transformCache.None? && HasTransformData(box) ==>
      var base := CornerPoints(BaseCorners(box));
      DecodedCorners(box, box.transformData.value) == BaseCorners(box) ==> forall f: Facing ::
        cache.faces[f].tiltedRender == [] && (cache.faces[f].isCompletelyFilled <==> FullRaw(f, base).Some?)
  {
    raw, trace := InitialRawFaceCaches, RawTrace([], [], [], []);
    if box.transformCache.Some? {
      return box.transformCache.value, box, raw, trace;
    }
    if !HasTransformData(box) {
      cache := EmptyRenderCache;
      updated := box.(transformCache := Some(cache));
      return;
    }
    var data := box.transformData.value;
    var caches, base;
    caches, base, trace := ComputeTransformableRawFaceCache(box, data);
    raw := caches;
    var invGrid := 1.0 / box.grid as real;
    cache := BuildRenderCache(caches, base, invGrid);
    updated := box.(transformCache := Some(cache));
    if DecodedCorners(box, data) == BaseCorners(box) {
      forall f: Facing
        ensures cache.faces[f].tiltedRender == [] && (cache.faces[f].isCompletelyFilled <==> FullRaw(f, base).Some?)
      {
        UndisplacedFaceIsFilled(f, base, caches[f], cache.faces[f], invGrid);
      }
    }
  }

  /**
   * A face whose raw cache is the initial state plus its base rectangle
   * renders without tilted polygons, and is completely filled exactly when
   * that rectangle is renderable.
   */
  lemma UndisplacedFaceIsFilled(f: Facing, base: seq<Vec3>, raw: RawFaceCache, fr: FaceRender, k: real)
    requires |base| == 8
    requires raw == InitialRawFaceCache.(axisStrips := AxisStart(f, base))
    requires fr == FaceRenderSpec(raw, FullRaw(f, base), k)
    ensures fr.tiltedRender == []
    ensures fr.isCompletelyFilled <==> FullRaw(f, base).Some?
  {
    var full := FullRaw(f, base);
    if full.Some? {
      EqualWithinReflexive(full.value, 0.0001);
    }
  }
}
