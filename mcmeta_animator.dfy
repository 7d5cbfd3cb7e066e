/**
 * The viewer's mcmeta texture animator (`mcmeta-texture-animator.js`):
 * animation metadata and frame normalisation, the tick sampler, the
 * animator's bindings with the sample keys update() writes into them, and
 * the helpers that find an mcmeta file and read a colour factor.
 *
 * Numbers are exact reals; a value that is not finite is `None` where the
 * source tests for it.
 */
module McmetaAnimator {
  import opened Wrappers
  import opened Json
  import opened Strings
  import OffsetTracks
  import TextureReport
  import MaterialResolver

  type Frame = OffsetTracks.TrackFrame

  /** Minecraft's client ticks per second. */
  const TICKS_PER_SECOND: real := 20.0

  // ---------------------------------------------------------------------------
  // mod
  // ---------------------------------------------------------------------------

  /** Math.trunc: the integer part, rounded toward zero. */
  function Trunc(x: real): (t: int)
    ensures x >= 0.0 ==> t as real <= x < t as real + 1.0
    ensures x < 0.0 ==> t as real - 1.0 < x <= t as real
  {
    if x >= 0.0 then x.Floor else -((-x).Floor)
  }

  /** JavaScript's `%` on numbers: the remainder of the quotient truncated toward zero. */
  function JsRem(v: real, d: real): real
    requires d > 0.0
  {
    v - d * (Trunc(v / d) as real)
  }

  /** A positive divisor scales [0, 1) into [0, d). */
  lemma ProductBelow(d: real, u: real)
    requires d > 0.0 && 0.0 <= u < 1.0
    ensures 0.0 <= d * u < d
  {
    var w := 1.0 - u;
    assert d - d * u == d * w;
    assert d * w > 0.0;
  }

  /** A positive divisor scales a factor of at least 1 to at least itself. */
  lemma ProductAtLeast(d: real, m: real)
    requires d > 0.0 && m >= 1.0
    ensures d * m >= d
  {
    var w := m - 1.0;
    assert d * m - d == d * w;
    assert d * w >= 0.0;
  }

  /** A quotient has the sign of its dividend. */
  lemma QuotientSign(v: real, d: real)
    requires d > 0.0
    ensures v == d * (v / d)
    ensures v >= 0.0 <==> v / d >= 0.0
  {
  }

  /** For v = d·x with t ≤ x < t + 1, the remainder v − d·t lies in [0, d). */
  lemma RemainderBelow(v: real, d: real, x: real, t: real)
    requires d > 0.0 && v == d * x && t <= x < t + 1.0
    ensures 0.0 <= v - d * t < d
  {
    var u := x - t;
    var r := v - d * t;
    assert r == d * u;
    ProductBelow(d, u);
  }

  /** For v = d·x with t − 1 < x ≤ t, the remainder v − d·t lies in (−d, 0]. */
  lemma RemainderAbove(v: real, d: real, x: real, t: real)
    requires d > 0.0 && v == d * x && t - 1.0 < x <= t
    ensures -d < v - d * t <= 0.0
  {
    var u := t - x;
    var r := v - d * t;
    assert r == -(d * u);
    ProductBelow(d, u);
  }

  /** The truncated quotient leaves a remainder with the sign of the dividend, smaller than the divisor. */
  lemma JsRemBounds(v: real, d: real)
    requires d > 0.0
    ensures v >= 0.0 ==> 0.0 <= JsRem(v, d) < d
    ensures v < 0.0 ==> -d < JsRem(v, d) <= 0.0
  {
    var x := v / d;
    var t := Trunc(x) as real;
    QuotientSign(v, d);
    if v >= 0.0 {
      RemainderBelow(v, d, x, t);
    } else {
      RemainderAbove(v, d, x, t);
    }
  }

  /**
   * mod: `((value % divisor) + divisor) % divisor`, and 0 for a value or a
   * divisor that is not finite or a divisor that is not positive. The
   * result lies in [0, divisor).
   */
  function Mod(value: Option<real>, divisor: Option<real>): (r: real)
    ensures value.None? || divisor.None? || divisor.value <= 0.0 ==> r == 0.0
    ensures value.Some? && divisor.Some? && divisor.value > 0.0 ==> 0.0 <= r < divisor.value
  {
    if value.None? || divisor.None? || divisor.value <= 0.0 then 0.0
    else
      var d := divisor.value;
      var inner := JsRem(value.value, d);
      JsRemBounds(value.value, d);
      JsRemBounds(inner + d, d);
      JsRem(inner + d, d)
  }

  /** A factor whose product with a positive divisor lies strictly within ±d lies strictly within ±1. */
  lemma FactorBetween(d: real, m: real)
    requires d > 0.0 && -d < d * m < d
    ensures -1.0 < m < 1.0
  {
    if m >= 1.0 {
      ProductAtLeast(d, m);
      assert false;
    }
    if m <= -1.0 {
      ProductAtLeast(d, -m);
      assert false;
    }
  }

  /** Two remainders of the same value in [0, d) are equal. */
  lemma RemainderUnique(v: real, d: real, k1: int, k2: int)
    requires d > 0.0
    requires 0.0 <= v - d * (k1 as real) < d
    requires 0.0 <= v - d * (k2 as real) < d
    ensures k1 == k2
  {
    var r1 := v - d * (k1 as real);
    var r2 := v - d * (k2 as real);
    var m := (k2 - k1) as real;
    assert r1 - r2 == d * m;
    FactorBetween(d, m);
  }

  /** mod differs from its value by a whole number of divisors. */
  lemma ModIsMultiple(v: real, d: real) returns (k: int)
    requires d > 0.0
    ensures Mod(Some(v), Some(d)) == v - d * (k as real)
  {
    var t1 := Trunc(v / d);
    var inner := JsRem(v, d);
    var t2 := Trunc((inner + d) / d);
    k := t1 - 1 + t2;
    var a := d * (t1 as real);
    var b := d * (t2 as real);
    assert inner == v - a;
    assert Mod(Some(v), Some(d)) == inner + d - b;
    assert d * (k as real) == a - d + b;
  }

  /** mod is the floored remainder: value − divisor·⌊value / divisor⌋. */
  lemma ModIsFlooredRemainder(v: real, d: real)
    requires d > 0.0
    ensures Mod(Some(v), Some(d)) == v - d * ((v / d).Floor as real)
  {
    var k := ModIsMultiple(v, d);
    var q := FloorQuotient(v, d);
    SameRemainder(v, d, Mod(Some(v), Some(d)), k, q);
  }

  /** The floored quotient leaves a remainder in [0, d). */
  lemma FloorQuotient(v: real, d: real) returns (q: int)
    requires d > 0.0
    ensures q == (v / d).Floor
    ensures 0.0 <= v - d * (q as real) < d
  {
    var x := v / d;
    q := x.Floor;
    QuotientSign(v, d);
    RemainderBelow(v, d, x, q as real);
  }

  /** A value in [0, d) that differs from v by k divisors is its remainder by any other such q. */
  lemma SameRemainder(v: real, d: real, m: real, k: int, q: int)
    requires d > 0.0 && m == v - d * (k as real) && 0.0 <= m < d
    requires 0.0 <= v - d * (q as real) < d
    ensures m == v - d * (q as real)
  {
    RemainderUnique(v, d, k, q);
  }

  // ---------------------------------------------------------------------------
  // clampFrameIndex and normalizeAnimationFrames
  // ---------------------------------------------------------------------------

  /**
   * clampFrameIndex: 0 for an index that is not an integer (`None`) or a
   * count that is not positive; otherwise the index clamped into
   * [0, frameCount − 1].
   */
  function ClampFrameIndex(index: Option<int>, frameCount: int): (r: int)
    ensures index.None? || frameCount <= 0 ==> r == 0
    ensures frameCount >= 1 ==> 0 <= r < frameCount
    ensures index.Some? && 0 <= index.value < frameCount ==> r == index.value
    ensures index.Some? && frameCount >= 1 && index.value >= frameCount ==> r == frameCount - 1
  {
    if index.None? || frameCount <= 0 then 0
    else if index.value < 0 then 0
    else if index.value >= frameCount then frameCount - 1
    else index.value
  }

  /** For an integer and a positive count, the viewer clamps a frame index as the importer's tracks do. */
  lemma ClampFrameIndexAgrees(index: int, frameCount: int)
    requires frameCount >= 1
    ensures ClampFrameIndex(Some(index), frameCount) == OffsetTracks.ClampFrameIndex(index, frameCount)
  {
  }

  /** The parsed frames with their indices clamped into the strip. */
  function ClampedFrames(frames: seq<Frame>, frameCount: int): (r: seq<Frame>)
    ensures |r| == |frames|
  {
    seq(|frames|, k requires 0 <= k < |frames| => OffsetTracks.TrackFrame(ClampFrameIndex(Some(frames[k].index), frameCount), frames[k].time))
  }

  /** Frames 0 .. frameCount − 1, each shown for the default time. */
  function DefaultFrames(frameCount: int, defaultTime: int): (r: seq<Frame>)
    ensures |r| == if frameCount > 0 then frameCount else 0
  {
    seq(if frameCount > 0 then frameCount else 0, k => OffsetTracks.TrackFrame(k, defaultTime))
  }

  /**
   * normalizeAnimationFrames: each integer entry of an array, and each
   * object entry with an integer `index`, gives a frame whose index is
   * clamped into the strip; when no entry does, every frame of the strip
   * in order, each for the default time.
   */
  function ViewerFrames(framesRaw: Option<Json>, frameCount: int, defaultTime: int): seq<Frame>
  {
    var parsed := ClampedFrames(TextureReport.AnimationFrames(framesRaw, defaultTime), frameCount);
    if |parsed| > 0 then parsed else DefaultFrames(frameCount, defaultTime)
  }

  /** normalizeAnimationFrames as the source runs it: a pass over the entries, then the fallback loop. */
  method NormalizeAnimationFrames(framesRaw: Option<Json>, frameCount: int, defaultTime: int) returns (out: seq<Frame>)
    ensures out == ViewerFrames(framesRaw, frameCount, defaultTime)
  {
    out := [];
    if framesRaw.Some? && framesRaw.value.JArr? {
      var raws := framesRaw.value.items;
      for i := 0 to |raws|
        invariant out == ClampedFrames(TextureReport.FramesOf(raws[..i], defaultTime), frameCount)
      {
        assert raws[..i + 1][..i] == raws[..i];
        var f := TextureReport.FrameOf(raws[i], defaultTime);
        if f.Some? {
          out := out + [OffsetTracks.TrackFrame(ClampFrameIndex(Some(f.value.index), frameCount), f.value.time)];
        }
      }
      assert raws[..|raws|] == raws;
    }
    assert out == ClampedFrames(TextureReport.AnimationFrames(framesRaw, defaultTime), frameCount);
    if |out| > 0 {
      return;
    }
    var i := 0;
    while i < frameCount
      invariant 0 <= i <= (if frameCount > 0 then frameCount else 0)
      invariant |out| == i && forall k :: 0 <= k < i ==> out[k] == OffsetTracks.TrackFrame(k, defaultTime)
    {
      out := out + [OffsetTracks.TrackFrame(i, defaultTime)];
      i := i + 1;
    }
    var all := DefaultFrames(frameCount, defaultTime);
    assert |out| == |all|;
    assert forall k :: 0 <= k < |all| ==> out[k] == all[k];
  }

  /**
   * With a positive count the frames are never empty and every index lies
   * in the strip; with a positive default time every frame time is
   * positive.
   */
  lemma ViewerFramesShape(framesRaw: Option<Json>, frameCount: int, defaultTime: int)
    requires frameCount >= 1
    ensures var r := ViewerFrames(framesRaw, frameCount, defaultTime);
            && |r| >= 1
            && (forall k :: 0 <= k < |r| ==> 0 <= r[k].index < frameCount)
            && (defaultTime >= 1 ==> forall k :: 0 <= k < |r| ==> r[k].time >= 1)
  {
    if framesRaw.Some? && framesRaw.value.JArr? {
      TextureReport.FramesOfBounds(framesRaw.value.items, defaultTime);
    }
  }

  /**
   * A non-empty list of integers keeps one frame per integer, in order,
   * for the default time, with each index clamped into the strip.
   */
  lemma ViewerFramesIntegers(items: seq<Json>, frameCount: int, defaultTime: int)
    requires items != []
    requires forall j :: 0 <= j < |items| ==> items[j].JNum? && IsIntegral(items[j].n)
    ensures var r := ViewerFrames(Some(JArr(items)), frameCount, defaultTime);
            && |r| == |items|
            && forall j :: 0 <= j < |items| ==> r[j] == OffsetTracks.TrackFrame(ClampFrameIndex(Some(items[j].n.Floor), frameCount), defaultTime)
  {
    TextureReport.FramesOfIntegers(items, defaultTime);
  }

  /** An object entry with an integer index is kept, with its positive `time` or the default. */
  lemma ViewerFramesObject(idx: int, time: Json, frameCount: int, defaultTime: int)
    ensures ViewerFrames(Some(JArr([JObj(map["index" := JNum(idx as real), "time" := time])])), frameCount, defaultTime)
            == [OffsetTracks.TrackFrame(ClampFrameIndex(Some(idx), frameCount), OffsetTracks.NormalizePositiveInt(Some(time), defaultTime))]
  {
    var e := JObj(map["index" := JNum(idx as real), "time" := time]);
    var f := OffsetTracks.TrackFrame(idx, OffsetTracks.NormalizePositiveInt(Some(time), defaultTime));
    ObjectEntryFrame(e.fields, idx, time, defaultTime);
    SingleEntryFrames(e, f, frameCount, defaultTime);
  }

  /** An array of one usable entry gives that entry's frame, clamped. */
  lemma SingleEntryFrames(e: Json, f: Frame, frameCount: int, defaultTime: int)
    requires TextureReport.FrameOf(e, defaultTime) == Some(f)
    ensures ViewerFrames(Some(JArr([e])), frameCount, defaultTime)
            == [OffsetTracks.TrackFrame(ClampFrameIndex(Some(f.index), frameCount), f.time)]
  {
    assert [e][..0] == [];
    assert TextureReport.FramesOf([e], defaultTime) == TextureReport.FramesOf([], defaultTime) + [f];
    var c := ClampedFrames([f], frameCount);
    assert c[0] == OffsetTracks.TrackFrame(ClampFrameIndex(Some(f.index), frameCount), f.time);
  }

  /** The frame of one object entry with an integer index. */
  lemma ObjectEntryFrame(fields: map<string, Json>, idx: int, time: Json, defaultTime: int)
    requires "index" in fields && fields["index"] == JNum(idx as real)
    requires "time" in fields && fields["time"] == time
    ensures TextureReport.FrameOf(JObj(fields), defaultTime)
            == Some(OffsetTracks.TrackFrame(idx, OffsetTracks.NormalizePositiveInt(Some(time), defaultTime)))
  {
    assert (idx as real).Floor == idx;
  }

  /** With no usable entry, or no array at all, the frames are the whole strip in order. */
  lemma ViewerFramesFallback(framesRaw: Option<Json>, frameCount: int, defaultTime: int)
    requires TextureReport.AnimationFrames(framesRaw, defaultTime) == []
    ensures var r := ViewerFrames(framesRaw, frameCount, defaultTime);
            && |r| == (if frameCount > 0 then frameCount else 0)
            && forall k :: 0 <= k < |r| ==> r[k] == OffsetTracks.TrackFrame(k, defaultTime)
  {
  }

  // ---------------------------------------------------------------------------
  // normalizeAnimationMetadata
  // ---------------------------------------------------------------------------

  /** An animation as the animator keeps it. */
  datatype Animation = Animation(
    frameWidth: int,
    frameHeight: int,
    frameCount: int,
    frameTime: int,
    frames: seq<Frame>,
    periodTicks: int,
    interpolate: bool)

  /** The sum of the frame times. */
  function SumTimes(frames: seq<Frame>): int
    decreases |frames|
  {
    if frames == [] then 0 else SumTimes(frames[..|frames| - 1]) + frames[|frames| - 1].time
  }

  /** With every time at least 1, the sum is at least the number of frames. */
  lemma {:induction false} SumTimesAtLeastCount(frames: seq<Frame>)
    requires forall k :: 0 <= k < |frames| ==> frames[k].time >= 1
    ensures SumTimes(frames) >= |frames|
    decreases |frames|
  {
    if frames != [] {
      SumTimesAtLeastCount(frames[..|frames| - 1]);
    }
  }

  /** hasExplicitAnimationPayload: one of the animation keys is present, whatever its value. */
  predicate HasExplicitAnimationPayload(raw: Json)
  {
    || Get(raw, "frames").Some?
    || Get(raw, "frameTime").Some?
    || Get(raw, "frametime").Some?
    || Get(raw, "frameCount").Some?
    || Get(raw, "frameHeight").Some?
    || Get(raw, "height").Some?
    || Get(raw, "interpolate").Some?
  }

  /** frameHeight ?? height as a positive integer, the frame width otherwise. */
  function FrameHeightOf(raw: Json, width: int): int
  {
    OffsetTracks.NormalizePositiveInt(Coalesce(Get(raw, "frameHeight"), Get(raw, "height")), width)
  }

  /** A positive frameCount, or as many whole frames as fit in the image height. */
  function FrameCountOf(raw: Json, height: int, frameHeight: int): int
    requires frameHeight > 0
  {
    var explicit := ParseIntOfValue(Get(raw, "frameCount"));
    if explicit.Some? && explicit.value > 0 then explicit.value else height / frameHeight
  }

  /** frameTime ?? frametime as a positive integer, 1 otherwise. */
  function FrameTimeOf(raw: Json): int
  {
    OffsetTracks.NormalizePositiveInt(Coalesce(Get(raw, "frameTime"), Get(raw, "frametime")), 1)
  }

  /**
   * normalizeAnimationMetadata for an image of the given width and height:
   * nothing unless the value is an object (or array) with an explicit
   * animation key, a positive frame height and at least two frames.
   */
  function NormalizeAnimationMetadata(raw: Option<Json>, width: int, height: int): (r: Option<Animation>)
    ensures r.Some? ==> r.value.frameWidth == width && r.value.frameHeight >= 1 && r.value.frameCount >= 2
    ensures r.Some? ==> r.value.periodTicks == SumTimes(r.value.frames) && r.value.periodTicks >= 1
  {
    if !IsObjectLike(raw) || !HasExplicitAnimationPayload(raw.value) then None
    else
      var a := raw.value;
      var frameHeight := FrameHeightOf(a, width);
      if frameHeight <= 0 then None
      else
        var frameCount := FrameCountOf(a, height, frameHeight);
        if frameCount <= 1 then None
        else
          var frameTime := FrameTimeOf(a);
          var frames := ViewerFrames(Get(a, "frames"), frameCount, frameTime);
          var periodTicks := SumTimes(frames);
          if periodTicks <= 0 then None
          else Some(Animation(width, frameHeight, frameCount, frameTime, frames, periodTicks, Get(a, "interpolate") == Some(JBool(true))))
  }

  /**
   * The metadata exists exactly when the value is an object (or array)
   * with an explicit animation key, the frame height is positive and
   * there are at least two frames. Its frames are then the normalised
   * frames, never empty, each inside the strip and shown for at least one
   * tick; the frame height falls back to the image width; and
   * `interpolate` is set only by a literal true.
   */
  lemma NormalizeAnimationMetadataSpec(raw: Option<Json>, width: int, height: int)
    ensures var r := NormalizeAnimationMetadata(raw, width, height);
            r.Some? <==>
              && IsObjectLike(raw) && HasExplicitAnimationPayload(raw.value)
              && FrameHeightOf(raw.value, width) > 0
              && FrameCountOf(raw.value, height, FrameHeightOf(raw.value, width)) >= 2
    ensures var r := NormalizeAnimationMetadata(raw, width, height);
            r.Some? ==>
              && r.value.frames == ViewerFrames(Get(raw.value, "frames"), r.value.frameCount, r.value.frameTime)
              && r.value.frameTime >= 1
              && |r.value.frames| >= 1
              && (forall k :: 0 <= k < |r.value.frames| ==> 0 <= r.value.frames[k].index < r.value.frameCount && r.value.frames[k].time >= 1)
              && (IsNullish(Get(raw.value, "frameHeight")) && IsNullish(Get(raw.value, "height")) ==> r.value.frameHeight == width)
              && (r.value.interpolate <==> Get(raw.value, "interpolate") == Some(JBool(true)))
  {
    if IsObjectLike(raw) && HasExplicitAnimationPayload(raw.value) {
      var a := raw.value;
      var frameHeight := FrameHeightOf(a, width);
      if frameHeight > 0 {
        var frameCount := FrameCountOf(a, height, frameHeight);
        if frameCount >= 2 {
          var frameTime := FrameTimeOf(a);
          var frames := ViewerFrames(Get(a, "frames"), frameCount, frameTime);
          ViewerFramesShape(Get(a, "frames"), frameCount, frameTime);
          SumTimesAtLeastCount(frames);
          if IsNullish(Get(a, "frameHeight")) && IsNullish(Get(a, "height")) {
            assert ParseIntOfValue(Coalesce(Get(a, "frameHeight"), Get(a, "height"))).None?;
          }
        }
      }
    }
  }

  // ---------------------------------------------------------------------------
  // sampleFrame
  // ---------------------------------------------------------------------------

  /** Math.max(1, frame.time): a frame lasts at least one tick. */
  function Duration(f: Frame): (n: int)
    ensures n >= 1 && (f.time >= 1 ==> n == f.time)
  {
    if f.time >= 1 then f.time else 1
  }

  /** The tick at which frame i starts: the durations of the frames before it. */
  function Starts(frames: seq<Frame>, i: nat): int
    requires i <= |frames|
  {
    if i == 0 then 0 else Starts(frames, i - 1) + Duration(frames[i - 1])
  }

  /** The frames start in increasing order. */
  lemma {:induction false} StartsIncrease(frames: seq<Frame>, i: nat, j: nat)
    requires i <= j <= |frames|
    ensures Starts(frames, i) + (j - i) <= Starts(frames, j)
    decreases j - i
  {
    if i < j {
      StartsIncrease(frames, i, j - 1);
    }
  }

  /** With every time at least 1, the frames of a strip end at the sum of their times. */
  lemma {:induction false} StartsIsSumTimes(frames: seq<Frame>)
    requires forall k :: 0 <= k < |frames| ==> frames[k].time >= 1
    ensures Starts(frames, |frames|) == SumTimes(frames)
    decreases |frames|
  {
    if frames != [] {
      var init := frames[..|frames| - 1];
      StartsIsSumTimes(init);
      StartsPrefix(frames, |frames| - 1);
    }
  }

  /** The starts of a prefix are the starts of the whole. */
  lemma {:induction false} StartsPrefix(frames: seq<Frame>, n: nat)
    requires n <= |frames|
    ensures forall i :: 0 <= i <= n ==> Starts(frames[..n], i) == Starts(frames, i)
    decreases n
  {
    forall i | 0 <= i <= n
      ensures Starts(frames[..n], i) == Starts(frames, i)
    {
      StartsPrefixAt(frames, n, i);
    }
  }

  lemma {:induction false} StartsPrefixAt(frames: seq<Frame>, n: nat, i: nat)
    requires i <= n <= |frames|
    ensures Starts(frames[..n], i) == Starts(frames, i)
    decreases i
  {
    if i > 0 {
      StartsPrefixAt(frames, n, i - 1);
      assert frames[..n][i - 1] == frames[i - 1];
    }
  }

  /** The tick at which frame i ends. */
  function End(frames: seq<Frame>, i: nat): int
    requires i < |frames|
  {
    Starts(frames, i) + Duration(frames[i])
  }

  /**
   * The loop's choice from frame i on: the first frame whose end lies
   * beyond the tick, and the last frame when none does. From any frame of
   * a non-empty list there is a choice, at or after that frame.
   */
  function SelectFrom(frames: seq<Frame>, ticks: int, i: nat): (r: Option<nat>)
    requires i <= |frames|
    ensures i < |frames| ==> r.Some? && i <= r.value < |frames|
    ensures i == |frames| ==> r.None?
    decreases |frames| - i
  {
    if i == |frames| then None
    else if ticks < End(frames, i) || i == |frames| - 1 then Some(i)
    else SelectFrom(frames, ticks, i + 1)
  }

  /**
   * The choice is the first frame from i on that ends after the tick, or
   * the last frame.
   */
  lemma {:induction false} SelectFromIsFirst(frames: seq<Frame>, ticks: int, i: nat)
    requires i < |frames|
    ensures var k := SelectFrom(frames, ticks, i).value;
            && (ticks < End(frames, k) || k == |frames| - 1)
            && forall j :: i <= j < k ==> End(frames, j) <= ticks
    decreases |frames| - i
  {
    if !(ticks < End(frames, i) || i == |frames| - 1) {
      SelectFromIsFirst(frames, ticks, i + 1);
    }
  }

  /** A tick within the strip lies in the window of the frame chosen for it. */
  lemma TickInChosenWindow(frames: seq<Frame>, ticks: int)
    requires |frames| >= 1 && 0 <= ticks < Starts(frames, |frames|)
    ensures var k := SelectFrom(frames, ticks, 0).value;
            Starts(frames, k) <= ticks < End(frames, k)
  {
    SelectFromIsFirst(frames, ticks, 0);
    var k := SelectFrom(frames, ticks, 0).value;
    if k > 0 {
      assert End(frames, k - 1) <= ticks;
    }
  }

  /** The sample a frame choice gives: its index, the next frame's index and the blend. */
  datatype Sample = Sample(frameIndex: int, nextFrameIndex: int, blend: real)

  /** The whole ticks into the period: ⌊mod(elapsed · 20, period)⌋. */
  function TicksAt(elapsedSec: real, periodTicks: int): (ticks: int)
    requires periodTicks >= 1
    ensures 0 <= ticks < periodTicks
  {
    Mod(Some(elapsedSec * TICKS_PER_SECOND), Some(periodTicks as real)).Floor
  }

  /**
   * sampleFrame: nothing for an animation without frames or without a
   * positive period; otherwise the frame the tick falls in, its cyclic
   * successor and, when interpolating a frame longer than one tick, how
   * far into the frame the tick is.
   */
  function SampleOf(animation: Animation, elapsedSec: real): Option<Sample>
  {
    var frames := animation.frames;
    if |frames| == 0 || animation.periodTicks <= 0 then None
    else
      var ticks := TicksAt(elapsedSec, animation.periodTicks);
      var k := SelectFrom(frames, ticks, 0);
      if k.None? then None
      else
        var frame := frames[k.value];
        var duration := Duration(frame);
        var localTick := ticks - Starts(frames, k.value);
        var blend := if animation.interpolate && duration > 1 then MaterialResolver.Clamp01(Some(localTick as real / duration as real)) else 0.0;
        Some(Sample(frame.index, frames[(k.value + 1) % |frames|].index, blend))
  }

  /** sampleFrame as the source runs it: the cursor loop over the frames. */
  method SampleFrame(animation: Animation, elapsedSec: real) returns (sample: Option<Sample>)
    ensures sample == SampleOf(animation, elapsedSec)
  {
    var frames := animation.frames;
    if |frames| == 0 || animation.periodTicks <= 0 {
      return None;
    }
    var ticks := Mod(Some(elapsedSec * TICKS_PER_SECOND), Some(animation.periodTicks as real)).Floor;
    var cursor := 0;
    for i := 0 to |frames|
      invariant cursor == Starts(frames, i)
      invariant SelectFrom(frames, ticks, i) == SelectFrom(frames, ticks, 0)
    {
      var frame := frames[i];
      var duration := if frame.time >= 1 then frame.time else 1;
      if ticks < cursor + duration || i == |frames| - 1 {
        var localTick := ticks - cursor;
        var nextFrame := frames[(i + 1) % |frames|];
        var blend := if animation.interpolate && duration > 1 then MaterialResolver.Clamp01(Some(localTick as real / duration as real)) else 0.0;
        return Some(Sample(frame.index, nextFrame.index, blend));
      }
      cursor := cursor + duration;
    }
    return None;
  }

  /**
   * With frames and a positive period there is always a sample: the
   * chosen frame's index, the index of the frame after it (the first after
   * the last), and a blend in [0, 1] that is 0 unless the animation
   * interpolates and the frame lasts more than one tick.
   */
  lemma SampleOfSpec(animation: Animation, elapsedSec: real)
    requires |animation.frames| >= 1 && animation.periodTicks >= 1
    ensures var s := SampleOf(animation, elapsedSec);
            var frames := animation.frames;
            var k := SelectFrom(frames, TicksAt(elapsedSec, animation.periodTicks), 0);
            && s.Some? && k.Some? && k.value < |frames|
            && s.value.frameIndex == frames[k.value].index
            && s.value.nextFrameIndex == frames[if k.value == |frames| - 1 then 0 else k.value + 1].index
            && 0.0 <= s.value.blend <= 1.0
            && (!(animation.interpolate && Duration(frames[k.value]) > 1) ==> s.value.blend == 0.0)
  {
    var frames := animation.frames;
    var ticks := TicksAt(elapsedSec, animation.periodTicks);
    var k := SelectFrom(frames, ticks, 0);
    assert k.Some? && k.value < |frames|;
    var next := (k.value + 1) % |frames|;
    assert next == if k.value == |frames| - 1 then 0 else k.value + 1;
  }

  /**
   * When every frame lasts at least one tick and the period is the sum of
   * the frame times, as normalizeAnimationMetadata makes it, the tick
   * falls inside the chosen frame's window, so the blend is the fraction
   * of that frame already shown.
   */
  lemma SampleInWindow(a: Animation, elapsedSec: real)
    requires |a.frames| >= 1
    requires forall k :: 0 <= k < |a.frames| ==> a.frames[k].time >= 1
    requires a.periodTicks == SumTimes(a.frames) && a.periodTicks >= 1
    ensures var ticks := TicksAt(elapsedSec, a.periodTicks);
            var k := SelectFrom(a.frames, ticks, 0).value;
            && Starts(a.frames, k) <= ticks < End(a.frames, k)
            && (a.interpolate && a.frames[k].time > 1 ==>
                  SampleOf(a, elapsedSec) == Some(Sample(a.frames[k].index, a.frames[(k + 1) % |a.frames|].index, (ticks - Starts(a.frames, k)) as real / a.frames[k].time as real)))
  {
    StartsIsSumTimes(a.frames);
    SumTimesAtLeastCount(a.frames);
    var ticks := TicksAt(elapsedSec, a.periodTicks);
    TickInChosenWindow(a.frames, ticks);
    var k := SelectFrom(a.frames, ticks, 0).value;
    var local := (ticks - Starts(a.frames, k)) as real;
    var duration := a.frames[k].time as real;
    if a.interpolate && a.frames[k].time > 1 {
      assert 0.0 <= local < duration;
      FractionInUnit(local, duration);
    }
  }

  lemma FractionInUnit(x: real, d: real)
    requires 0.0 <= x < d
    ensures 0.0 <= x / d < 1.0
  {
    var q := x / d;
    assert x == d * q;
    if q >= 1.0 {
      ProductAtLeast(d, q);
      assert false;
    }
  }

  // ---------------------------------------------------------------------------
  // The animator and update()
  // ---------------------------------------------------------------------------

  /**
   * The sample key update() compares: the two frame indices and the blend
   * as `toFixed(6)` writes it, here the blend in millionths rounded half
   * up (the blend is never negative).
   */
  datatype SampleKey = SampleKey(frameIndex: int, nextFrameIndex: int, blendMicros: int)

  function KeyOf(s: Sample): SampleKey
  {
    SampleKey(s.frameIndex, s.nextFrameIndex, (s.blend * 1000000.0 + 0.5).Floor)
  }

  /** One animated texture: its animation and the key of the last sample uploaded. */
  datatype Binding = Binding(animation: Animation, lastSampleKey: Option<SampleKey>)

  /**
   * One binding's turn in update(): no sample, or the same key as the last
   * upload, leaves it alone; otherwise the sample is drawn and uploaded,
   * and only a successful upload records the key and reports an upload.
   */
  function StepBinding(b: Binding, elapsedSec: real, uploaded: bool): (r: (Binding, bool))
    ensures r.0.animation == b.animation
    ensures !r.1 ==> r.0 == b
    ensures r.1 <==> uploaded && SampleOf(b.animation, elapsedSec).Some? && b.lastSampleKey != Some(KeyOf(SampleOf(b.animation, elapsedSec).value))
    ensures r.1 ==> r.0.lastSampleKey == Some(KeyOf(SampleOf(b.animation, elapsedSec).value))
  {
    var sample := SampleOf(b.animation, elapsedSec);
    if sample.None? then (b, false)
    else
      var key := KeyOf(sample.value);
      if b.lastSampleKey == Some(key) then (b, false)
      else if uploaded then (b.(lastSampleKey := Some(key)), true)
      else (b, false)
  }

  /** Every binding after one pass, given which uploads succeed. */
  function StepAll(bs: seq<Binding>, elapsedSec: real, uploads: nat -> bool): (r: seq<Binding>)
    ensures |r| == |bs|
  {
    seq(|bs|, k requires 0 <= k < |bs| => StepBinding(bs[k], elapsedSec, uploads(k)).0)
  }

  /** Some binding uploaded in the pass. */
  predicate AnyUploaded(bs: seq<Binding>, elapsedSec: real, uploads: nat -> bool)
  {
    exists k :: 0 <= k < |bs| && StepBinding(bs[k], elapsedSec, uploads(k)).1
  }

  /** The bindings attach() keeps: one per texture whose animation resolved, in texture order. */
  function BindingsOf(resolved: seq<Option<Animation>>): (bs: seq<Binding>)
    ensures |bs| <= |resolved|
    ensures forall k :: 0 <= k < |bs| ==> bs[k].lastSampleKey.None?
    decreases |resolved|
  {
    if resolved == [] then []
    else
      var last := resolved[|resolved| - 1];
      BindingsOf(resolved[..|resolved| - 1]) + (if last.Some? then [Binding(last.value, None)] else [])
  }

  /** Some kept binding interpolates. */
  predicate SomeInterpolate(bs: seq<Binding>)
  {
    exists k :: 0 <= k < |bs| && bs[k].animation.interpolate
  }

  /**
   * McmetaTextureAnimator: the bindings of the attached model's animated
   * textures and whether any of them interpolates. The WebGL context,
   * the canvases and the image loading are not part of this model.
   */
  class Animator {
    var bindings: seq<Binding>
    var hasInterpolatedAnimations: bool

    constructor ()
      ensures bindings == [] && !hasInterpolatedAnimations
    {
      bindings := [];
      hasInterpolatedAnimations := false;
    }

    /** reset: no bindings and nothing interpolating. */
    method Reset()
      modifies this
      ensures bindings == [] && !hasInterpolatedAnimations
    {
      bindings := [];
      hasInterpolatedAnimations := false;
    }

    /** hasActiveAnimations: some texture is animated. */
    predicate HasActiveAnimations()
      reads this
    {
      |bindings| > 0
    }

    /** needsContinuousRedraw: some animation interpolates and the timer is not paused. */
    predicate NeedsContinuousRedraw(paused: bool)
      reads this
    {
      hasInterpolatedAnimations && !paused
    }

    /**
     * attach's bookkeeping, given the animation each texture resolved to
     * (`None` when it has no usable image or no animation): after a reset,
     * one fresh binding per resolved animation, and the interpolation flag
     * of the new bindings.
     */
    method Attach(resolved: seq<Option<Animation>>)
      modifies this
      ensures bindings == BindingsOf(resolved)
      ensures hasInterpolatedAnimations <==> SomeInterpolate(bindings)
    {
      Reset();
      var next: seq<Binding> := [];
      for i := 0 to |resolved|
        invariant next == BindingsOf(resolved[..i])
      {
        assert resolved[..i + 1][..i] == resolved[..i];
        if resolved[i].Some? {
          next := next + [Binding(resolved[i].value, None)];
        }
      }
      assert resolved[..|resolved|] == resolved;
      bindings := next;
      var some := false;
      for i := 0 to |next|
        invariant some <==> exists k :: 0 <= k < i && next[k].animation.interpolate
      {
        some := some || next[i].animation.interpolate;
      }
      hasInterpolatedAnimations := some;
    }

    /**
     * update: nothing happens without a model, without bindings, while
     * paused, or when the elapsed time is not finite (`None`); otherwise
     * each binding takes its turn, `uploads(k)` telling whether the k-th
     * upload succeeds, and the result says whether any upload happened.
     */
    method Update(hasGltf: bool, paused: bool, elapsedSec: Option<real>, uploads: nat -> bool) returns (uploadedAny: bool)
      modifies this
      ensures hasInterpolatedAnimations == old(hasInterpolatedAnimations)
      ensures !hasGltf || |old(bindings)| == 0 || paused || elapsedSec.None? ==> bindings == old(bindings) && !uploadedAny
      ensures hasGltf && |old(bindings)| > 0 && !paused && elapsedSec.Some? ==>
                bindings == StepAll(old(bindings), elapsedSec.value, uploads)
                && (uploadedAny <==> AnyUploaded(old(bindings), elapsedSec.value, uploads))
    {
      if !hasGltf || |bindings| == 0 {
        return false;
      }
      if paused {
        return false;
      }
      if elapsedSec.None? {
        return false;
      }
      var elapsed := elapsedSec.value;
      var bs := bindings;
      uploadedAny := false;
      for i := 0 to |bs|
        invariant hasInterpolatedAnimations == old(hasInterpolatedAnimations)
        invariant |bindings| == |bs|
        invariant forall k :: 0 <= k < i ==> bindings[k] == StepBinding(bs[k], elapsed, uploads(k)).0
        invariant forall k :: i <= k < |bs| ==> bindings[k] == bs[k]
        invariant uploadedAny <==> exists k :: 0 <= k < i && StepBinding(bs[k], elapsed, uploads(k)).1
      {
        var sample := SampleFrame(bs[i].animation, elapsed);
        if sample.Some? {
          var key := KeyOf(sample.value);
          if bindings[i].lastSampleKey != Some(key) && uploads(i) {
            bindings := bindings[i := bindings[i].(lastSampleKey := Some(key))];
            uploadedAny := true;
          }
        }
      }
      assert bindings == StepAll(bs, elapsed, uploads);
      assert uploadedAny <==> AnyUploaded(bs, elapsed, uploads);
    }
  }

  /** A pass uploads something exactly when it changes some binding. */
  lemma UploadedIffChanged(bs: seq<Binding>, elapsedSec: real, uploads: nat -> bool)
    ensures AnyUploaded(bs, elapsedSec, uploads) <==> StepAll(bs, elapsedSec, uploads) != bs
  {
    var r := StepAll(bs, elapsedSec, uploads);
    if AnyUploaded(bs, elapsedSec, uploads) {
      var k :| 0 <= k < |bs| && StepBinding(bs[k], elapsedSec, uploads(k)).1;
      assert r[k] != bs[k];
    }
    if r != bs {
      var k :| 0 <= k < |bs| && r[k] != bs[k];
      assert StepBinding(bs[k], elapsedSec, uploads(k)).1;
    }
  }

  /**
   * After a pass in which every upload succeeded, a second pass at the
   * same time uploads nothing and changes nothing, whichever uploads
   * would succeed: every binding already holds its current key.
   */
  lemma RepeatedUpdateUploadsNothing(bs: seq<Binding>, elapsedSec: real, uploads: nat -> bool, again: nat -> bool)
    requires forall k: nat :: uploads(k)
    ensures !AnyUploaded(StepAll(bs, elapsedSec, uploads), elapsedSec, again)
    ensures StepAll(StepAll(bs, elapsedSec, uploads), elapsedSec, again) == StepAll(bs, elapsedSec, uploads)
  {
    var r := StepAll(bs, elapsedSec, uploads);
    forall k | 0 <= k < |r|
      ensures !StepBinding(r[k], elapsedSec, again(k)).1
    {
      assert uploads(k);
    }
    UploadedIffChanged(r, elapsedSec, again);
  }

  // ---------------------------------------------------------------------------
  // collectMcmetaUriCandidates
  // ---------------------------------------------------------------------------

  /** The push helper: a trimmed text is added unless it is empty or already there. */
  function PushUri(out: seq<string>, uri: string): seq<string>
  {
    if uri == [] || uri in out then out else out + [uri]
  }

  /** Distinct URIs, none empty, each already trimmed. */
  predicate DistinctTrimmedUris(out: seq<string>)
  {
    && (forall i, j :: 0 <= i < j < |out| ==> out[i] != out[j])
    && (forall i :: 0 <= i < |out| ==> out[i] != [] && Trim(JsTrim, out[i]) == out[i])
  }

  /** String(value ?? "").trim(), which is its own trim. */
  function UriText(v: Option<Json>): (t: string)
    ensures Trim(JsTrim, t) == t
  {
    TextureReport.TrimmedTextEnds(v);
    TrimOfTrimmed(JsTrim, TextureReport.TrimmedText(v));
    TextureReport.TrimmedText(v)
  }

  /**
   * The '<image uri>.mcmeta' candidate, when the image URI is set and is
   * not a data: URI: the trimmed URI followed by '.mcmeta', which the push
   * helper's trim leaves as it is.
   */
  function McmetaOfImage(image: Option<Json>): (m: Option<string>)
    ensures var imageUri := UriText(GetOpt(image, "uri"));
            m == if imageUri != [] && !IsPrefix("data:", imageUri) then Some(imageUri + ".mcmeta") else None
    ensures m.Some? ==> Trim(JsTrim, m.value) == m.value
  {
    var imageUri := UriText(GetOpt(image, "uri"));
    if imageUri != [] && !IsPrefix("data:", imageUri) then
      McmetaTrimmed(imageUri);
      Some(Trim(JsTrim, imageUri + ".mcmeta"))
    else None
  }

  /** The four explicit candidates: the mcmetaUri extras of the texture, then of the image. */
  function ExplicitUris(texture: Option<Json>, image: Option<Json>): (e: seq<string>)
    ensures |e| == 4
    ensures Trim(JsTrim, e[0]) == e[0] && Trim(JsTrim, e[1]) == e[1]
    ensures Trim(JsTrim, e[2]) == e[2] && Trim(JsTrim, e[3]) == e[3]
  {
    [ExtrasUri(texture, false), ExtrasUri(texture, true), ExtrasUri(image, false), ExtrasUri(image, true)]
  }

  /** extras.mcmetaUri, or extras.minecraftAnimation.mcmetaUri when nested, as trimmed text. */
  function ExtrasUri(j: Option<Json>, nested: bool): (t: string)
    ensures Trim(JsTrim, t) == t
  {
    var extras := GetOpt(j, "extras");
    UriText(GetOpt(if nested then GetOpt(extras, "minecraftAnimation") else extras, "mcmetaUri"))
  }

  /** Every candidate in the order pushed: the explicit ones, then the image's. */
  function UriCandidates(texture: Option<Json>, image: Option<Json>): seq<string>
  {
    var m := McmetaOfImage(image);
    ExplicitUris(texture, image) + (if m.Some? then [m.value] else [])
  }

  /** The pushes, one after the other. */
  function PushAll(out: seq<string>, uris: seq<string>): (r: seq<string>)
    ensures |r| >= |out|
    decreases |uris|
  {
    if uris == [] then out else PushAll(PushUri(out, uris[0]), uris[1..])
  }

  /** collectMcmetaUriCandidates: every candidate pushed in order onto an empty list. */
  function CollectMcmetaUriCandidates(texture: Option<Json>, image: Option<Json>): seq<string>
  {
    PushAll([], UriCandidates(texture, image))
  }

  /** Pushing a trimmed text keeps the list distinct and trimmed, and the text is then in it. */
  lemma PushUriKeeps(out: seq<string>, uri: string)
    requires DistinctTrimmedUris(out) && Trim(JsTrim, uri) == uri
    ensures DistinctTrimmedUris(PushUri(out, uri))
    ensures forall u :: u in PushUri(out, uri) <==> u in out || (u == uri && uri != [])
    ensures out != [] ==> PushUri(out, uri)[0] == out[0]
  {
  }

  /**
   * Pushing trimmed texts keeps the list distinct and trimmed; it then
   * holds what it held and every non-empty text pushed, and nothing else.
   */
  lemma {:induction false} PushAllSpec(out: seq<string>, uris: seq<string>)
    requires DistinctTrimmedUris(out)
    requires forall k :: 0 <= k < |uris| ==> Trim(JsTrim, uris[k]) == uris[k]
    ensures DistinctTrimmedUris(PushAll(out, uris))
    ensures forall u :: u in PushAll(out, uris) <==> u in out || (u != [] && u in uris)
    ensures out != [] ==> PushAll(out, uris)[0] == out[0]
    decreases |uris|
  {
    if uris != [] {
      PushUriKeeps(out, uris[0]);
      PushAllSpec(PushUri(out, uris[0]), uris[1..]);
      assert forall u :: u in uris <==> u == uris[0] || u in uris[1..];
    }
  }

  /**
   * The candidates are distinct, non-empty and trimmed; they are exactly
   * the non-empty explicit candidates and, unless the image URI is empty
   * or a data: URI, '<image uri>.mcmeta'; a non-empty texture mcmetaUri
   * comes first.
   */
  lemma CollectMcmetaUriCandidatesSpec(texture: Option<Json>, image: Option<Json>)
    ensures DistinctTrimmedUris(CollectMcmetaUriCandidates(texture, image))
    ensures forall u :: u in CollectMcmetaUriCandidates(texture, image) <==>
              (u != [] && u in ExplicitUris(texture, image)) || McmetaOfImage(image) == Some(u)
    ensures var e := ExplicitUris(texture, image);
            e[0] != [] ==> |CollectMcmetaUriCandidates(texture, image)| >= 1 && CollectMcmetaUriCandidates(texture, image)[0] == e[0]
  {
    var c := UriCandidates(texture, image);
    CandidatesTrimmed(texture, image);
    PushAllSpec([], c);
    assert forall u :: u in c <==> u in ExplicitUris(texture, image) || McmetaOfImage(image) == Some(u);
    if c[0] != [] {
      PushAllFirst(c);
    }
  }

  /** A non-empty first text is the first URI of the list. */
  lemma PushAllFirst(uris: seq<string>)
    requires uris != [] && uris[0] != [] && forall k :: 0 <= k < |uris| ==> Trim(JsTrim, uris[k]) == uris[k]
    ensures |PushAll([], uris)| >= 1 && PushAll([], uris)[0] == uris[0]
  {
    assert PushUri([], uris[0]) == [uris[0]];
    PushAllSpec([uris[0]], uris[1..]);
  }

  /** Every candidate is its own trim. */
  lemma CandidatesTrimmed(texture: Option<Json>, image: Option<Json>)
    ensures var c := UriCandidates(texture, image);
            forall k :: 0 <= k < |c| ==> Trim(JsTrim, c[k]) == c[k]
  {
    AppendTrimmed(ExplicitUris(texture, image), McmetaOfImage(image), UriCandidates(texture, image));
  }

  /** Four trimmed texts followed by an optional trimmed one are all trimmed. */
  lemma AppendTrimmed(e: seq<string>, m: Option<string>, c: seq<string>)
    requires c == e + (if m.Some? then [m.value] else [])
    requires |e| == 4
    requires Trim(JsTrim, e[0]) == e[0] && Trim(JsTrim, e[1]) == e[1]
    requires Trim(JsTrim, e[2]) == e[2] && Trim(JsTrim, e[3]) == e[3]
    requires m.Some? ==> Trim(JsTrim, m.value) == m.value
    ensures forall k :: 0 <= k < |c| ==> Trim(JsTrim, c[k]) == c[k]
  {
    forall k | 0 <= k < |c|
      ensures Trim(JsTrim, c[k]) == c[k]
    {
      if k == 0 {
        assert c[0] == e[0];
      } else if k == 1 {
        assert c[1] == e[1];
      } else if k == 2 {
        assert c[2] == e[2];
      } else if k == 3 {
        assert c[3] == e[3];
      } else {
        assert c[k] == m.value;
      }
    }
  }

  /** '<uri>.mcmeta' of a trimmed, non-empty URI is its own trim. */
  lemma McmetaTrimmed(imageUri: string)
    requires imageUri != [] && Trim(JsTrim, imageUri) == imageUri
    ensures Trim(JsTrim, imageUri + ".mcmeta") == imageUri + ".mcmeta"
  {
    TrimEnds(JsTrim, imageUri);
    var t := imageUri + ".mcmeta";
    assert t[0] == imageUri[0] && t[|t| - 1] == 'a';
    TrimOfTrimmed(JsTrim, t);
  }

  // ---------------------------------------------------------------------------
  // normalizeFilePath
  // ---------------------------------------------------------------------------

  /** isAbsoluteHttpUrl: the text starts with http:// or https://, in any letter case. */
  predicate IsAbsoluteHttpUrl(s: string)
  {
    (|s| >= 7 && ToLower(s[..7]) == "http://") || (|s| >= 8 && ToLower(s[..8]) == "https://")
  }

  /** replaceAll("\\", "/"). */
  function SlashesForward(s: string): (r: string)
    ensures |r| == |s| && '\\' !in r
    ensures forall k :: 0 <= k < |s| ==> r[k] == (if s[k] == '\\' then '/' else s[k])
  {
    seq(|s|, k requires 0 <= k < |s| => if s[k] == '\\' then '/' else s[k])
  }

  /** The last steps of normalizeFilePath: one leading "./" removed, then a leading '/' ensured. */
  function RootedPath(path: string): (r: string)
    ensures |r| >= 1 && r[0] == '/'
  {
    var p := if IsPrefix("./", path) then path[2..] else path;
    if IsPrefix("/", p) then p else "/" + p
  }

  /**
   * normalizeFilePath: the trimmed text with backslashes turned into '/';
   * an absolute http(s) URL is replaced by its path, as `urlPathname`
   * gives it (`None` when the URL does not parse); then one leading "./"
   * goes and a leading '/' is ensured. A blank value has no path.
   */
  function NormalizeFilePath(value: Option<Json>, urlPathname: string -> Option<string>): (r: Option<string>)
    ensures TextureReport.TrimmedText(value) == [] ==> r.None?
    ensures r.Some? ==> |r.value| >= 1 && r.value[0] == '/'
  {
    var path := TextureReport.TrimmedText(value);
    if path == [] then None
    else
      var forward := SlashesForward(path);
      if IsAbsoluteHttpUrl(forward) then
        var pathname := urlPathname(forward);
        if pathname.None? then None else Some(RootedPath(pathname.value))
      else Some(RootedPath(forward))
  }

  /**
   * A path that is not a URL keeps no backslash, and it is the forward-
   * slashed text with a leading "./" replaced by '/' (or a '/' added).
   */
  lemma NormalizeFilePathLocal(value: Option<Json>, urlPathname: string -> Option<string>)
    requires TextureReport.TrimmedText(value) != []
    requires !IsAbsoluteHttpUrl(SlashesForward(TextureReport.TrimmedText(value)))
    ensures var r := NormalizeFilePath(value, urlPathname);
            var f := SlashesForward(TextureReport.TrimmedText(value));
            && r.Some? && '\\' !in r.value
            && (IsPrefix("./", f) && !IsPrefix("/", f[2..]) ==> r.value == "/" + f[2..])
            && (IsPrefix("/", f) ==> r.value == f)
            && (!IsPrefix("./", f) && !IsPrefix("/", f) ==> r.value == "/" + f)
  {
    RootedPathCases(SlashesForward(TextureReport.TrimmedText(value)));
  }

  /** The rooted path: "./x" becomes "/x", "/x" stays, and anything else gains a '/'; no backslash appears. */
  lemma RootedPathCases(f: string)
    requires '\\' !in f
    ensures var r := RootedPath(f);
            && '\\' !in r
            && (IsPrefix("./", f) && !IsPrefix("/", f[2..]) ==> r == "/" + f[2..])
            && (IsPrefix("/", f) ==> r == f)
            && (!IsPrefix("./", f) && !IsPrefix("/", f) ==> r == "/" + f)
  {
    if IsPrefix("./", f) {
      assert forall c :: c in f[2..] ==> c in f;
    }
  }

  /** A normalised path that is already trimmed normalises to itself. */
  lemma NormalizeFilePathIdempotent(path: string, urlPathname: string -> Option<string>)
    requires |path| >= 1 && path[0] == '/' && '\\' !in path && Trim(JsTrim, path) == path
    ensures NormalizeFilePath(Some(JStr(path)), urlPathname) == Some(path)
  {
    TrimmedString(path);
    RootedNotHttp(path);
    assert SlashesForward(path) == path;
    assert !IsPrefix("./", path);
  }

  /** A path starting with '/' is no http(s) URL. */
  lemma RootedNotHttp(path: string)
    requires |path| >= 1 && path[0] == '/'
    ensures !IsAbsoluteHttpUrl(path)
  {
    assert ToLower(path[..1]) == "/";
    if |path| >= 7 {
      assert ToLower(path[..7])[0] == '/';
    }
  }

  /** A string value that is its own trim is its own trimmed text. */
  lemma TrimmedString(t: string)
    requires Trim(JsTrim, t) == t
    ensures TextureReport.TrimmedText(Some(JStr(t))) == t
  {
  }

  // ---------------------------------------------------------------------------
  // normalizeColorFactor
  // ---------------------------------------------------------------------------

  /** A hex digit of either letter case, as the class [0-9a-fA-F] matches. */
  predicate IsHexDigit(c: char)
  {
    '0' <= c <= '9' || 'a' <= c <= 'f' || 'A' <= c <= 'F'
  }

  function HexDigitValue(c: char): (n: int)
    requires IsHexDigit(c)
    ensures 0 <= n < 16
    ensures MaterialResolver.IsHexChar(c) ==> n == MaterialResolver.HexCharValue(c)
  {
    if '0' <= c <= '9' then c as int - '0' as int
    else if 'a' <= c <= 'f' then c as int - 'a' as int + 10
    else c as int - 'A' as int + 10
  }

  function Power16(n: nat): (p: int)
    ensures p >= 1
  {
    if n == 0 then 1 else 16 * Power16(n - 1)
  }

  /** Number.parseInt(digits, 16) on a run of hex digits, read most significant first: below 16^n for n digits. */
  function HexValue(digits: string): (n: int)
    requires forall k :: 0 <= k < |digits| ==> IsHexDigit(digits[k])
    ensures 0 <= n < Power16(|digits|)
    decreases |digits|
  {
    if digits == [] then 0 else HexValue(digits[..|digits| - 1]) * 16 + HexDigitValue(digits[|digits| - 1])
  }

  /** The pattern /^#?[0-9a-fA-F]{6}$/. */
  predicate IsHexColorText(t: string)
  {
    (|t| == 6 && forall k :: 0 <= k < 6 ==> IsHexDigit(t[k]))
    || (|t| == 7 && t[0] == '#' && forall k :: 1 <= k < 7 ==> IsHexDigit(t[k]))
  }

  /** The six digits of a matching text, without its '#'. */
  function HexColorDigits(t: string): (digits: string)
    requires IsHexColorText(t)
    ensures |digits| == 6 && forall k :: 0 <= k < 6 ==> IsHexDigit(digits[k])
  {
    if |t| == 7 then t[1..] else t
  }

  /** The three bytes of a 24-bit colour, each as a fraction of 255. */
  function ChannelsOf(color: int): (c: MaterialResolver.Rgb)
    requires 0 <= color < 0x100_0000
    ensures MaterialResolver.InUnit(c.r) && MaterialResolver.InUnit(c.g) && MaterialResolver.InUnit(c.b)
  {
    MaterialResolver.Rgb(
      ((color / 0x1_0000) % 256) as real / 255.0,
      ((color / 0x100) % 256) as real / 255.0,
      (color % 256) as real / 255.0)
  }

  /** The three numbers of an array value with at least three items, when all are finite. */
  function ArrayChannels(value: Option<Json>): (raw: Option<(real, real, real)>)
    ensures raw.Some? ==> value.Some? && value.value.JArr? && |value.value.items| >= 3
  {
    if value.Some? && value.value.JArr? && |value.value.items| >= 3 then
      var items := value.value.items;
      var r, g, b := ToNumber(Some(items[0])), ToNumber(Some(items[1])), ToNumber(Some(items[2]));
      if r.Some? && g.Some? && b.Some? then Some((r.value, g.value, b.value)) else None
    else None
  }

  /** Three finite numbers read as bytes when one exceeds 1 and as fractions otherwise, each clamped to [0, 1]. */
  function ScaledColor(r: real, g: real, b: real): (c: MaterialResolver.Rgb)
    ensures MaterialResolver.InUnit(c.r) && MaterialResolver.InUnit(c.g) && MaterialResolver.InUnit(c.b)
    ensures r > 1.0 || g > 1.0 || b > 1.0 ==> c == MaterialResolver.Rgb(
              MaterialResolver.Clamp01(Some(r / 255.0)), MaterialResolver.Clamp01(Some(g / 255.0)), MaterialResolver.Clamp01(Some(b / 255.0)))
    ensures r <= 1.0 && g <= 1.0 && b <= 1.0 ==> c == MaterialResolver.Rgb(
              MaterialResolver.Clamp01(Some(r)), MaterialResolver.Clamp01(Some(g)), MaterialResolver.Clamp01(Some(b)))
  {
    var maxValue := if r >= g && r >= b then r else if g >= b then g else b;
    if maxValue > 1.0 then
      MaterialResolver.Rgb(
        MaterialResolver.Clamp01(Some(r / 255.0)),
        MaterialResolver.Clamp01(Some(g / 255.0)),
        MaterialResolver.Clamp01(Some(b / 255.0)))
    else
      MaterialResolver.Rgb(MaterialResolver.Clamp01(Some(r)), MaterialResolver.Clamp01(Some(g)), MaterialResolver.Clamp01(Some(b)))
  }

  /** A text matching the six-digit pattern, read as a 24-bit colour. */
  function HexColor(text: string): (c: Option<MaterialResolver.Rgb>)
    ensures c.Some? <==> IsHexColorText(text)
  {
    if IsHexColorText(text) then
      var digits := HexColorDigits(text);
      assert Power16(6) == 0x100_0000;
      Some(ChannelsOf(HexValue(digits)))
    else None
  }

  /** A number that Number.isInteger accepts. */
  predicate IsIntegerNumber(value: Option<Json>)
  {
    value.Some? && value.value.JNum? && IsIntegral(value.value.n)
  }

  /**
   * normalizeColorFactor: three finite numbers of an array, scaled; else
   * an integer number's low 24 bits; else a trimmed text of six hex digits
   * with an optional '#'; otherwise no colour.
   */
  function NormalizeColorFactor(value: Option<Json>): (c: Option<MaterialResolver.Rgb>)
    ensures c.Some? ==> MaterialResolver.InUnit(c.value.r) && MaterialResolver.InUnit(c.value.g) && MaterialResolver.InUnit(c.value.b)
    ensures c.None? <==> ArrayChannels(value).None? && !IsIntegerNumber(value) && !IsHexColorText(TextureReport.TrimmedText(value))
  {
    var raw := ArrayChannels(value);
    if raw.Some? then Some(ScaledColor(raw.value.0, raw.value.1, raw.value.2))
    else if IsIntegerNumber(value) then Some(ChannelsOf(value.value.n.Floor % 0x100_0000))
    else HexColor(TextureReport.TrimmedText(value))
  }

  /** The channels of a colour give back its 24 bits: byte r * 65536 + byte g * 256 + byte b. */
  lemma ChannelsRecompose(color: int)
    requires 0 <= color < 0x100_0000
    ensures var c := ChannelsOf(color);
      (c.r * 255.0).Floor * 0x1_0000 + (c.g * 255.0).Floor * 0x100 + (c.b * 255.0).Floor == color
  {
    var c := ChannelsOf(color);
    assert c.r * 255.0 == ((color / 0x1_0000) % 256) as real;
    assert c.g * 255.0 == ((color / 0x100) % 256) as real;
    assert c.b * 255.0 == (color % 256) as real;
  }

  /** An integer number is read modulo 2^24, whatever its sign. */
  lemma IntegerColor(n: int)
    ensures NormalizeColorFactor(Some(JNum(n as real))) == Some(ChannelsOf(n % 0x100_0000))
  {
    assert ArrayChannels(Some(JNum(n as real))).None?;
  }

  /** The n lower-case hex digits of a number below 16^n, most significant first. */
  function HexDigitsOf(color: int, n: nat): (t: string)
    requires 0 <= color
    ensures |t| == n && forall k :: 0 <= k < n ==> IsHexDigit(t[k])
  {
    if n == 0 then [] else HexDigitsOf(color / 16, n - 1) + [MaterialResolver.HexDigit(color % 16)]
  }

  /** Reading back the digits of a number gives the number. */
  lemma {:induction false} HexDigitsValue(color: int, n: nat)
    requires 0 <= color < Power16(n)
    ensures HexValue(HexDigitsOf(color, n)) == color
  {
    if n > 0 {
      var q := color / 16;
      assert q < Power16(n - 1);
      HexDigitsValue(q, n - 1);
      var t := HexDigitsOf(color, n);
      assert t[..n - 1] == HexDigitsOf(q, n - 1);
    }
  }

  /** Six lower-case hex digits of a 24-bit colour. */
  function HexText6(color: int): (t: string)
    requires 0 <= color < 0x100_0000
    ensures |t| == 6 && forall k :: 0 <= k < 6 ==> IsHexDigit(t[k])
  {
    HexDigitsOf(color, 6)
  }

  /** A colour written as "#rrggbb", as "rrggbb" and as the integer itself gives the same factor. */
  lemma HexAndIntegerAgree(color: int)
    requires 0 <= color < 0x100_0000
    ensures NormalizeColorFactor(Some(JStr("#" + HexText6(color)))) == Some(ChannelsOf(color))
    ensures NormalizeColorFactor(Some(JStr(HexText6(color)))) == Some(ChannelsOf(color))
    ensures NormalizeColorFactor(Some(JNum(color as real))) == Some(ChannelsOf(color))
  {
    assert Power16(6) == 0x100_0000;
    HexDigitsValue(color, 6);
    HexForms(HexText6(color), color);
    IntegerColorBelow(color);
  }

  /** An integer number already below 2^24 is its own colour. */
  lemma IntegerColorBelow(color: int)
    requires 0 <= color < 0x100_0000
    ensures NormalizeColorFactor(Some(JNum(color as real))) == Some(ChannelsOf(color))
  {
    IntegerColor(color);
    assert color % 0x100_0000 == color;
  }

  /** Six hex digits with value `color`, with or without '#', give that colour. */
  lemma HexForms(t: string, color: int)
    requires |t| == 6 && forall k :: 0 <= k < 6 ==> IsHexDigit(t[k])
    requires HexValue(t) == color && 0 <= color < 0x100_0000
    ensures NormalizeColorFactor(Some(JStr("#" + t))) == Some(ChannelsOf(color))
    ensures NormalizeColorFactor(Some(JStr(t))) == Some(ChannelsOf(color))
  {
    SixDigitTexts(t);
    HexColorText(t);
    HexColorText("#" + t);
  }

  /** Six hex digits match the pattern with and without a '#' in front, and the digits are read back. */
  lemma SixDigitTexts(t: string)
    requires |t| == 6 && forall k :: 0 <= k < 6 ==> IsHexDigit(t[k])
    ensures IsHexColorText(t) && HexColorDigits(t) == t
    ensures IsHexColorText("#" + t) && HexColorDigits("#" + t) == t
  {
    assert ("#" + t)[1..] == t;
  }

  /** A text of hex digits and '#' that matches the pattern is read as such. */
  lemma HexColorText(t: string)
    requires IsHexColorText(t)
    ensures Power16(6) == 0x100_0000
    ensures NormalizeColorFactor(Some(JStr(t))) == Some(ChannelsOf(HexValue(HexColorDigits(t))))
  {
    assert !IsTrimmable(JsTrim, t[0]) && !IsTrimmable(JsTrim, t[|t| - 1]);
    TrimOfTrimmed(JsTrim, t);
    TrimmedString(t);
    assert ArrayChannels(Some(JStr(t))).None? && !IsIntegerNumber(Some(JStr(t)));
  }

  /** Three bytes read as an array are each divided by 255 when one exceeds 1. */
  lemma ByteArrayColor(r: int, g: int, b: int)
    requires 0 <= r < 256 && 0 <= g < 256 && 0 <= b < 256
    requires r > 1 || g > 1 || b > 1
    ensures NormalizeColorFactor(Some(JArr([JNum(r as real), JNum(g as real), JNum(b as real)])))
      == Some(MaterialResolver.Rgb(r as real / 255.0, g as real / 255.0, b as real / 255.0))
  {
    var v := Some(JArr([JNum(r as real), JNum(g as real), JNum(b as real)]));
    assert ArrayChannels(v) == Some((r as real, g as real, b as real));
    assert MaterialResolver.InUnit(r as real / 255.0);
    assert MaterialResolver.InUnit(g as real / 255.0);
    assert MaterialResolver.InUnit(b as real / 255.0);
  }

  /** Packing three bytes into 24 bits and taking the channels gives the bytes back. */
  lemma PackedChannels(r: int, g: int, b: int)
    requires 0 <= r < 256 && 0 <= g < 256 && 0 <= b < 256
    ensures 0 <= r * 0x1_0000 + g * 0x100 + b < 0x100_0000
    ensures ChannelsOf(r * 0x1_0000 + g * 0x100 + b) == MaterialResolver.Rgb(r as real / 255.0, g as real / 255.0, b as real / 255.0)
  {
    var low := g * 0x100 + b;
    assert 0 <= low < 0x1_0000;
    var color := r * 0x1_0000 + low;
    assert color / 0x1_0000 == r;
    assert (color / 0x1_0000) % 256 == r;
    var mid := r * 0x100 + g;
    assert color == mid * 0x100 + b;
    assert color / 0x100 == mid;
    assert mid % 256 == g;
    assert color % 256 == b;
    var c := ChannelsOf(color);
    assert c.r == r as real / 255.0;
    assert c.g == g as real / 255.0;
    assert c.b == b as real / 255.0;
  }

  /** Three bytes, one of them above 1, give the colour of the integer they pack into. */
  lemma ArrayAndIntegerAgree(r: int, g: int, b: int)
    requires 0 <= r < 256 && 0 <= g < 256 && 0 <= b < 256
    requires r > 1 || g > 1 || b > 1
    ensures NormalizeColorFactor(Some(JArr([JNum(r as real), JNum(g as real), JNum(b as real)])))
      == NormalizeColorFactor(Some(JNum((r * 0x1_0000 + g * 0x100 + b) as real)))
  {
    PackedChannels(r, g, b);
    IntegerColorBelow(r * 0x1_0000 + g * 0x100 + b);
    ByteArrayColor(r, g, b);
  }
}
