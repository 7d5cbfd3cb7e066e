/**
 * The texture-offset animation tracks of the glTF writer: a mcmeta
 * animation becomes a list of frames (index, duration in ticks), each
 * track is repeated up to a loop length shared by all tracks (their least
 * common multiple, capped at 4800 ticks), and the repeated track becomes
 * key times in seconds and offset values.
 */
module OffsetTracks {
  import opened Wrappers
  import opened Strings
  import opened Json
  import MaterialResolver

  /** The cap on the shared loop length, in ticks (four minutes at 20 ticks per second). */
  const MAX_SHARED_LOOP_TICKS: int := 4800

  /** Minecraft's game ticks per second. */
  const TICKS_PER_SECOND: real := 20.0

  /** The interpolation of every track: a frame is held until the next one. */
  const STEP: string := "STEP"

  // ---------------------------------------------------------------------------
  // normalizePositiveInt
  // ---------------------------------------------------------------------------

  /**
   * normalizePositiveInt(value, fallback): the integer parseInt reads from
   * String(value ?? ''), or the fallback when that is not positive. A number
   * reads as its integer part (its text is plain decimal).
   */
  function NormalizePositiveInt(value: Option<Json>, fallback: int): (r: int)
    ensures r == fallback || r > 0
  {
    var parsed := ParseIntOfValue(value);
    if parsed.Some? && parsed.value > 0 then parsed.value else fallback
  }

  /**
   * A positive integer, as its decimal text or as a number below 10^21,
   * normalises to itself; null, a missing value, and a number below 1 give the fallback.
   */
  lemma NormalizePositiveIntSpec(n: nat, fallback: int)
    requires n > 0
    ensures n < 1_000_000_000_000_000_000_000 ==> NormalizePositiveInt(Some(JNum(n as real)), fallback) == n
    ensures NormalizePositiveInt(Some(JStr(NatToString(n))), fallback) == n
    ensures NormalizePositiveInt(None, fallback) == fallback
    ensures NormalizePositiveInt(Some(JNull), fallback) == fallback
    ensures forall x: real :: x < 1.0 ==> NormalizePositiveInt(Some(JNum(x)), fallback) == fallback
  {
    PositiveTextNormalises(n, fallback);
    SmallNumbersFallBack(fallback);
    assert n < 1_000_000_000_000_000_000_000 ==> (n as real).Floor == n;
  }

  /** The decimal text of a positive integer normalises to that integer. */
  lemma PositiveTextNormalises(n: nat, fallback: int)
    requires n > 0
    ensures NormalizePositiveInt(Some(JStr(NatToString(n))), fallback) == n
  {
    NatToStringValue(n);
    ParseIntOfDigits(NatToString(n));
    assert ParseIntOfValue(Some(JStr(NatToString(n)))) == Some(n);
  }

  /** A number below 1 gives the fallback. */
  lemma SmallNumbersFallBack(fallback: int)
    ensures forall x: real :: x < 1.0 ==> NormalizePositiveInt(Some(JNum(x)), fallback) == fallback
  {
    forall x: real | x < 1.0
      ensures NormalizePositiveInt(Some(JNum(x)), fallback) == fallback
    {
      assert ParseIntOfValue(Some(JNum(x))) == NumberParseInt(x);
    }
  }

  // ---------------------------------------------------------------------------
  // Frames
  // ---------------------------------------------------------------------------

  /** A frame of a track: the frame's index in the strip and its duration in ticks. */
  datatype TrackFrame = TrackFrame(index: int, time: int)

  /** A track: its frames, the strip's frame count and the ticks of one pass. */
  datatype OffsetTrack = OffsetTrack(frames: seq<TrackFrame>, frameCount: int, periodTicks: int, interpolation: string)

  /** clampFrameIndex: an index within [0, frameCount). */
  function ClampFrameIndex(index: int, frameCount: int): (r: int)
    requires frameCount >= 1
    ensures 0 <= r < frameCount
    ensures 0 <= index < frameCount ==> r == index
    ensures index < 0 ==> r == 0
    ensures index >= frameCount ==> r == frameCount - 1
  {
    if index < 0 then 0 else if index >= frameCount then frameCount - 1 else index
  }

  /** The integer frame index of a raw frame: Number(frame?.index) when it is an integer. */
  function RawFrameIndex(frame: Json): Option<int>
  {
    var x := ToNumber(Get(frame, "index"));
    if x.Some? && IsIntegral(x.value) then Some(x.value.Floor) else None
  }

  /** animation.frames when it is an array, or nothing. */
  function RawFrames(animation: Option<Json>): seq<Json>
  {
    var frames := GetOpt(animation, "frames");
    if frames.Some? && frames.value.JArr? then frames.value.items else []
  }

  /** animation.frameTime as a positive integer, 1 by default. */
  function FallbackFrameTime(animation: Option<Json>): (t: int)
    ensures t >= 1
  {
    NormalizePositiveInt(GetOpt(animation, "frameTime"), 1)
  }

  /** The frames the loop over raw frames keeps: those with an integer index, clamped, with their own time or the fallback. */
  function FramesFrom(raws: seq<Json>, frameCount: int, fallback: int): (r: seq<TrackFrame>)
    requires frameCount >= 1
    ensures |r| <= |raws|
    decreases |raws|
  {
    if raws == [] then []
    else
      var init := FramesFrom(raws[..|raws| - 1], frameCount, fallback);
      var raw := raws[|raws| - 1];
      var index := RawFrameIndex(raw);
      if index.None? then init
      else init + [TrackFrame(ClampFrameIndex(index.value, frameCount), NormalizePositiveInt(Get(raw, "time"), fallback))]
  }

  /** Every frame of the strip in order, each for the fallback time. */
  function DefaultFrames(frameCount: int, fallback: int): seq<TrackFrame>
    requires frameCount >= 0
  {
    seq(frameCount, i requires 0 <= i < frameCount => TrackFrame(i, fallback))
  }

  /** normalizeTrackFrames: the raw frames that name an index, or else every frame of the strip. */
  function TrackFrames(animation: Option<Json>, frameCount: int): seq<TrackFrame>
    requires frameCount >= 1
  {
    var fallback := FallbackFrameTime(animation);
    var out := FramesFrom(RawFrames(animation), frameCount, fallback);
    if |out| > 0 then out else DefaultFrames(frameCount, fallback)
  }

  /** Frames whose durations are positive. */
  predicate PositiveTimes(frames: seq<TrackFrame>)
  {
    forall k :: 0 <= k < |frames| ==> frames[k].time >= 1
  }

  /** Frames whose indexes lie within the strip. */
  predicate IndexesWithin(frames: seq<TrackFrame>, frameCount: int)
  {
    forall k :: 0 <= k < |frames| ==> 0 <= frames[k].index < frameCount
  }

  method NormalizeTrackFrames(animation: Option<Json>, frameCount: int) returns (out: seq<TrackFrame>)
    requires frameCount >= 1
    ensures out == TrackFrames(animation, frameCount)
  {
    var fallback := FallbackFrameTime(animation);
    out := KeepIndexedFrames(RawFrames(animation), frameCount, fallback);
    if |out| == 0 {
      out := StripFrames(frameCount, fallback);
    }
  }

  /** The fallback loop: every frame of the strip in order. */
  method StripFrames(frameCount: int, fallback: int) returns (out: seq<TrackFrame>)
    requires frameCount >= 0
    ensures out == DefaultFrames(frameCount, fallback)
  {
    out := [];
    for index := 0 to frameCount
      invariant out == DefaultFrames(index, fallback)
    {
      out := out + [TrackFrame(index, fallback)];
    }
  }

  /** The loop over the raw frames: each one naming an integer index is appended, clamped, with its time. */
  method KeepIndexedFrames(raws: seq<Json>, frameCount: int, fallback: int) returns (out: seq<TrackFrame>)
    requires frameCount >= 1
    ensures out == FramesFrom(raws, frameCount, fallback)
  {
    out := [];
    for k := 0 to |raws|
      invariant out == FramesFrom(raws[..k], frameCount, fallback)
    {
      assert raws[..k + 1][..k] == raws[..k];
      var index := RawFrameIndex(raws[k]);
      if index.None? {
        continue;
      }
      out := out + [TrackFrame(ClampFrameIndex(index.value, frameCount), NormalizePositiveInt(Get(raws[k], "time"), fallback))];
    }
    assert raws[..|raws|] == raws;
  }

  /** The kept raw frames all lie within the strip and last at least one tick. */
  lemma {:induction false} FramesFromSpec(raws: seq<Json>, frameCount: int, fallback: int)
    requires frameCount >= 1 && fallback >= 1
    ensures PositiveTimes(FramesFrom(raws, frameCount, fallback))
    ensures IndexesWithin(FramesFrom(raws, frameCount, fallback), frameCount)
    decreases |raws|
  {
    if raws != [] {
      FramesFromSpec(raws[..|raws| - 1], frameCount, fallback);
    }
  }

  /**
   * The normalised frames are never empty, lie within the strip and last at
   * least a tick; without a raw frame naming an index they are the whole
   * strip in order at the animation's frame time.
   */
  lemma TrackFramesSpec(animation: Option<Json>, frameCount: int)
    requires frameCount >= 1
    ensures var frames := TrackFrames(animation, frameCount);
            && frames != []
            && PositiveTimes(frames)
            && IndexesWithin(frames, frameCount)
            && (FramesFrom(RawFrames(animation), frameCount, FallbackFrameTime(animation)) == [] ==>
                  |frames| == frameCount
                  && forall i :: 0 <= i < frameCount ==> frames[i] == TrackFrame(i, FallbackFrameTime(animation)))
  {
    FramesFromSpec(RawFrames(animation), frameCount, FallbackFrameTime(animation));
  }

  /** The total duration of the frames. */
  function SumTimes(frames: seq<TrackFrame>): int
    decreases |frames|
  {
    if frames == [] then 0 else SumTimes(frames[..|frames| - 1]) + frames[|frames| - 1].time
  }

  /** The frame count of an animation: Number(animation?.frameCount ?? 0). */
  function FrameCountOf(animation: Option<Json>): Option<real>
  {
    var raw := GetOpt(animation, "frameCount");
    ToNumber(if IsNullish(raw) then Some(JNum(0.0)) else raw)
  }

  /**
   * buildOffsetTrack: no track unless the frame count is an integer above 1;
   * the period is the sum of the frame durations (each already a positive
   * integer, so normalising it again changes nothing).
   */
  function BuildOffsetTrack(animation: Option<Json>): (r: Option<OffsetTrack>)
    ensures r.Some? <==> (var fc := FrameCountOf(animation); fc.Some? && IsIntegral(fc.value) && fc.value > 1.0)
  {
    var fc := FrameCountOf(animation);
    if fc.None? || !IsIntegral(fc.value) || fc.value <= 1.0 then None
    else
      var frameCount := fc.value.Floor;
      var frames := TrackFrames(animation, frameCount);
      Some(OffsetTrack(frames, frameCount, SumTimes(frames), STEP))
  }

  /** What a built track satisfies, and what repeating it relies on. */
  predicate ValidTrack(track: OffsetTrack)
  {
    && track.frames != []
    && track.frameCount >= 2
    && PositiveTimes(track.frames)
    && IndexesWithin(track.frames, track.frameCount)
    && track.periodTicks == SumTimes(track.frames)
  }

  lemma {:induction false} SumTimesPositive(frames: seq<TrackFrame>)
    requires PositiveTimes(frames)
    ensures SumTimes(frames) >= |frames|
    decreases |frames|
  {
    if frames != [] {
      SumTimesPositive(frames[..|frames| - 1]);
    }
  }

  /** Every built track is valid: at least one frame, at least two strip frames, a positive period. */
  lemma BuildOffsetTrackSpec(animation: Option<Json>)
    requires BuildOffsetTrack(animation).Some?
    ensures var track := BuildOffsetTrack(animation).value;
            ValidTrack(track) && track.periodTicks >= 1 && track.interpolation == STEP
  {
    var fc := FrameCountOf(animation).value.Floor;
    TrackFramesSpec(animation, fc);
    SumTimesPositive(TrackFrames(animation, fc));
  }

  // ---------------------------------------------------------------------------
  // repeatTrackToLoop
  // ---------------------------------------------------------------------------

  /** offsetForFrame: the frame's vertical offset in the strip, index / frameCount clamped to [0, 1]. */
  function OffsetForFrame(index: int, frameCount: int): (r: real)
    requires frameCount >= 1
    ensures 0 <= index < frameCount ==> r == index as real / frameCount as real
  {
    MaterialResolver.Clamp01(Some(index as real / frameCount as real))
  }

  /** ticksToSeconds: twenty ticks a second, negative times as 0. */
  function TicksToSeconds(ticks: int): (s: real)
    ensures s >= 0.0
    ensures ticks >= 0 ==> s * TICKS_PER_SECOND == ticks as real
  {
    if ticks < 0 then 0.0 else ticks as real / TICKS_PER_SECOND
  }

  /** A key of the repeated track: the tick it starts at and the frame shown. */
  datatype Emission = Emission(tick: int, frame: TrackFrame)

  /** The frame after j, wrapping round to the first. */
  function Next(j: nat, n: nat): (r: nat)
    requires j < n
    ensures r < n
  {
    if j + 1 == n then 0 else j + 1
  }

  /**
   * The keys the two nested loops push from a cursor at frame j: one per
   * frame, cycling through the frames, while the cursor is before the loop end.
   */
  function Emissions(frames: seq<TrackFrame>, shared: int, cursor: int, j: nat): seq<Emission>
    requires j < |frames| && PositiveTimes(frames)
    decreases shared - cursor
  {
    if cursor >= shared then []
    else [Emission(cursor, frames[j])] + Emissions(frames, shared, cursor + frames[j].time, Next(j, |frames|))
  }

  /** The key times in ticks of some keys. */
  function TicksOf(es: seq<Emission>): (r: seq<int>)
    ensures |r| == |es|
    ensures forall i :: 0 <= i < |es| ==> r[i] == es[i].tick
  {
    seq(|es|, i requires 0 <= i < |es| => es[i].tick)
  }

  /** The flat (0, offset) pairs of some keys. */
  function ValuesOf(es: seq<Emission>, frameCount: int): (r: seq<real>)
    requires frameCount >= 1
    ensures |r| == 2 * |es|
    decreases |es|
  {
    if es == [] then [] else ValuesOf(es[..|es| - 1], frameCount) + [0.0, OffsetForFrame(es[|es| - 1].frame.index, frameCount)]
  }

  /** A repeated track: key times in seconds, flat (u, v) offsets, and the interpolation. */
  datatype RepeatedTrack = RepeatedTrack(timesSeconds: seq<real>, valuesFlat: seq<real>, interpolation: string)

  /**
   * repeatTrackToLoop: the keys of the cycle up to the loop end, then a
   * closing key at the loop end repeating the first value; no track for a
   * period or loop length that is not positive.
   */
  function RepeatTrack(track: OffsetTrack, shared: int): Option<RepeatedTrack>
    requires track.frames != [] && PositiveTimes(track.frames) && track.frameCount >= 1
  {
    if track.periodTicks <= 0 || shared <= 0 then None
    else
      var es := Emissions(track.frames, shared, 0, 0);
      var ticks := TicksOf(es) + [shared];
      var values := ValuesOf(es, track.frameCount);
      Some(RepeatedTrack(
        seq(|ticks|, i requires 0 <= i < |ticks| => TicksToSeconds(ticks[i])),
        values + [values[0], values[1]],
        track.interpolation))
  }

  /** The cursor of the loops is at frame `idx` of the cycle; `n` means a full pass just ended. */
  function Wrap(idx: nat, n: nat): nat
  {
    if idx >= n then 0 else idx
  }

  /** No key is pushed once the cursor has reached the loop end. */
  lemma EmissionsEnd(frames: seq<TrackFrame>, shared: int, cursor: int, j: nat)
    requires j < |frames| && PositiveTimes(frames) && cursor >= shared
    ensures Emissions(frames, shared, cursor, j) == []
  {
  }

  /** A positive loop length gets at least the key of the first frame at tick 0. */
  lemma EmissionsNonEmpty(frames: seq<TrackFrame>, shared: int)
    requires frames != [] && PositiveTimes(frames) && shared >= 1
    ensures |Emissions(frames, shared, 0, 0)| >= 1
    ensures Emissions(frames, shared, 0, 0)[0] == Emission(0, frames[0])
  {
  }

  /** Pushing the key at the cursor moves it from the pending keys to the pushed ones. */
  lemma EmissionStep(frames: seq<TrackFrame>, shared: int, cursor: int, j: nat, done: seq<Emission>)
    requires j < |frames| && PositiveTimes(frames) && cursor < shared
    ensures done + Emissions(frames, shared, cursor, j)
            == (done + [Emission(cursor, frames[j])]) + Emissions(frames, shared, cursor + frames[j].time, Next(j, |frames|))
  {
  }

  /** The ticks and values of one more key. */
  lemma KeysSnoc(done: seq<Emission>, e: Emission, frameCount: int)
    requires frameCount >= 1
    ensures TicksOf(done + [e]) == TicksOf(done) + [e.tick]
    ensures ValuesOf(done + [e], frameCount) == ValuesOf(done, frameCount) + [0.0, OffsetForFrame(e.frame.index, frameCount)]
  {
    assert (done + [e])[..|done|] == done;
  }

  /**
   * One pass of the inner loop over the frames, from the first frame: each
   * frame pushes a key while the cursor is before the loop end.
   */
  method RepeatPass(track: OffsetTrack, shared: int, cursor0: int, ghost done0: seq<Emission>, ticks0: seq<int>, values0: seq<real>)
      returns (cursor: int, ghost done: seq<Emission>, ticks: seq<int>, values: seq<real>)
    requires track.frames != [] && PositiveTimes(track.frames) && track.frameCount >= 1
    requires cursor0 < shared
    requires ticks0 == TicksOf(done0) && values0 == ValuesOf(done0, track.frameCount)
    ensures done + Emissions(track.frames, shared, cursor, 0) == done0 + Emissions(track.frames, shared, cursor0, 0)
    ensures ticks == TicksOf(done) && values == ValuesOf(done, track.frameCount)
    ensures cursor > cursor0
  {
    var frames := track.frames;
    var n := |frames|;
    cursor, done, ticks, values := cursor0, done0, ticks0, values0;
    for k := 0 to n
      invariant done + Emissions(frames, shared, cursor, Wrap(k, n)) == done0 + Emissions(frames, shared, cursor0, 0)
      invariant ticks == TicksOf(done) && values == ValuesOf(done, track.frameCount)
      invariant k > 0 ==> cursor > cursor0
      invariant k == 0 ==> cursor == cursor0
    {
      if cursor >= shared {
        break;
      }
      var frame := frames[k];
      EmissionStep(frames, shared, cursor, k, done);
      KeysSnoc(done, Emission(cursor, frame), track.frameCount);
      done := done + [Emission(cursor, frame)];
      ticks := ticks + [cursor];
      values := values + [0.0, OffsetForFrame(frame.index, track.frameCount)];
      cursor := cursor + frame.time;
    }
  }

  /** The outer loop: passes over the frames until the cursor reaches the loop end. */
  method RepeatPasses(track: OffsetTrack, shared: int) returns (ticks: seq<int>, values: seq<real>)
    requires track.frames != [] && PositiveTimes(track.frames) && track.frameCount >= 1
    ensures ticks == TicksOf(Emissions(track.frames, shared, 0, 0))
    ensures values == ValuesOf(Emissions(track.frames, shared, 0, 0), track.frameCount)
  {
    ghost var all := Emissions(track.frames, shared, 0, 0);
    ghost var done: seq<Emission> := [];
    ticks, values := [], [];
    var cursor := 0;
    while cursor < shared
      invariant done + Emissions(track.frames, shared, cursor, 0) == all
      invariant ticks == TicksOf(done) && values == ValuesOf(done, track.frameCount)
      decreases shared - cursor
    {
      cursor, done, ticks, values := RepeatPass(track, shared, cursor, done, ticks, values);
    }
    EmissionsEnd(track.frames, shared, cursor, 0);
    assert done + [] == done;
  }

  method RepeatTrackToLoop(track: OffsetTrack, shared: int) returns (r: Option<RepeatedTrack>)
    requires track.frames != [] && PositiveTimes(track.frames) && track.frameCount >= 1
    ensures r == RepeatTrack(track, shared)
  {
    if track.periodTicks <= 0 || shared <= 0 {
      return None;
    }
    var ticks, values := RepeatPasses(track, shared);
    EmissionsNonEmpty(track.frames, shared);
    ticks := ticks + [shared];
    r := Some(RepeatedTrack(
      seq(|ticks|, i requires 0 <= i < |ticks| => TicksToSeconds(ticks[i])),
      values + [values[0], values[1]],
      track.interpolation));
  }

  // ---------------------------------------------------------------------------
  // What the repeated track is
  // ---------------------------------------------------------------------------

  /** The frame shown at the i-th key of the endless cycle. */
  function FrameAt(frames: seq<TrackFrame>, i: nat): (j: nat)
    requires frames != []
    ensures j < |frames|
  {
    if i == 0 then 0 else Next(FrameAt(frames, i - 1), |frames|)
  }

  /** The tick of the i-th key of the endless cycle. */
  function Tick(frames: seq<TrackFrame>, i: nat): int
    requires frames != []
  {
    if i == 0 then 0 else Tick(frames, i - 1) + frames[FrameAt(frames, i - 1)].time
  }

  /** Keys come strictly later one after the other. */
  lemma {:induction false} TickIncreasing(frames: seq<TrackFrame>, i: nat, j: nat)
    requires frames != [] && PositiveTimes(frames)
    ensures i < j ==> Tick(frames, i) < Tick(frames, j)
    decreases if i < j then j - i else 0
  {
    if i + 1 < j {
      TickIncreasing(frames, i, j - 1);
    }
  }

  /** The loops push keys i, i + 1, ... of the cycle from key i for as long as their tick is before the loop end. */
  lemma {:induction false} EmissionsFrom(frames: seq<TrackFrame>, shared: int, i: nat, cursor: int, j: nat)
    requires frames != [] && PositiveTimes(frames)
    requires cursor == Tick(frames, i) && j == FrameAt(frames, i)
    ensures var es := Emissions(frames, shared, cursor, j);
            && (forall m :: i <= m < i + |es| ==> es[m - i] == Emission(Tick(frames, m), frames[FrameAt(frames, m)]) && Tick(frames, m) < shared)
            && Tick(frames, i + |es|) >= shared
    decreases shared - cursor
  {
    var es := Emissions(frames, shared, cursor, j);
    if cursor < shared {
      var rest := Emissions(frames, shared, Tick(frames, i + 1), FrameAt(frames, i + 1));
      EmissionsFrom(frames, shared, i + 1, Tick(frames, i + 1), FrameAt(frames, i + 1));
      assert es == [Emission(cursor, frames[j])] + rest;
      forall m | i + 1 <= m < i + |es|
        ensures es[m - i] == Emission(Tick(frames, m), frames[FrameAt(frames, m)]) && Tick(frames, m) < shared
      {
        assert es[m - i] == rest[m - (i + 1)];
      }
    }
  }

  /**
   * The keys of the repeated track are exactly the keys of the endless
   * cycle (tick, frame) whose tick is before the loop end, in order.
   */
  lemma EmissionsSpec(frames: seq<TrackFrame>, shared: int)
    requires frames != [] && PositiveTimes(frames)
    ensures var es := Emissions(frames, shared, 0, 0);
            && (forall m :: 0 <= m < |es| ==> es[m] == Emission(Tick(frames, m), frames[FrameAt(frames, m)]) && Tick(frames, m) < shared)
            && Tick(frames, |es|) >= shared
  {
    EmissionsFrom(frames, shared, 0, 0, 0);
  }

  /** The durations of the first r frames. */
  function PrefixTime(frames: seq<TrackFrame>, r: nat): int
    requires r <= |frames|
  {
    SumTimes(frames[..r])
  }

  /** Within a pass started at key `base`, key base + r shows frame r, r frame-durations later. */
  lemma {:induction false} TickWithinPass(frames: seq<TrackFrame>, base: nat, r: nat)
    requires frames != [] && r < |frames| && FrameAt(frames, base) == 0
    ensures FrameAt(frames, base + r) == r
    ensures Tick(frames, base + r) == Tick(frames, base) + PrefixTime(frames, r)
    decreases r
  {
    if r > 0 {
      TickWithinPass(frames, base, r - 1);
      assert frames[..r][..r - 1] == frames[..r - 1];
    }
  }

  /** Pass q starts at key q·n, with the first frame, q periods in. */
  lemma {:induction false} TickOfPass(frames: seq<TrackFrame>, q: nat)
    requires frames != []
    ensures FrameAt(frames, q * |frames|) == 0
    ensures Tick(frames, q * |frames|) == q * SumTimes(frames)
    decreases q
  {
    var n := |frames|;
    if q > 0 {
      TickOfPass(frames, q - 1);
      var base := (q - 1) * n;
      TickWithinPass(frames, base, n - 1);
      assert base + (n - 1) + 1 == q * n;
      assert frames[..n] == frames;
      assert frames[..n][..n - 1] == frames[..n - 1];
    }
  }

  /** Only one key index can be the first to reach a tick the cycle hits exactly. */
  lemma FirstCrossing(frames: seq<TrackFrame>, shared: int, len: nat, at: nat)
    requires frames != [] && PositiveTimes(frames)
    requires forall m :: 0 <= m < len ==> Tick(frames, m) < shared
    requires Tick(frames, len) >= shared && Tick(frames, at) == shared
    ensures len == at
  {
    TickIncreasing(frames, len, at);
  }

  /**
   * When the loop end is a whole number k of periods (the least-common-
   * multiple case), the repeated track holds exactly k full passes over the
   * frames.
   */
  lemma WholePasses(frames: seq<TrackFrame>, k: nat)
    requires frames != [] && PositiveTimes(frames) && k >= 1
    ensures |Emissions(frames, k * SumTimes(frames), 0, 0)| == k * |frames|
  {
    var shared := k * SumTimes(frames);
    var es := Emissions(frames, shared, 0, 0);
    var passes := k * |frames|;
    TickOfPass(frames, k);
    assert Tick(frames, passes) == shared;
    EmissionsSpec(frames, shared);
    FirstCrossing(frames, shared, |es|, passes);
  }

  /** The flat values of keys: a zero u and the key's frame offset as v, pair by pair. */
  lemma {:induction false} ValuesOfSpec(es: seq<Emission>, frameCount: int, m: nat)
    requires frameCount >= 1 && m < |es|
    ensures ValuesOf(es, frameCount)[2 * m] == 0.0
    ensures ValuesOf(es, frameCount)[2 * m + 1] == OffsetForFrame(es[m].frame.index, frameCount)
    decreases |es|
  {
    if m < |es| - 1 {
      ValuesOfSpec(es[..|es| - 1], frameCount, m);
    }
  }

  /** The key ticks of the loops, closed by the loop end, start at 0 and rise strictly. */
  lemma RepeatedTicks(frames: seq<TrackFrame>, shared: int)
    requires frames != [] && PositiveTimes(frames) && shared >= 1
    ensures var ticks := TicksOf(Emissions(frames, shared, 0, 0)) + [shared];
            && |ticks| >= 2
            && ticks[0] == 0
            && forall a, b :: 0 <= a < b < |ticks| ==> 0 <= ticks[a] < ticks[b]
  {
    var es := Emissions(frames, shared, 0, 0);
    EmissionsSpec(frames, shared);
    EmissionsNonEmpty(frames, shared);
    var ticks := TicksOf(es) + [shared];
    forall a, b | 0 <= a < b < |ticks|
      ensures 0 <= ticks[a] < ticks[b]
    {
      TickIncreasing(frames, 0, a);
      TickIncreasing(frames, a, b);
      assert ticks[a] == Tick(frames, a);
      assert b < |es| ==> ticks[b] == Tick(frames, b);
    }
  }

  /**
   * The repeated track of a valid track and a positive loop length: key
   * times start at 0, rise strictly, and end at the loop length in seconds,
   * one per key of the cycle plus the closing one.
   */
  lemma RepeatTrackTimes(track: OffsetTrack, shared: int)
    requires ValidTrack(track) && shared >= 1
    ensures RepeatTrack(track, shared).Some?
    ensures var times := RepeatTrack(track, shared).value.timesSeconds;
            && |times| == |Emissions(track.frames, shared, 0, 0)| + 1 >= 2
            && times[0] == 0.0
            && times[|times| - 1] * TICKS_PER_SECOND == shared as real
            && (forall a, b :: 0 <= a < b < |times| ==> times[a] < times[b])
  {
    SumTimesPositive(track.frames);
    RepeatedTicks(track.frames, shared);
    var es := Emissions(track.frames, shared, 0, 0);
    var ticks := TicksOf(es) + [shared];
    var times := RepeatTrack(track, shared).value.timesSeconds;
    assert forall a :: 0 <= a < |ticks| ==> times[a] == TicksToSeconds(ticks[a]);
  }

  /**
   * The values of the repeated track are one (0, offset of the key's frame)
   * pair per key, and the closing pair repeats the first so the clip loops
   * seamlessly.
   */
  lemma RepeatTrackValues(track: OffsetTrack, shared: int)
    requires ValidTrack(track) && shared >= 1
    ensures RepeatTrack(track, shared).Some?
    ensures var r := RepeatTrack(track, shared).value;
            var es := Emissions(track.frames, shared, 0, 0);
            && |r.valuesFlat| == 2 * |r.timesSeconds|
            && (forall m :: 0 <= m < |es| ==>
                  r.valuesFlat[2 * m] == 0.0
                  && r.valuesFlat[2 * m + 1] == track.frames[FrameAt(track.frames, m)].index as real / track.frameCount as real)
            && r.valuesFlat[|r.valuesFlat| - 2] == r.valuesFlat[0]
            && r.valuesFlat[|r.valuesFlat| - 1] == r.valuesFlat[1]
            && r.interpolation == track.interpolation
  {
    var frames := track.frames;
    SumTimesPositive(frames);
    var es := Emissions(frames, shared, 0, 0);
    EmissionsSpec(frames, shared);
    EmissionsNonEmpty(frames, shared);
    var r := RepeatTrack(track, shared).value;
    forall m | 0 <= m < |es|
      ensures r.valuesFlat[2 * m] == 0.0
      ensures r.valuesFlat[2 * m + 1] == frames[FrameAt(frames, m)].index as real / track.frameCount as real
    {
      ValuesOfSpec(es, track.frameCount, m);
    }
  }

  // ---------------------------------------------------------------------------
  // resolveSharedLoopTicks
  // ---------------------------------------------------------------------------

  /** d divides m. */
  ghost predicate Divides(d: int, m: int)
  {
    exists k: int :: m == d * k
  }

  function Abs(x: int): nat
  {
    if x < 0 then -x else x
  }

  /** Euclid's algorithm on non-negative numbers. */
  function Euclid(x: nat, y: nat): nat
    decreases y
  {
    if y == 0 then x else Euclid(y, x % y)
  }

  /** gcd(a, b): Euclid's algorithm on |a| and |b|, or 1 when that gives 0. */
  function Gcd(a: int, b: int): (g: int)
    ensures g >= 1
  {
    var x := Euclid(Abs(a), Abs(b));
    if x == 0 then 1 else x
  }

  method ComputeGcd(a: int, b: int) returns (g: int)
    ensures g == Gcd(a, b)
  {
    var x, y := Abs(a), Abs(b);
    while y != 0
      invariant Euclid(x, y) == Euclid(Abs(a), Abs(b))
      decreases y
    {
      var temp := x % y;
      x := y;
      y := temp;
    }
    g := if x == 0 then 1 else x;
  }

  /** Euclid's result divides both numbers. */
  lemma {:induction false} EuclidDivides(x: nat, y: nat)
    ensures Divides(Euclid(x, y), x) && Divides(Euclid(x, y), y)
    decreases y
  {
    var g := Euclid(x, y);
    if y == 0 {
      assert x == g * 1 && y == g * 0;
    } else {
      EuclidDivides(y, x % y);
      var k1 :| y == g * k1;
      var k2 :| x % y == g * k2;
      var q := x / y;
      assert x == q * y + x % y;
      assert x == g * (q * k1 + k2) by {
        assert q * y == q * (g * k1) == g * (q * k1);
      }
    }
  }

  /** lcm(a, b): |a·b| / gcd(a, b). */
  function Lcm(a: int, b: int): int
  {
    Abs(a * b) / Gcd(a, b)
  }

  method ComputeLcm(a: int, b: int) returns (l: int)
    ensures l == Lcm(a, b)
  {
    var g := ComputeGcd(a, b);
    l := Abs(a * b) / g;
  }

  /** A multiple of g is at least g above 0, or at most -g below, or 0. */
  lemma MultipleBounds(d: int, g: int)
    requires g >= 1
    ensures d >= 1 ==> d * g >= g
    ensures d <= -1 ==> d * g <= -g
  {
  }

  lemma DivOfMultiple(g: int, k: int)
    requires g >= 1
    ensures (g * k) / g == k
  {
    var x := g * k;
    assert x == (x / g) * g + x % g;
    assert (k - x / g) * g == x % g;
    MultipleBounds(k - x / g, g);
  }

  lemma DividesBy(d: int, m: int, k: int)
    requires m == d * k
    ensures Divides(d, m)
  {
  }

  /** The gcd of two positive numbers splits each into gcd times a positive cofactor. */
  lemma CoFactors(a: int, b: int) returns (ka: int, kb: int)
    requires a >= 1 && b >= 1
    ensures a == Gcd(a, b) * ka && b == Gcd(a, b) * kb && ka >= 1 && kb >= 1
  {
    EuclidDivides(a, b);
    var g := Gcd(a, b);
    ka :| a == g * ka;
    kb :| b == g * kb;
    MultipleBounds(ka, g);
    MultipleBounds(kb, g);
  }

  /** With a = g·ka and b = g·kb, a·b / g is ka·b, which is also a·kb. */
  lemma LcmOfCoFactors(a: int, b: int, g: int, ka: int, kb: int)
    requires g >= 1 && a == g * ka && b == g * kb
    ensures (a * b) / g == ka * b == a * kb
  {
    assert a * b == g * (ka * b) by {
      assert a * b == (g * ka) * b;
    }
    DivOfMultiple(g, ka * b);
    assert ka * b == a * kb by {
      assert ka * (g * kb) == (g * ka) * kb;
    }
  }

  /** The lcm of two positive numbers is a positive common multiple of both, at least as large as each. */
  lemma LcmSpec(a: int, b: int)
    requires a >= 1 && b >= 1
    ensures Divides(a, Lcm(a, b)) && Divides(b, Lcm(a, b))
    ensures Lcm(a, b) >= a && Lcm(a, b) >= b
  {
    var ka, kb := CoFactors(a, b);
    MultipleBounds(a, b);
    assert Abs(a * b) == a * b;
    LcmOfCoFactors(a, b, Gcd(a, b), ka, kb);
    DividesBy(b, Lcm(a, b), ka);
    DividesBy(a, Lcm(a, b), kb);
    MultipleBounds(ka, b);
    MultipleBounds(kb, a);
  }

  /** The positive periods, in order. */
  function PositivePeriods(periods: seq<int>): (ps: seq<int>)
    ensures forall i :: 0 <= i < |ps| ==> ps[i] >= 1
    ensures forall p :: p in ps <==> p in periods && p >= 1
    decreases |periods|
  {
    if periods == [] then []
    else
      var init := PositivePeriods(periods[..|periods| - 1]);
      assert forall p :: p in periods <==> p in periods[..|periods| - 1] || p == periods[|periods| - 1];
      if periods[|periods| - 1] >= 1 then init + [periods[|periods| - 1]] else init
  }

  /** Math.max over a non-empty list: one of its elements, and no smaller than any. */
  function MaxOf(ps: seq<int>): (m: int)
    requires ps != []
    ensures m in ps && forall i :: 0 <= i < |ps| ==> ps[i] <= m
    decreases |ps|
  {
    if |ps| == 1 then ps[0]
    else
      var rest := MaxOf(ps[..|ps| - 1]);
      assert forall i :: 0 <= i < |ps| - 1 ==> ps[..|ps| - 1][i] == ps[i];
      if ps[|ps| - 1] > rest then ps[|ps| - 1] else rest
  }

  /** The loop from period i on, with the lcm so far: the largest period as soon as an lcm passes the cap. */
  function SharedFrom(ps: seq<int>, acc: int, i: nat): int
    requires ps != [] && i <= |ps|
    decreases |ps| - i
  {
    if i == |ps| then acc
    else
      var l := Lcm(acc, ps[i]);
      if l > MAX_SHARED_LOOP_TICKS then MaxOf(ps) else SharedFrom(ps, l, i + 1)
  }

  /** resolveSharedLoopTicks: 0 without a positive period, else the capped lcm of the positive periods. */
  function SharedLoopTicks(periods: seq<int>): int
  {
    var ps := PositivePeriods(periods);
    if ps == [] then 0 else SharedFrom(ps, ps[0], 1)
  }

  method ResolveSharedLoopTicks(periods: seq<int>) returns (shared: int)
    ensures shared == SharedLoopTicks(periods)
  {
    var ps := PositivePeriods(periods);
    if |ps| == 0 {
      return 0;
    }
    var lcmValue := ps[0];
    for i := 1 to |ps|
      invariant SharedFrom(ps, lcmValue, i) == SharedFrom(ps, ps[0], 1)
    {
      lcmValue := ComputeLcm(lcmValue, ps[i]);
      if lcmValue > MAX_SHARED_LOOP_TICKS {
        return MaxOf(ps);
      }
    }
    shared := lcmValue;
  }

  /** A common multiple of the first i periods carried through the loop stays one of all periods it meets. */
  lemma {:induction false} SharedFromSpec(ps: seq<int>, acc: int, i: nat)
    requires ps != [] && 1 <= i <= |ps|
    requires forall p :: 0 <= p < |ps| ==> ps[p] >= 1
    requires acc >= 1 && forall p :: 0 <= p < i ==> Divides(ps[p], acc)
    ensures var r := SharedFrom(ps, acc, i);
            r >= 1
            && (r == MaxOf(ps)
                || ((r <= MAX_SHARED_LOOP_TICKS || (i == |ps| && r == acc)) && forall p :: 0 <= p < |ps| ==> Divides(ps[p], r)))
    decreases |ps| - i
  {
    if i < |ps| {
      var l := Lcm(acc, ps[i]);
      LcmSpec(acc, ps[i]);
      if l <= MAX_SHARED_LOOP_TICKS {
        forall p | 0 <= p < i + 1
          ensures Divides(ps[p], l)
        {
          if p < i {
            DividesTrans(ps[p], acc, l);
          }
        }
        SharedFromSpec(ps, l, i + 1);
      }
    }
  }

  lemma DividesTrans(a: int, b: int, c: int)
    requires Divides(a, b) && Divides(b, c)
    ensures Divides(a, c)
  {
    var k1 :| b == a * k1;
    var k2 :| c == b * k2;
    assert c == a * (k1 * k2) by {
      assert (a * k1) * k2 == a * (k1 * k2);
    }
  }

  /**
   * The shared loop length is 0 without a positive period; otherwise it is
   * positive and either a common multiple of every positive period within
   * the 4800-tick cap, or the largest period once the lcm would pass the cap.
   */
  lemma SharedLoopTicksSpec(periods: seq<int>)
    ensures PositivePeriods(periods) == [] <==> SharedLoopTicks(periods) == 0
    ensures var r := SharedLoopTicks(periods);
            var ps := PositivePeriods(periods);
            ps != [] ==>
              r >= 1
              && ((r <= MAX_SHARED_LOOP_TICKS && forall p :: p in periods && p >= 1 ==> Divides(p, r))
                  || r == MaxOf(ps))
  {
    var ps := PositivePeriods(periods);
    if ps != [] {
      assert Divides(ps[0], ps[0]) by {
        assert ps[0] == ps[0] * 1;
      }
      SharedFromSpec(ps, ps[0], 1);
      var r := SharedLoopTicks(periods);
      forall p | p in periods && p >= 1 && r != MaxOf(ps)
        ensures Divides(p, r)
      {
        assert p in ps;
        var i :| 0 <= i < |ps| && ps[i] == p;
      }
    }
  }
}
