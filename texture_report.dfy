/**
 * The texture lookup read from the exporter's texture report
 * (`texture-report.mjs`): the texture URI and tint of each block state and
 * block id, and for each exported texture URI whether it has alpha and how
 * its `.mcmeta` file animates it.
 *
 * The PNG header and chunk walk follow the PNG specification (ISO/IEC
 * 15948, section 5.2 on the signature, section 5.3 on the chunk layout,
 * section 11.2.2 on IHDR and section 11.3.2.1 on tRNS): an 8-byte
 * signature, then chunks made of a 4-byte big-endian length, a 4-byte type,
 * the data and a 4-byte CRC, with IHDR first.
 */
module TextureReport {
  import opened Wrappers
  import opened Strings
  import opened Json
  import OffsetTracks
  import MaterialResolver

  /** A byte of a file. */
  type Byte = b: int | 0 <= b < 256

  // ---------------------------------------------------------------------------
  // Texts, prefixes and tints
  // ---------------------------------------------------------------------------

  /**
   * String(value ?? '').trim(). A number that String() would write in
   * fraction or exponent form reads as blank here.
   */
  function TrimmedText(v: Option<Json>): string
  {
    if IsNullish(v) then "" else Trim(JsTrim, JsText(v.value).GetOr(""))
  }

  /** The trimmed text of a value neither starts nor ends with white space. */
  lemma TrimmedTextEnds(v: Option<Json>)
    ensures var t := TrimmedText(v);
            t != [] ==> !IsTrimmable(JsTrim, t[0]) && !IsTrimmable(JsTrim, t[|t| - 1])
  {
    if !IsNullish(v) {
      TrimEnds(JsTrim, JsText(v.value).GetOr(""));
    }
  }

  /** A non-empty text made to end in '/'. */
  function WithSlash(value: string): string
  {
    if value == [] then "" else if value[|value| - 1] == '/' then value else value + "/"
  }

  /** normalizeUriPrefix: '' for a blank prefix, otherwise the trimmed prefix ending in '/'. */
  function NormalizeUriPrefix(uriPrefix: Option<Json>): string
  {
    WithSlash(TrimmedText(uriPrefix))
  }

  /**
   * A blank prefix gives ''; any other gives its trimmed text with one '/'
   * added when it does not already end in one; normalising the result
   * again changes nothing.
   */
  lemma NormalizeUriPrefixSpec(uriPrefix: Option<Json>)
    ensures var value := TrimmedText(uriPrefix);
            var r := NormalizeUriPrefix(uriPrefix);
            && (r == [] <==> value == [])
            && (r != [] ==> r[|r| - 1] == '/' && (r == value || r == value + "/"))
            && NormalizeUriPrefix(Some(JStr(r))) == r
  {
    var value := TrimmedText(uriPrefix);
    var r := WithSlash(value);
    TrimmedTextEnds(uriPrefix);
    if r != [] {
      assert r[0] == value[0];
      assert !IsTrimmable(JsTrim, '/');
    }
    TrimOfTrimmed(JsTrim, r);
    assert TrimmedText(Some(JStr(r))) == Trim(JsTrim, r);
  }

  /** The modulus of a 24-bit colour. */
  const TINT_MODULUS: int := 0x100_0000

  /**
   * normalizeTintColor: an integer masked with 0xFFFFFF, that is, its low
   * 24 bits in two's complement; anything else gives no tint.
   */
  function NormalizeTintColor(value: Option<Json>): (r: Option<int>)
    ensures r.Some? <==> IsInteger(value)
    ensures r.Some? ==> 0 <= r.value < TINT_MODULUS && (AsInt(value) - r.value) % TINT_MODULUS == 0
  {
    if IsInteger(value) then Some(AsInt(value) % TINT_MODULUS) else None
  }

  // ---------------------------------------------------------------------------
  // PNG
  // ---------------------------------------------------------------------------

  const PNG_SIGNATURE: seq<Byte> := [0x89, 0x50, 0x4E, 0x47, 0x0D, 0x0A, 0x1A, 0x0A]
  const IHDR_BYTES: seq<Byte> := [0x49, 0x48, 0x44, 0x52]
  const TWO_POW_32: int := 0x1_0000_0000

  /** readUInt32BE: four bytes, most significant first. */
  function Be32(data: seq<Byte>, at: nat): nat
    requires at + 4 <= |data|
  {
    data[at] as int * 0x100_0000 + data[at + 1] as int * 0x1_0000 + data[at + 2] as int * 0x100 + data[at + 3] as int
  }

  /** toString('ascii') of four bytes: Node clears the high bit of each byte. */
  function TypeAt(data: seq<Byte>, at: nat): string
    requires at + 4 <= |data|
  {
    [(data[at] % 128) as char, (data[at + 1] % 128) as char, (data[at + 2] % 128) as char, (data[at + 3] % 128) as char]
  }

  /**
   * The chunk walk of hasTrnsChunk from `offset`: false once fewer than 12
   * bytes remain or a chunk runs past the end, true at a tRNS chunk, false
   * at an IEND chunk, and otherwise on to the next chunk.
   */
  function TrnsFrom(data: seq<Byte>, offset: nat): bool
    decreases |data| - offset
  {
    if offset + 12 > |data| then false
    else
      var next := offset + 8 + Be32(data, offset) + 4;
      if next > |data| then false
      else if TypeAt(data, offset + 4) == "tRNS" then true
      else if TypeAt(data, offset + 4) == "IEND" then false
      else TrnsFrom(data, next)
  }

  /** hasTrnsChunk: the chunk walk from the end of the signature. */
  method HasTrnsChunk(data: seq<Byte>) returns (found: bool)
    ensures found == TrnsFrom(data, 8)
  {
    var offset := 8;
    while offset + 12 <= |data|
      invariant TrnsFrom(data, offset) == TrnsFrom(data, 8)
      decreases |data| - offset
    {
      var length := Be32(data, offset);
      var next := offset + 8 + length + 4;
      if next > |data| {
        return false;
      }
      var kind := TypeAt(data, offset + 4);
      if kind == "tRNS" {
        return true;
      }
      if kind == "IEND" {
        return false;
      }
      offset := next;
    }
    return false;
  }

  /** The PNG header facts the lookup uses. */
  datatype PngMeta = PngMeta(width: nat, height: nat, hasAlpha: bool)

  /**
   * readPngMetadata on the bytes of a file: None unless there are 24 bytes,
   * the signature and the IHDR type; width and height from the IHDR data;
   * alpha from colour type 4 or 6 (byte 25, absent in a 24-byte file) or
   * from a tRNS chunk.
   */
  function ReadPngMetadata(data: seq<Byte>): Option<PngMeta>
  {
    if |data| < 24 || data[..8] != PNG_SIGNATURE || data[12..16] != IHDR_BYTES then None
    else
      var hasDirectAlpha := |data| > 25 && (data[25] == 4 || data[25] == 6);
      Some(PngMeta(Be32(data, 16), Be32(data, 20), hasDirectAlpha || TrnsFrom(data, 8)))
  }

  // Encoding chunks, the partner of the walk and the header reader.

  /** A PNG chunk: its four-letter type, its data and its CRC. */
  datatype Chunk = Chunk(kind: string, body: seq<Byte>, crc: seq<Byte>)

  predicate ValidChunk(c: Chunk)
  {
    && |c.kind| == 4
    && (forall i :: 0 <= i < 4 ==> c.kind[i] as int < 128)
    && |c.body| < TWO_POW_32
    && |c.crc| == 4
  }

  predicate ValidChunks(cs: seq<Chunk>)
  {
    forall k :: 0 <= k < |cs| ==> ValidChunk(cs[k])
  }

  /** A 32-bit number as four bytes, most significant first. */
  function Be32Bytes(n: nat): seq<Byte>
    requires n < TWO_POW_32
  {
    [n / 0x100_0000, n / 0x1_0000 % 0x100, n / 0x100 % 0x100, n % 0x100]
  }

  function KindBytes(kind: string): seq<Byte>
    requires |kind| == 4 && forall i :: 0 <= i < 4 ==> kind[i] as int < 128
  {
    [kind[0] as int, kind[1] as int, kind[2] as int, kind[3] as int]
  }

  function EncodeChunk(c: Chunk): seq<Byte>
    requires ValidChunk(c)
  {
    Be32Bytes(|c.body|) + KindBytes(c.kind) + c.body + c.crc
  }

  function EncodeChunks(cs: seq<Chunk>): seq<Byte>
    requires ValidChunks(cs)
    decreases |cs|
  {
    if cs == [] then [] else EncodeChunk(cs[0]) + EncodeChunks(cs[1..])
  }

  /** Whether a tRNS chunk comes before every IEND chunk. */
  function TrnsBeforeIend(cs: seq<Chunk>): bool
    decreases |cs|
  {
    if cs == [] then false
    else if cs[0].kind == "tRNS" then true
    else if cs[0].kind == "IEND" then false
    else TrnsBeforeIend(cs[1..])
  }

  /** Reading four encoded bytes gives the number back. */
  lemma Be32OfBytes(n: nat, data: seq<Byte>, at: nat)
    requires n < TWO_POW_32
    requires at + 4 <= |data| && data[at..at + 4] == Be32Bytes(n)
    ensures Be32(data, at) == n
  {
    var bs := Be32Bytes(n);
    assert data[at] == bs[0] && data[at + 1] == bs[1] && data[at + 2] == bs[2] && data[at + 3] == bs[3];
    var q1 := n / 0x100;
    var q2 := q1 / 0x100;
    assert n == q1 * 0x100 + n % 0x100;
    assert q1 == q2 * 0x100 + q1 % 0x100;
    assert n / 0x1_0000 == q2;
    assert q2 == q2 / 0x100 * 0x100 + q2 % 0x100;
    assert n / 0x100_0000 == q2 / 0x100;
    assert q2 / 0x100 < 0x100;
  }

  /** One encoded chunk read at its start: its length and its type come back. */
  lemma ChunkHeader(pre: seq<Byte>, c: Chunk, post: seq<Byte>)
    requires ValidChunk(c)
    ensures var data := pre + EncodeChunk(c) + post;
            && |pre| + 12 + |c.body| == |pre + EncodeChunk(c)|
            && Be32(data, |pre|) == |c.body|
            && TypeAt(data, |pre| + 4) == c.kind
  {
    var data := pre + EncodeChunk(c) + post;
    var e := EncodeChunk(c);
    assert data[|pre|..|pre| + 4] == e[..4] == Be32Bytes(|c.body|);
    Be32OfBytes(|c.body|, data, |pre|);
    var t := TypeAt(data, |pre| + 4);
    forall i | 0 <= i < 4
      ensures t[i] == c.kind[i]
    {
      assert data[|pre| + 4 + i] == e[4 + i] == c.kind[i] as int;
    }
  }

  /** The walk over encoded chunks finds tRNS exactly when a tRNS chunk precedes every IEND chunk. */
  lemma {:induction false} TrnsFromEncoded(pre: seq<Byte>, cs: seq<Chunk>)
    requires ValidChunks(cs)
    ensures TrnsFrom(pre + EncodeChunks(cs), |pre|) == TrnsBeforeIend(cs)
    decreases |cs|
  {
    if cs == [] {
      assert pre + EncodeChunks(cs) == pre;
    } else {
      var e := EncodeChunk(cs[0]);
      var rest := EncodeChunks(cs[1..]);
      assert pre + EncodeChunks(cs) == pre + e + rest;
      TrnsFromChunk(pre, cs[0], rest);
      TrnsFromEncoded(pre + e, cs[1..]);
    }
  }

  /** One step of the walk over an encoded chunk: its type decides, or the walk goes on after it. */
  lemma TrnsFromChunk(pre: seq<Byte>, c: Chunk, post: seq<Byte>)
    requires ValidChunk(c)
    ensures var data := pre + EncodeChunk(c) + post;
            TrnsFrom(data, |pre|) ==
              if c.kind == "tRNS" then true
              else if c.kind == "IEND" then false
              else TrnsFrom(data, |pre + EncodeChunk(c)|)
  {
    ChunkHeader(pre, c, post);
  }

  /** The IHDR chunk of an image: width, height, then depth, colour type, compression, filter and interlace. */
  function IhdrChunk(width: nat, height: nat, fields: seq<Byte>, crc: seq<Byte>): Chunk
    requires width < TWO_POW_32 && height < TWO_POW_32
  {
    Chunk("IHDR", Be32Bytes(width) + Be32Bytes(height) + fields, crc)
  }

  /**
   * An encoded PNG reads back: its width and height, with alpha exactly
   * when the colour type (the second IHDR field) is 4 or 6 or a tRNS chunk
   * precedes every IEND chunk.
   */
  lemma ReadPngMetadataOfEncoded(width: nat, height: nat, fields: seq<Byte>, crc: seq<Byte>, cs: seq<Chunk>)
    requires width < TWO_POW_32 && height < TWO_POW_32
    requires |fields| == 5 && |crc| == 4
    requires ValidChunks(cs)
    ensures ValidChunks([IhdrChunk(width, height, fields, crc)] + cs)
    ensures ReadPngMetadata(PNG_SIGNATURE + EncodeChunks([IhdrChunk(width, height, fields, crc)] + cs))
         == Some(PngMeta(width, height, fields[1] == 4 || fields[1] == 6 || TrnsBeforeIend(cs)))
  {
    var ihdr := IhdrChunk(width, height, fields, crc);
    var all := [ihdr] + cs;
    assert ValidChunk(ihdr);
    assert ValidChunks(all) by {
      forall k | 0 <= k < |all|
        ensures ValidChunk(all[k])
      {
        if k > 0 {
          assert all[k] == cs[k - 1];
        }
      }
    }
    assert all[1..] == cs;
    var rest := EncodeChunks(cs);
    assert PNG_SIGNATURE + EncodeChunks(all) == PNG_SIGNATURE + EncodeChunk(ihdr) + rest;
    IhdrBytes(width, height, fields, crc, rest);
    TrnsFromEncoded(PNG_SIGNATURE, all);
  }

  /** The header bytes of an encoded PNG: signature, IHDR type, width, height and colour type in place. */
  lemma IhdrBytes(width: nat, height: nat, fields: seq<Byte>, crc: seq<Byte>, rest: seq<Byte>)
    requires width < TWO_POW_32 && height < TWO_POW_32
    requires |fields| == 5 && |crc| == 4
    ensures ValidChunk(IhdrChunk(width, height, fields, crc))
    ensures var data := PNG_SIGNATURE + EncodeChunk(IhdrChunk(width, height, fields, crc)) + rest;
            && |data| > 25
            && data[..8] == PNG_SIGNATURE && data[12..16] == IHDR_BYTES
            && Be32(data, 16) == width && Be32(data, 20) == height
            && data[25] == fields[1]
  {
    var ihdr := IhdrChunk(width, height, fields, crc);
    assert ValidChunk(ihdr);
    var data := PNG_SIGNATURE + EncodeChunk(ihdr) + rest;
    ChunkHeader(PNG_SIGNATURE, ihdr, rest);
    assert data[16..20] == Be32Bytes(width);
    assert data[20..24] == Be32Bytes(height);
    Be32OfBytes(width, data, 16);
    Be32OfBytes(height, data, 20);
  }

  // ---------------------------------------------------------------------------
  // Animation metadata
  // ---------------------------------------------------------------------------

  /**
   * One frame entry of an mcmeta `frames` list: an integer is a frame shown
   * for the default time; an object gives Number(entry.index) when it is an
   * integer, with its own positive `time` or the default. Anything else
   * (including an array, which has no `index`) is skipped.
   */
  function FrameOf(entry: Json, defaultTime: int): Option<OffsetTracks.TrackFrame>
  {
    match entry
    case JNum(n) => if IsIntegral(n) then Some(OffsetTracks.TrackFrame(n.Floor, defaultTime)) else None
    case JObj(_) =>
      var index := ToNumber(Get(entry, "index"));
      if index.Some? && IsIntegral(index.value)
      then Some(OffsetTracks.TrackFrame(index.value.Floor, OffsetTracks.NormalizePositiveInt(Get(entry, "time"), defaultTime)))
      else None
    case _ => None
  }

  /** The frames the entries give, in order. */
  function FramesOf(raws: seq<Json>, defaultTime: int): seq<OffsetTracks.TrackFrame>
    decreases |raws|
  {
    if raws == [] then []
    else
      var f := FrameOf(raws[|raws| - 1], defaultTime);
      FramesOf(raws[..|raws| - 1], defaultTime) + (if f.Some? then [f.value] else [])
  }

  /** normalizeAnimationFrames: the frames of an array, none for anything else. */
  function AnimationFrames(framesRaw: Option<Json>, defaultTime: int): seq<OffsetTracks.TrackFrame>
  {
    if framesRaw.Some? && framesRaw.value.JArr? then FramesOf(framesRaw.value.items, defaultTime) else []
  }

  /** normalizeAnimationFrames as the source runs it: one pass over the entries. */
  method NormalizeAnimationFrames(framesRaw: Option<Json>, defaultTime: int) returns (out: seq<OffsetTracks.TrackFrame>)
    ensures out == AnimationFrames(framesRaw, defaultTime)
  {
    if !(framesRaw.Some? && framesRaw.value.JArr?) {
      return [];
    }
    var raws := framesRaw.value.items;
    out := [];
    for i := 0 to |raws|
      invariant out == FramesOf(raws[..i], defaultTime)
    {
      assert raws[..i + 1][..i] == raws[..i];
      var f := FrameOf(raws[i], defaultTime);
      if f.Some? {
        out := out + [f.value];
      }
    }
    assert raws[..|raws|] == raws;
  }

  /** There are no more frames than entries, and with a positive default every frame time is positive. */
  lemma {:induction false} FramesOfBounds(raws: seq<Json>, defaultTime: int)
    ensures |FramesOf(raws, defaultTime)| <= |raws|
    ensures defaultTime >= 1 ==> forall k :: 0 <= k < |FramesOf(raws, defaultTime)| ==> FramesOf(raws, defaultTime)[k].time >= 1
    decreases |raws|
  {
    if raws != [] {
      var init := raws[..|raws| - 1];
      FramesOfBounds(init, defaultTime);
      var r0 := FramesOf(init, defaultTime);
      var f := FrameOf(raws[|raws| - 1], defaultTime);
      assert forall k :: 0 <= k < |r0| ==> FramesOf(raws, defaultTime)[k] == r0[k];
      assert defaultTime >= 1 && f.Some? ==> f.value.time >= 1;
    }
  }

  /** Each frame is what some entry gives. */
  lemma {:induction false} FramesOfDrawn(raws: seq<Json>, defaultTime: int)
    ensures forall k :: 0 <= k < |FramesOf(raws, defaultTime)| ==>
              exists j :: 0 <= j < |raws| && FrameOf(raws[j], defaultTime) == Some(FramesOf(raws, defaultTime)[k])
    decreases |raws|
  {
    if raws != [] {
      var init := raws[..|raws| - 1];
      FramesOfDrawn(init, defaultTime);
      var r := FramesOf(raws, defaultTime);
      var r0 := FramesOf(init, defaultTime);
      var f := FrameOf(raws[|raws| - 1], defaultTime);
      assert r == r0 + (if f.Some? then [f.value] else []);
      forall k | 0 <= k < |r|
        ensures exists j :: 0 <= j < |raws| && FrameOf(raws[j], defaultTime) == Some(r[k])
      {
        if k < |r0| {
          var j :| 0 <= j < |init| && FrameOf(init[j], defaultTime) == Some(r0[k]);
          assert raws[j] == init[j] && r[k] == r0[k];
        } else {
          assert f == Some(r[k]);
        }
      }
    } else {
      assert FramesOf(raws, defaultTime) == [];
    }
  }

  /** A list of integers gives one frame per integer, in order, shown for the default time. */
  lemma {:induction false} FramesOfIntegers(raws: seq<Json>, defaultTime: int)
    requires forall j :: 0 <= j < |raws| ==> raws[j].JNum? && IsIntegral(raws[j].n)
    ensures |FramesOf(raws, defaultTime)| == |raws|
    ensures forall j :: 0 <= j < |raws| ==> FramesOf(raws, defaultTime)[j] == OffsetTracks.TrackFrame(raws[j].n.Floor, defaultTime)
    decreases |raws|
  {
    if raws != [] {
      var init := raws[..|raws| - 1];
      FramesOfIntegers(init, defaultTime);
    }
  }

  /** The largest frame index, from 0 as the source's reduce starts. */
  function MaxFrameIndex(frames: seq<OffsetTracks.TrackFrame>): (m: int)
    ensures m >= 0
    ensures forall k :: 0 <= k < |frames| ==> frames[k].index <= m
    ensures m == 0 || exists k :: 0 <= k < |frames| && frames[k].index == m
    decreases |frames|
  {
    if frames == [] then 0
    else
      var m := MaxFrameIndex(frames[..|frames| - 1]);
      var x := frames[|frames| - 1].index;
      if x > m then x else m
  }

  /** resolveFrameHeight: a positive explicit `height`, otherwise the image width, otherwise none. */
  function ResolveFrameHeight(raw: Json, image: Option<PngMeta>): Option<int>
  {
    var explicit := OffsetTracks.NormalizePositiveInt(Get(raw, "height"), 0);
    if explicit > 0 then Some(explicit)
    else if image.None? then None
    else Some(image.value.width)
  }

  /**
   * resolveFrameCount: one more than the largest frame index when frames
   * are listed, otherwise how many whole frames of the frame height the
   * image height holds, and none without an image or a positive height.
   */
  function ResolveFrameCount(frames: seq<OffsetTracks.TrackFrame>, frameHeight: Option<int>, image: Option<PngMeta>): Option<int>
  {
    if |frames| > 0 then Some(MaxFrameIndex(frames) + 1)
    else if image.None? || frameHeight.None? || frameHeight.value <= 0 then None
    else Some(image.value.height / frameHeight.value)
  }

  /**
   * The animation of a texture: its frame time, interpolation flag, frame
   * count, frame height, frames, and the UV transform that shows the first
   * frame: scale [1, vScale] and offset [0, vOffset].
   */
  datatype AnimationMeta = AnimationMeta(
    frameTime: int,
    interpolate: bool,
    frameCount: int,
    frameHeight: Option<int>,
    frames: seq<OffsetTracks.TrackFrame>,
    vScale: real,
    vOffset: real)

  /** The frame count an mcmeta `animation` object gives with the image it belongs to. */
  function FrameCountOf(raw: Json, image: Option<PngMeta>): Option<int>
  {
    var frameTime := OffsetTracks.NormalizePositiveInt(Get(raw, "frametime"), 1);
    ResolveFrameCount(AnimationFrames(Get(raw, "frames"), frameTime), ResolveFrameHeight(raw, image), image)
  }

  /** toAnimationMetadata: none for a non-object or a frame count of 1 or less. */
  function ToAnimationMetadata(raw: Option<Json>, image: Option<PngMeta>): Option<AnimationMeta>
  {
    if raw.None? || !(raw.value.JObj? || raw.value.JArr?) then None
    else
      var frameTime := OffsetTracks.NormalizePositiveInt(Get(raw.value, "frametime"), 1);
      var frames := AnimationFrames(Get(raw.value, "frames"), frameTime);
      var frameHeight := ResolveFrameHeight(raw.value, image);
      var frameCount := ResolveFrameCount(frames, frameHeight, image);
      if frameCount.None? || frameCount.value <= 1 then None
      else
        var first := if |frames| > 0 then OffsetTracks.ClampFrameIndex(frames[0].index, frameCount.value) else 0;
        Some(AnimationMeta(
          frameTime,
          Get(raw.value, "interpolate") == Some(JBool(true)),
          frameCount.value,
          frameHeight,
          frames,
          MaterialResolver.Clamp01(Some(1.0 / frameCount.value as real)),
          MaterialResolver.Clamp01(Some(first as real / frameCount.value as real))))
  }

  /**
   * An animation exists exactly for an object whose frame count is at
   * least 2. Its frame time is positive; listed frames fix the count at one
   * more than the largest index and the offset at the first frame (clamped
   * into range); without them the count is the image height over the frame
   * height and the offset 0. The V scale is one frame: 1 / frameCount.
   */
  lemma ToAnimationMetadataSpec(raw: Option<Json>, image: Option<PngMeta>)
    ensures var a := ToAnimationMetadata(raw, image);
            && (a.Some? <==> raw.Some? && (raw.value.JObj? || raw.value.JArr?) &&
                             FrameCountOf(raw.value, image).Some? && FrameCountOf(raw.value, image).value >= 2)
            && (a.Some? ==>
                  && a.value.frameTime >= 1
                  && a.value.frameCount == FrameCountOf(raw.value, image).value
                  && a.value.vScale == 1.0 / a.value.frameCount as real
                  && (a.value.frames != [] ==>
                        && a.value.frameCount == MaxFrameIndex(a.value.frames) + 1
                        && a.value.vOffset == OffsetTracks.ClampFrameIndex(a.value.frames[0].index, a.value.frameCount) as real / a.value.frameCount as real)
                  && (a.value.frames == [] ==>
                        && image.Some? && a.value.frameHeight.Some? && a.value.frameHeight.value > 0
                        && a.value.frameCount == image.value.height / a.value.frameHeight.value
                        && a.value.vOffset == 0.0))
  {
    if raw.Some? && (raw.value.JObj? || raw.value.JArr?) {
      var frameCount := FrameCountOf(raw.value, image);
      if frameCount.Some? && frameCount.value >= 2 {
        var fc := frameCount.value;
        var frameTime := OffsetTracks.NormalizePositiveInt(Get(raw.value, "frametime"), 1);
        var frames := AnimationFrames(Get(raw.value, "frames"), frameTime);
        var first := if |frames| > 0 then OffsetTracks.ClampFrameIndex(frames[0].index, fc) else 0;
        UnitFraction(1, fc);
        UnitFraction(first, fc);
      }
    }
  }

  /** A fraction with a positive denominator and a smaller, non-negative numerator lies in [0, 1]. */
  lemma UnitFraction(n: int, d: int)
    requires 0 <= n <= d && d >= 1
    ensures MaterialResolver.InUnit(n as real / d as real)
  {
    assert n as real / d as real <= d as real / d as real;
  }

  // ---------------------------------------------------------------------------
  // Texture metadata from the files beside the report
  // ---------------------------------------------------------------------------

  /**
   * The files beside the report, by the texture's URI: the PNG's bytes
   * (None when it cannot be read) and its `.mcmeta` file parsed (None when
   * it cannot be read or parsed).
   */
  datatype LocalFiles = LocalFiles(png: string -> Option<seq<Byte>>, mcmeta: string -> Option<Json>)

  /** An animation with the URI of the `.mcmeta` file it came from. */
  datatype TextureAnimation = TextureAnimation(meta: AnimationMeta, mcmetaUri: string)

  datatype TextureMeta = TextureMeta(hasAlpha: bool, animation: Option<TextureAnimation>)

  /**
   * loadTextureMetadata: nothing without a report directory; otherwise the
   * PNG's alpha and, when the texture has an mcmeta file that parses, its
   * animation.
   */
  function LoadTextureMetadata(texture: Json, rawUri: string, hasReportDir: bool, files: LocalFiles): TextureMeta
  {
    if !hasReportDir then TextureMeta(false, None)
    else
      var bytes := files.png(rawUri);
      var image := if bytes.Some? then ReadPngMetadata(bytes.value) else None;
      var hasAlpha := image.Some? && image.value.hasAlpha;
      var parsed := files.mcmeta(rawUri);
      if !Truthy(Get(texture, "hasMcmeta")) || parsed.None? then TextureMeta(hasAlpha, None)
      else
        var animation := ToAnimationMetadata(Get(parsed.value, "animation"), image);
        TextureMeta(hasAlpha, if animation.Some? then Some(TextureAnimation(animation.value, rawUri + ".mcmeta")) else None)
  }

  /**
   * Without a report directory there is neither alpha nor animation;
   * alpha needs a PNG that reads; an animation needs `hasMcmeta` and a
   * parsed mcmeta file, has at least two frames, and names the raw URI
   * with `.mcmeta` added.
   */
  lemma LoadTextureMetadataSpec(texture: Json, rawUri: string, hasReportDir: bool, files: LocalFiles)
    ensures var m := LoadTextureMetadata(texture, rawUri, hasReportDir, files);
            && (!hasReportDir ==> m == TextureMeta(false, None))
            && (m.hasAlpha ==> files.png(rawUri).Some? && ReadPngMetadata(files.png(rawUri).value).Some?)
            && (m.animation.Some? ==>
                  && Truthy(Get(texture, "hasMcmeta")) && files.mcmeta(rawUri).Some?
                  && m.animation.value.mcmetaUri == rawUri + ".mcmeta"
                  && m.animation.value.meta.frameCount >= 2)
  {
    var m := LoadTextureMetadata(texture, rawUri, hasReportDir, files);
    if m.animation.Some? {
      var bytes := files.png(rawUri);
      var image := if bytes.Some? then ReadPngMetadata(bytes.value) else None;
      ToAnimationMetadataSpec(Get(files.mcmeta(rawUri).value, "animation"), image);
    }
  }

  // ---------------------------------------------------------------------------
  // Maps filled in order
  // ---------------------------------------------------------------------------

  /** One write to a lookup map: a blank key or a missing value writes nothing. */
  function Put<V>(m: map<string, V>, key: string, value: Option<V>): map<string, V>
  {
    if key != "" && value.Some? then m[key := value.value] else m
  }

  /** The same, for a map that keeps the first value of each key. */
  function PutFirst<V>(m: map<string, V>, key: string, value: Option<V>): map<string, V>
  {
    if key != "" && value.Some? && key !in m then m[key := value.value] else m
  }

  /** Whether a write stores a value under `key`. */
  predicate Writes<V>(w: (string, Option<V>), key: string)
  {
    w.0 == key && key != "" && w.1.Some?
  }

  /** Writes in order, later ones replacing earlier ones. */
  function LastMap<V>(ws: seq<(string, Option<V>)>): map<string, V>
    decreases |ws|
  {
    if ws == [] then map[] else Put(LastMap(ws[..|ws| - 1]), ws[|ws| - 1].0, ws[|ws| - 1].1)
  }

  /** Writes in order, each key keeping its first value. */
  function FirstMap<V>(ws: seq<(string, Option<V>)>): map<string, V>
    decreases |ws|
  {
    if ws == [] then map[] else PutFirst(FirstMap(ws[..|ws| - 1]), ws[|ws| - 1].0, ws[|ws| - 1].1)
  }

  /** A key is present exactly when some write stores it, and holds the value of the last such write. */
  lemma {:induction false} LastMapSpec<V>(ws: seq<(string, Option<V>)>)
    ensures forall key :: key in LastMap(ws) <==> exists i :: 0 <= i < |ws| && Writes(ws[i], key)
    ensures forall i :: 0 <= i < |ws| && Writes(ws[i], ws[i].0) && (forall j :: i < j < |ws| ==> !Writes(ws[j], ws[i].0)) ==>
              ws[i].0 in LastMap(ws) && LastMap(ws)[ws[i].0] == ws[i].1.value
    decreases |ws|
  {
    if ws != [] {
      var init := ws[..|ws| - 1];
      LastMapSpec(init);
      assert forall i :: 0 <= i < |init| ==> init[i] == ws[i];
      forall key | key in LastMap(ws)
        ensures exists i :: 0 <= i < |ws| && Writes(ws[i], key)
      {
        if !Writes(ws[|ws| - 1], key) {
          assert key in LastMap(init);
          var i :| 0 <= i < |init| && Writes(init[i], key);
          assert Writes(ws[i], key);
        }
      }
    }
  }

  /** A key is present exactly when some write stores it, and holds the value of the first such write. */
  lemma {:induction false} FirstMapSpec<V>(ws: seq<(string, Option<V>)>)
    ensures forall key :: key in FirstMap(ws) <==> exists i :: 0 <= i < |ws| && Writes(ws[i], key)
    ensures forall i :: 0 <= i < |ws| && Writes(ws[i], ws[i].0) && (forall j :: 0 <= j < i ==> !Writes(ws[j], ws[i].0)) ==>
              ws[i].0 in FirstMap(ws) && FirstMap(ws)[ws[i].0] == ws[i].1.value
    decreases |ws|
  {
    if ws != [] {
      var init := ws[..|ws| - 1];
      FirstMapSpec(init);
      assert forall i :: 0 <= i < |init| ==> init[i] == ws[i];
      forall key | key in FirstMap(ws)
        ensures exists i :: 0 <= i < |ws| && Writes(ws[i], key)
      {
        if key !in FirstMap(init) {
          assert Writes(ws[|ws| - 1], key);
        } else {
          var i :| 0 <= i < |init| && Writes(init[i], key);
          assert Writes(ws[i], key);
        }
      }
      forall i | 0 <= i < |ws| && Writes(ws[i], ws[i].0) && (forall j :: 0 <= j < i ==> !Writes(ws[j], ws[i].0))
        ensures ws[i].0 in FirstMap(ws) && FirstMap(ws)[ws[i].0] == ws[i].1.value
      {
        if i == |ws| - 1 {
          assert forall j :: 0 <= j < |init| ==> !Writes(init[j], ws[i].0);
        }
      }
    }
  }

  /** The same writes list with one more write. */
  lemma LastMapSnoc<V>(ws: seq<(string, Option<V>)>, w: (string, Option<V>))
    ensures LastMap(ws + [w]) == Put(LastMap(ws), w.0, w.1)
    ensures FirstMap(ws + [w]) == PutFirst(FirstMap(ws), w.0, w.1)
  {
    assert (ws + [w])[..|ws|] == ws;
  }

  // ---------------------------------------------------------------------------
  // The lookup
  // ---------------------------------------------------------------------------

  datatype LookupOptions = LookupOptions(uriPrefix: Option<Json>, reportPath: Option<Json>)

  /** What the texture pass keeps of an indexed texture: its id, its raw URI and its metadata. */
  datatype IndexedTexture = IndexedTexture(id: string, uri: string, meta: TextureMeta)

  /**
   * A texture entry is indexed when `exported` is exactly true and its id
   * and URI are not blank; its metadata is loaded under the raw URI.
   */
  function IndexedOf(texture: Json, hasReportDir: bool, files: LocalFiles): (e: Option<IndexedTexture>)
    ensures e.Some? ==> e.value.id != "" && e.value.uri != ""
  {
    var id := TrimmedText(Get(texture, "id"));
    var uri := TrimmedText(Get(texture, "uri"));
    if Get(texture, "exported") != Some(JBool(true)) || id == "" || uri == "" then None
    else Some(IndexedTexture(id, uri, LoadTextureMetadata(texture, uri, hasReportDir, files)))
  }

  function IndexedTextures(ts: seq<Json>, hasReportDir: bool, files: LocalFiles): (es: seq<Option<IndexedTexture>>)
    ensures |es| == |ts|
    ensures forall k :: 0 <= k < |es| && es[k].Some? ==> es[k].value.id != "" && es[k].value.uri != ""
    decreases |ts|
  {
    if ts == [] then [] else IndexedTextures(ts[..|ts| - 1], hasReportDir, files) + [IndexedOf(ts[|ts| - 1], hasReportDir, files)]
  }

  /** The write of a texture to byTextureId: its id and its URI after the prefix. */
  function TextureIdWrite(e: Option<IndexedTexture>, prefix: string): (string, Option<string>)
  {
    if e.Some? then (e.value.id, Some(prefix + e.value.uri)) else ("", None)
  }

  /** The write of a texture to alphaByTextureUri: true under its resolved URI when its PNG has alpha. */
  function AlphaWrite(e: Option<IndexedTexture>, prefix: string): (string, Option<bool>)
  {
    if e.Some? && e.value.meta.hasAlpha then (prefix + e.value.uri, Some(true)) else ("", None)
  }

  /** The write of a texture to animationByTextureUri: its animation, if any, under its resolved URI. */
  function AnimationWrite(e: Option<IndexedTexture>, prefix: string): (string, Option<TextureAnimation>)
  {
    if e.Some? then (prefix + e.value.uri, e.value.meta.animation) else ("", None)
  }

  function TextureIdWrites(es: seq<Option<IndexedTexture>>, prefix: string): (ws: seq<(string, Option<string>)>)
    ensures |ws| == |es|
  {
    seq(|es|, k requires 0 <= k < |es| => TextureIdWrite(es[k], prefix))
  }

  function AlphaWrites(es: seq<Option<IndexedTexture>>, prefix: string): (ws: seq<(string, Option<bool>)>)
    ensures |ws| == |es|
  {
    seq(|es|, k requires 0 <= k < |es| => AlphaWrite(es[k], prefix))
  }

  function AnimationWrites(es: seq<Option<IndexedTexture>>, prefix: string): (ws: seq<(string, Option<TextureAnimation>)>)
    ensures |ws| == |es|
  {
    seq(|es|, k requires 0 <= k < |es| => AnimationWrite(es[k], prefix))
  }

  /** firstResolvedUri: the URI of the first non-blank texture id found in byTextureId. */
  function FirstUri(textureIds: seq<Json>, byTextureId: map<string, string>): Option<string>
    decreases |textureIds|
  {
    if textureIds == [] then None
    else
      var id := TrimmedText(Some(textureIds[0]));
      if id != "" && id in byTextureId && byTextureId[id] != "" then Some(byTextureId[id])
      else FirstUri(textureIds[1..], byTextureId)
  }

  /** Whether a texture id resolves to a URI in byTextureId. */
  predicate Resolves(idRaw: Json, byTextureId: map<string, string>)
  {
    var id := TrimmedText(Some(idRaw));
    id != "" && id in byTextureId && byTextureId[id] != ""
  }

  /** The URI found is that of the first id that resolves; none when no id does. */
  lemma {:induction false} FirstUriSpec(textureIds: seq<Json>, byTextureId: map<string, string>)
    ensures FirstUri(textureIds, byTextureId).None? <==> forall k :: 0 <= k < |textureIds| ==> !Resolves(textureIds[k], byTextureId)
    ensures FirstUri(textureIds, byTextureId).Some? ==>
              exists k :: 0 <= k < |textureIds| && Resolves(textureIds[k], byTextureId) &&
                (forall j :: 0 <= j < k ==> !Resolves(textureIds[j], byTextureId)) &&
                FirstUri(textureIds, byTextureId).value == byTextureId[TrimmedText(Some(textureIds[k]))]
    decreases |textureIds|
  {
    if textureIds != [] {
      var tail := textureIds[1..];
      FirstUriSpec(tail, byTextureId);
      assert forall k :: 0 <= k < |tail| ==> tail[k] == textureIds[k + 1];
      if !Resolves(textureIds[0], byTextureId) && FirstUri(tail, byTextureId).Some? {
        var k :| 0 <= k < |tail| && Resolves(tail[k], byTextureId) &&
                 (forall j :: 0 <= j < k ==> !Resolves(tail[j], byTextureId)) &&
                 FirstUri(tail, byTextureId).value == byTextureId[TrimmedText(Some(tail[k]))];
        assert Resolves(textureIds[k + 1], byTextureId);
        forall j | 0 <= j < k + 1
          ensures !Resolves(textureIds[j], byTextureId)
        {
          if j > 0 {
            assert textureIds[j] == tail[j - 1];
          }
        }
      }
      if forall k :: 0 <= k < |textureIds| ==> !Resolves(textureIds[k], byTextureId) {
        assert !Resolves(textureIds[0], byTextureId);
      }
    }
  }

  /** firstResolvedUri as the source runs it: a pass over the ids that returns at the first hit. */
  method FirstResolvedUri(textureIds: seq<Json>, byTextureId: map<string, string>) returns (uri: Option<string>)
    ensures uri == FirstUri(textureIds, byTextureId)
  {
    for i := 0 to |textureIds|
      invariant FirstUri(textureIds, byTextureId) == FirstUri(textureIds[i..], byTextureId)
    {
      assert textureIds[i..][1..] == textureIds[i + 1..];
      var id := TrimmedText(Some(textureIds[i]));
      if id != "" && id in byTextureId && byTextureId[id] != "" {
        return Some(byTextureId[id]);
      }
    }
    return None;
  }

  /** The texture ids of a block entry: its `textureIds` array, or none. */
  function TextureIdsOf(block: Json): seq<Json>
  {
    var ids := Get(block, "textureIds");
    if ids.Some? && ids.value.JArr? then ids.value.items else []
  }

  /** What a block entry contributes: its raw and canonical states, its block id, and a value (a URI or a tint). */
  datatype Keyed<V> = Keyed(rawState: string, canonicalState: string, blockId: string, value: Option<V>)

  function UriEntry(block: Json, byTextureId: map<string, string>): Keyed<string>
  {
    Keyed(TrimmedText(Get(block, "blockState")), TrimmedText(Get(block, "canonicalState")), TrimmedText(Get(block, "blockId")),
          FirstUri(TextureIdsOf(block), byTextureId))
  }

  function TintEntry(block: Json): Keyed<int>
  {
    Keyed(TrimmedText(Get(block, "blockState")), TrimmedText(Get(block, "canonicalState")), TrimmedText(Get(block, "blockId")),
          NormalizeTintColor(Get(block, "tintColor")))
  }

  function UriEntries(blocks: seq<Json>, byTextureId: map<string, string>): (es: seq<Keyed<string>>)
    ensures |es| == |blocks|
  {
    seq(|blocks|, k requires 0 <= k < |blocks| => UriEntry(blocks[k], byTextureId))
  }

  function TintEntries(blocks: seq<Json>): (es: seq<Keyed<int>>)
    ensures |es| == |blocks|
  {
    seq(|blocks|, k requires 0 <= k < |blocks| => TintEntry(blocks[k]))
  }

  /** A block-state map: each entry writes its raw state, then its canonical state; later entries replace earlier ones. */
  function StateMap<V>(es: seq<Keyed<V>>): map<string, V>
    decreases |es|
  {
    if es == [] then map[]
    else
      var e := es[|es| - 1];
      Put(Put(StateMap(es[..|es| - 1]), e.rawState, e.value), e.canonicalState, e.value)
  }

  /** A block-id map: each key keeps the first value written. */
  function IdMap<V>(es: seq<Keyed<V>>): map<string, V>
    decreases |es|
  {
    if es == [] then map[] else PutFirst(IdMap(es[..|es| - 1]), es[|es| - 1].blockId, es[|es| - 1].value)
  }

  /** Whether an entry stores its value under `key` in a block-state map. */
  predicate NamesState<V>(e: Keyed<V>, key: string)
  {
    key != "" && e.value.Some? && (e.rawState == key || e.canonicalState == key)
  }

  /** Whether an entry stores its value under `key` in a block-id map. */
  predicate NamesId<V>(e: Keyed<V>, key: string)
  {
    key != "" && e.value.Some? && e.blockId == key
  }

  /** A state is present exactly when some entry with a value names it as its raw or canonical state. */
  lemma {:induction false} StateMapKeys<V>(es: seq<Keyed<V>>)
    ensures forall key :: key in StateMap(es) <==> exists k :: 0 <= k < |es| && NamesState(es[k], key)
    decreases |es|
  {
    if es != [] {
      var init := es[..|es| - 1];
      StateMapKeys(init);
      forall key
        ensures key in StateMap(es) <==> exists k :: 0 <= k < |es| && NamesState(es[k], key)
      {
        if NamesState(es[|es| - 1], key) {
          assert key in StateMap(es);
        } else {
          assert key in StateMap(es) <==> key in StateMap(init);
          if key in StateMap(init) {
            var k :| 0 <= k < |init| && NamesState(init[k], key);
            assert es[k] == init[k];
          }
          if exists k :: 0 <= k < |es| && NamesState(es[k], key) {
            var k :| 0 <= k < |es| && NamesState(es[k], key);
            assert init[k] == es[k];
          }
        }
      }
    }
  }

  /** A state holds the value of the last entry with a value that names it. */
  lemma {:induction false} StateMapValues<V>(es: seq<Keyed<V>>, k: nat, key: string)
    requires k < |es| && NamesState(es[k], key)
    requires forall j :: k < j < |es| ==> !NamesState(es[j], key)
    ensures key in StateMap(es) && StateMap(es)[key] == es[k].value.value
    decreases |es|
  {
    var init := es[..|es| - 1];
    if k < |es| - 1 {
      assert forall j :: k < j < |init| ==> init[j] == es[j];
      StateMapValues(init, k, key);
    }
  }

  /** A block id is present exactly when some entry with a value has it, and holds the value of the first such entry. */
  lemma {:induction false} IdMapSpec<V>(es: seq<Keyed<V>>)
    ensures forall key :: key in IdMap(es) <==> exists k :: 0 <= k < |es| && NamesId(es[k], key)
    ensures forall k, key :: 0 <= k < |es| && NamesId(es[k], key) && (forall j :: 0 <= j < k ==> !NamesId(es[j], key)) ==>
              key in IdMap(es) && IdMap(es)[key] == es[k].value.value
    decreases |es|
  {
    if es != [] {
      var init := es[..|es| - 1];
      IdMapSpec(init);
      assert forall k :: 0 <= k < |init| ==> init[k] == es[k];
      forall key | key in IdMap(es)
        ensures exists k :: 0 <= k < |es| && NamesId(es[k], key)
      {
        if key !in IdMap(init) {
          assert NamesId(es[|es| - 1], key);
        } else {
          var k :| 0 <= k < |init| && NamesId(init[k], key);
          assert NamesId(es[k], key);
        }
      }
      forall k, key | 0 <= k < |es| && NamesId(es[k], key) && (forall j :: 0 <= j < k ==> !NamesId(es[j], key))
        ensures key in IdMap(es) && IdMap(es)[key] == es[k].value.value
      {
        if k == |es| - 1 {
          assert forall j :: 0 <= j < |init| ==> !NamesId(init[j], key);
        }
      }
    }
  }

  /** The lookup the report gives. */
  datatype TextureLookup = TextureLookup(
    byBlockState: map<string, string>,
    byBlockId: map<string, string>,
    animationByTextureUri: map<string, TextureAnimation>,
    alphaByTextureUri: map<string, bool>,
    tintByBlockState: map<string, int>,
    tintByBlockId: map<string, int>)

  /** Whether the options name a report path, which locates the texture files. */
  predicate HasReportDir(options: LookupOptions)
  {
    TrimmedText(options.reportPath) != ""
  }

  /** The lookup of a report: the texture pass, then the block-state pass over its results. */
  function TextureLookupOf(report: Option<Json>, options: LookupOptions, files: LocalFiles): Result<TextureLookup, IterError>
  {
    var textures := Iterated(GetOpt(report, "textures"));
    var blocks := Iterated(GetOpt(report, "blockStates"));
    if textures.Err? || blocks.Err? then Err(NotIterable)
    else
      var prefix := NormalizeUriPrefix(options.uriPrefix);
      var hasDir := HasReportDir(options);
      var es := IndexedTextures(textures.value, hasDir, files);
      var bs := blocks.value;
      var byTextureId := LastMap(TextureIdWrites(es, prefix));
      Ok(TextureLookup(
        StateMap(UriEntries(bs, byTextureId)),
        IdMap(UriEntries(bs, byTextureId)),
        LastMap(AnimationWrites(es, prefix)),
        LastMap(AlphaWrites(es, prefix)),
        StateMap(TintEntries(bs)),
        IdMap(TintEntries(bs))))
  }

  /** The maps of the texture pass after one more texture, given what the pass keeps of it. */
  method IndexTexture(
    byTextureId: map<string, string>, alpha: map<string, bool>, animations: map<string, TextureAnimation>,
    indexed: Option<IndexedTexture>, prefix: string)
    returns (byTextureId': map<string, string>, alpha': map<string, bool>, animations': map<string, TextureAnimation>)
    requires indexed.Some? ==> indexed.value.id != "" && indexed.value.uri != ""
    ensures byTextureId' == Put(byTextureId, TextureIdWrite(indexed, prefix).0, TextureIdWrite(indexed, prefix).1)
    ensures alpha' == Put(alpha, AlphaWrite(indexed, prefix).0, AlphaWrite(indexed, prefix).1)
    ensures animations' == Put(animations, AnimationWrite(indexed, prefix).0, AnimationWrite(indexed, prefix).1)
  {
    byTextureId', alpha', animations' := byTextureId, alpha, animations;
    if indexed.None? {
      return;
    }
    var resolvedUri := prefix + indexed.value.uri;
    byTextureId' := byTextureId'[indexed.value.id := resolvedUri];
    if indexed.value.meta.hasAlpha {
      alpha' := alpha'[resolvedUri := true];
    }
    if indexed.value.meta.animation.Some? {
      animations' := animations'[resolvedUri := indexed.value.meta.animation.value];
    }
  }

  /** The texture pass: byTextureId, alpha and animations over all textures. */
  method IndexTextures(ts: seq<Json>, prefix: string, hasDir: bool, files: LocalFiles)
    returns (byTextureId: map<string, string>, alpha: map<string, bool>, animations: map<string, TextureAnimation>)
    ensures var es := IndexedTextures(ts, hasDir, files);
            && byTextureId == LastMap(TextureIdWrites(es, prefix))
            && alpha == LastMap(AlphaWrites(es, prefix))
            && animations == LastMap(AnimationWrites(es, prefix))
  {
    byTextureId, alpha, animations := map[], map[], map[];
    ghost var es: seq<Option<IndexedTexture>> := [];
    for i := 0 to |ts|
      invariant es == IndexedTextures(ts[..i], hasDir, files)
      invariant byTextureId == LastMap(TextureIdWrites(es, prefix))
      invariant alpha == LastMap(AlphaWrites(es, prefix))
      invariant animations == LastMap(AnimationWrites(es, prefix))
    {
      var indexed := IndexedOf(ts[i], hasDir, files);
      TextureWritesSnoc(es, indexed, prefix);
      IndexedTexturesSnoc(ts, i, hasDir, files);
      byTextureId, alpha, animations := IndexTexture(byTextureId, alpha, animations, indexed, prefix);
      es := es + [indexed];
    }
    assert ts[..|ts|] == ts;
  }

  lemma IndexedTexturesSnoc(ts: seq<Json>, i: nat, hasDir: bool, files: LocalFiles)
    requires i < |ts|
    ensures IndexedTextures(ts[..i + 1], hasDir, files) == IndexedTextures(ts[..i], hasDir, files) + [IndexedOf(ts[i], hasDir, files)]
  {
    assert ts[..i + 1][..i] == ts[..i];
  }

  lemma TextureWritesSnoc(es: seq<Option<IndexedTexture>>, e: Option<IndexedTexture>, prefix: string)
    ensures LastMap(TextureIdWrites(es + [e], prefix)) == Put(LastMap(TextureIdWrites(es, prefix)), TextureIdWrite(e, prefix).0, TextureIdWrite(e, prefix).1)
    ensures LastMap(AlphaWrites(es + [e], prefix)) == Put(LastMap(AlphaWrites(es, prefix)), AlphaWrite(e, prefix).0, AlphaWrite(e, prefix).1)
    ensures LastMap(AnimationWrites(es + [e], prefix)) == Put(LastMap(AnimationWrites(es, prefix)), AnimationWrite(e, prefix).0, AnimationWrite(e, prefix).1)
  {
    assert TextureIdWrites(es + [e], prefix) == TextureIdWrites(es, prefix) + [TextureIdWrite(e, prefix)];
    assert AlphaWrites(es + [e], prefix) == AlphaWrites(es, prefix) + [AlphaWrite(e, prefix)];
    assert AnimationWrites(es + [e], prefix) == AnimationWrites(es, prefix) + [AnimationWrite(e, prefix)];
    LastMapSnoc(TextureIdWrites(es, prefix), TextureIdWrite(e, prefix));
    LastMapSnoc(AlphaWrites(es, prefix), AlphaWrite(e, prefix));
    LastMapSnoc(AnimationWrites(es, prefix), AnimationWrite(e, prefix));
  }

  /** The four block maps after one more block entry. */
  datatype BlockMaps = BlockMaps(
    byBlockState: map<string, string>, byBlockId: map<string, string>,
    tintByBlockState: map<string, int>, tintByBlockId: map<string, int>)

  function BlockMapsOf(bs: seq<Json>, byTextureId: map<string, string>): BlockMaps
  {
    BlockMaps(StateMap(UriEntries(bs, byTextureId)), IdMap(UriEntries(bs, byTextureId)), StateMap(TintEntries(bs)), IdMap(TintEntries(bs)))
  }

  /** One pass of the block-state loop. */
  method IndexBlock(maps: BlockMaps, block: Json, byTextureId: map<string, string>) returns (maps': BlockMaps)
    ensures var u := UriEntry(block, byTextureId);
            var t := TintEntry(block);
            maps' == BlockMaps(
              Put(Put(maps.byBlockState, u.rawState, u.value), u.canonicalState, u.value),
              PutFirst(maps.byBlockId, u.blockId, u.value),
              Put(Put(maps.tintByBlockState, t.rawState, t.value), t.canonicalState, t.value),
              PutFirst(maps.tintByBlockId, t.blockId, t.value))
  {
    var uri := FirstResolvedUri(TextureIdsOf(block), byTextureId);
    var rawState := TrimmedText(Get(block, "blockState"));
    var canonicalState := TrimmedText(Get(block, "canonicalState"));
    var blockId := TrimmedText(Get(block, "blockId"));
    var tintColor := NormalizeTintColor(Get(block, "tintColor"));
    maps' := maps;
    if uri.Some? {
      if rawState != "" {
        maps' := maps'.(byBlockState := maps'.byBlockState[rawState := uri.value]);
      }
      if canonicalState != "" {
        maps' := maps'.(byBlockState := maps'.byBlockState[canonicalState := uri.value]);
      }
      if blockId != "" && blockId !in maps'.byBlockId {
        maps' := maps'.(byBlockId := maps'.byBlockId[blockId := uri.value]);
      }
    }
    if tintColor.Some? {
      if rawState != "" {
        maps' := maps'.(tintByBlockState := maps'.tintByBlockState[rawState := tintColor.value]);
      }
      if canonicalState != "" {
        maps' := maps'.(tintByBlockState := maps'.tintByBlockState[canonicalState := tintColor.value]);
      }
      if blockId != "" && blockId !in maps'.tintByBlockId {
        maps' := maps'.(tintByBlockId := maps'.tintByBlockId[blockId := tintColor.value]);
      }
    }
  }

  lemma BlockMapsSnoc(bs: seq<Json>, i: nat, byTextureId: map<string, string>)
    requires i < |bs|
    ensures var m := BlockMapsOf(bs[..i], byTextureId);
            var u := UriEntry(bs[i], byTextureId);
            var t := TintEntry(bs[i]);
            BlockMapsOf(bs[..i + 1], byTextureId) == BlockMaps(
              Put(Put(m.byBlockState, u.rawState, u.value), u.canonicalState, u.value),
              PutFirst(m.byBlockId, u.blockId, u.value),
              Put(Put(m.tintByBlockState, t.rawState, t.value), t.canonicalState, t.value),
              PutFirst(m.tintByBlockId, t.blockId, t.value))
  {
    var us := UriEntries(bs[..i + 1], byTextureId);
    var ts := TintEntries(bs[..i + 1]);
    assert us[..i] == UriEntries(bs[..i], byTextureId);
    assert ts[..i] == TintEntries(bs[..i]);
    assert us[i] == UriEntry(bs[i], byTextureId);
    assert ts[i] == TintEntry(bs[i]);
  }

  /** The block-state pass over all blocks. */
  method IndexBlocks(bs: seq<Json>, byTextureId: map<string, string>) returns (maps: BlockMaps)
    ensures maps == BlockMapsOf(bs, byTextureId)
  {
    maps := BlockMaps(map[], map[], map[], map[]);
    for i := 0 to |bs|
      invariant maps == BlockMapsOf(bs[..i], byTextureId)
    {
      BlockMapsSnoc(bs, i, byTextureId);
      maps := IndexBlock(maps, bs[i], byTextureId);
    }
    assert bs[..|bs|] == bs;
  }

  /**
   * buildTextureLookupFromExportReport: the texture pass indexes exported
   * textures by id, alpha and animation; the block-state pass maps each
   * block's states and id to its first resolved URI and its tint. A
   * `textures` or `blockStates` value that cannot be iterated throws.
   */
  method BuildTextureLookupFromExportReport(report: Option<Json>, options: LookupOptions, files: LocalFiles)
    returns (r: Result<TextureLookup, IterError>)
    ensures r == TextureLookupOf(report, options, files)
  {
    var prefix := NormalizeUriPrefix(options.uriPrefix);
    var hasDir := HasReportDir(options);
    var textures := Iterated(GetOpt(report, "textures"));
    if textures.Err? {
      return Err(NotIterable);
    }
    var byTextureId, alpha, animations := IndexTextures(textures.value, prefix, hasDir, files);
    var blocks := Iterated(GetOpt(report, "blockStates"));
    if blocks.Err? {
      return Err(NotIterable);
    }
    var maps := IndexBlocks(blocks.value, byTextureId);
    r := Ok(TextureLookup(maps.byBlockState, maps.byBlockId, animations, alpha, maps.tintByBlockState, maps.tintByBlockId));
  }

  /**
   * The texture pass indexes exactly the indexed textures: an id is
   * present when some indexed texture has it, and maps to the prefix
   * followed by the URI of the last one.
   */
  lemma TextureIdsSpec(es: seq<Option<IndexedTexture>>, prefix: string)
    requires forall k :: 0 <= k < |es| && es[k].Some? ==> es[k].value.id != ""
    ensures var m := LastMap(TextureIdWrites(es, prefix));
            && (forall id :: id in m <==> exists k :: 0 <= k < |es| && es[k].Some? && es[k].value.id == id)
            && (forall k :: (0 <= k < |es| && es[k].Some? &&
                  (forall j :: k < j < |es| && es[j].Some? ==> es[j].value.id != es[k].value.id)) ==>
                  es[k].value.id in m && m[es[k].value.id] == prefix + es[k].value.uri)
  {
    var ws := TextureIdWrites(es, prefix);
    assert forall k, id :: 0 <= k < |es| ==> (Writes(ws[k], id) <==> es[k].Some? && es[k].value.id == id);
    LastMapSpec(ws);
    forall id
      ensures id in LastMap(ws) <==> exists k :: 0 <= k < |es| && es[k].Some? && es[k].value.id == id
    {
      if id in LastMap(ws) {
        var k :| 0 <= k < |ws| && Writes(ws[k], id);
      }
      if exists k :: 0 <= k < |es| && es[k].Some? && es[k].value.id == id {
        var k :| 0 <= k < |es| && es[k].Some? && es[k].value.id == id;
        assert Writes(ws[k], id);
      }
    }
    forall k | 0 <= k < |es| && es[k].Some? && (forall j :: k < j < |es| && es[j].Some? ==> es[j].value.id != es[k].value.id)
      ensures es[k].value.id in LastMap(ws) && LastMap(ws)[es[k].value.id] == prefix + es[k].value.uri
    {
      assert Writes(ws[k], ws[k].0);
      assert forall j :: k < j < |ws| ==> !Writes(ws[j], ws[k].0);
    }
  }

  /** A URI has alpha only when an indexed texture with that URI has a PNG with alpha, and then it is true. */
  lemma AlphaSpec(es: seq<Option<IndexedTexture>>, prefix: string)
    ensures var a := LastMap(AlphaWrites(es, prefix));
            forall uri :: uri in a ==> (a[uri] &&
              exists k :: 0 <= k < |es| && es[k].Some? && prefix + es[k].value.uri == uri && es[k].value.meta.hasAlpha)
  {
    var aw := AlphaWrites(es, prefix);
    LastMapSpec(aw);
    AlphaTrue(aw);
    forall uri | uri in LastMap(aw)
      ensures exists k :: 0 <= k < |es| && es[k].Some? && prefix + es[k].value.uri == uri && es[k].value.meta.hasAlpha
    {
      var k :| 0 <= k < |aw| && Writes(aw[k], uri);
      assert aw[k] == AlphaWrite(es[k], prefix);
    }
  }

  /** Every value of the alpha map is true. */
  lemma {:induction false} AlphaTrue(ws: seq<(string, Option<bool>)>)
    requires forall k :: 0 <= k < |ws| ==> ws[k].1 != Some(false)
    ensures forall uri :: uri in LastMap(ws) ==> LastMap(ws)[uri]
    decreases |ws|
  {
    if ws != [] {
      AlphaTrue(ws[..|ws| - 1]);
    }
  }
}
