/**
 * The decisions of the first compressor, Compressor.kt at the library's root: the step
 * function for the new bitrate, the fixed size bands, the track search, the thresholds under
 * which a video is left alone, the rotation swap, and the split of the encoder's codec-specific
 * data into its SPS and PPS parts at the last start code.
 */
module LegacyCompressor {
  import opened Jvm
  import opened Wrappers
  import opened Bytes
  import opened Decimal
  import opened NumbersUtils
  import CompressorUtils
  import Compressor

  const MIN_BITRATE: int := 2000000
  const MIN_HEIGHT: int := 640
  const MIN_WIDTH: int := 360

  /** getBitrate: a fixed new bitrate for each band of the source bitrate. */
  function GetBitrate(bitrate: int): (r: int)
  {
    if bitrate >= 15000000 then 2000000
    else if bitrate >= 8000000 then 1500000
    else if bitrate >= 4000000 then 1000000
    else 750000
  }

  /**
   * The new bitrate is one of four values, grows with the source bitrate, and is below every
   * source bitrate that passes the 2 Mbps threshold.
   */
  lemma GetBitrateSteps(b1: int, b2: int)
    ensures GetBitrate(b1) in {750000, 1000000, 1500000, 2000000}
    ensures b1 <= b2 ==> GetBitrate(b1) <= GetBitrate(b2)
    ensures b1 > MIN_BITRATE ==> GetBitrate(b1) < b1
  {
  }

  /**
   * generateWidthAndHeight: half of each side (truncated) from 1920 pixels on, three quarters
   * from 1280 on, a fixed 640 by 360 from 960 on, and the source size below that.
   */
  function GenerateWidthAndHeight(width: int, height: int): (r: (int, int))
  {
    if width >= 1920 || height >= 1920 then
      (TruncateToInt(width as real * 0.5), TruncateToInt(height as real * 0.5))
    else if width >= 1280 || height >= 1280 then
      (TruncateToInt(width as real * 0.75), TruncateToInt(height as real * 0.75))
    else if width >= 960 || height >= 960 then
      (MIN_HEIGHT, MIN_WIDTH)
    else
      (width, height)
  }

  /** Truncating half of a non-negative Int is integer division by 2. */
  lemma {:induction false} TruncateHalf(x: int)
    requires IsInt(x) && x >= 0
    ensures TruncateToInt(x as real * 0.5) == x / 2
  {
    var q, m := x / 2, x % 2;
    assert x as real * 0.5 == q as real + m as real * 0.5;
    assert (x as real * 0.5).Floor == q;
  }

  /** Truncating three quarters of a non-negative Int is integer division of 3x by 4. */
  lemma {:induction false} TruncateThreeQuarters(x: int)
    requires IsInt(x) && x >= 0
    ensures TruncateToInt(x as real * 0.75) == (x * 3) / 4
  {
    var q, m := (x * 3) / 4, (x * 3) % 4;
    assert x * 3 == q * 4 + m;
    assert x as real * 0.75 == (x * 3) as real * 0.25;
    assert (x * 3) as real * 0.25 == q as real + m as real * 0.25;
    assert (x as real * 0.75).Floor == q;
  }

  /**
   * For Int sides, the bands in integer terms: halves and three quarters rounded down, the
   * fixed 640 by 360, or the source size; in the scaled bands no side grows.
   */
  lemma {:induction false} GenerateWidthAndHeightBands(width: int, height: int)
    requires IsInt(width) && IsInt(height) && width >= 0 && height >= 0
    ensures var r := GenerateWidthAndHeight(width, height);
      ((width >= 1920 || height >= 1920) ==> r == (width / 2, height / 2))
      && (!(width >= 1920 || height >= 1920) && (width >= 1280 || height >= 1280) ==>
            r == ((width * 3) / 4, (height * 3) / 4))
      && (width < 1280 && height < 1280 ==> r == (MIN_HEIGHT, MIN_WIDTH) || r == (width, height))
      && ((width >= 1280 || height >= 1280) ==> r.0 <= width && r.1 <= height)
  {
    TruncateHalf(width);
    TruncateHalf(height);
    TruncateThreeQuarters(width);
    TruncateThreeQuarters(height);
  }

  /**
   * selectTrack: the index of the first track whose mime type starts with "video/" (or
   * "audio/"), -5 when there is none; a track without a mime type throws.
   */
  method SelectTrack(mimes: seq<Option<string>>, isVideo: bool) returns (r: Result<int, string>)
    ensures r == CompressorUtils.FindTrack(mimes, isVideo)
  {
    var prefix := CompressorUtils.KindPrefix(isVideo);
    var i := 0;
    while i < |mimes|
      invariant 0 <= i <= |mimes|
      invariant CompressorUtils.FindTrackFrom(mimes, prefix, i) == CompressorUtils.FindTrack(mimes, isVideo)
    {
      var mime := mimes[i];
      if mime.None? {
        return Err(CompressorUtils.NULL_POINTER_EXCEPTION);
      }
      if CompressorUtils.StartsWith(mime.value, prefix) {
        return Ok(i);
      }
      i := i + 1;
    }
    return Ok(CompressorUtils.NO_TRACK);
  }

  /** A metadata value read with `.toInt()` on a platform string: a null throws. */
  function MetadataInt(data: Option<string>): (r: Result<int, string>)
  {
    if data.None? then Err(CompressorUtils.NULL_POINTER_EXCEPTION) else ToInt(data.value)
  }

  /** A metadata value read with `.toLong()` on a platform string: a null throws. */
  function MetadataLong(data: Option<string>): (r: Result<int, string>)
  {
    if data.None? then Err(CompressorUtils.NULL_POINTER_EXCEPTION) else ToLong(data.value)
  }

  /** What compressVideo does once the metadata is read: leave the video alone, or transcode. */
  datatype Decision =
    | NotCompressed
    | Compressed(width: int, height: int, bitrate: int, durationUs: int, rotation: int)

  /**
   * compressVideo's decisions, `true` being Compressed: Err is an exception it throws while
   * reading the metadata, `canRead` whether the source file is readable.
   */
  function CompressVideo(meta: Compressor.Metadata, canRead: bool): (r: Result<Decision, string>)
  {
    var heightR := MetadataInt(meta.height);
    if heightR.Err? then Err(heightR.error) else
    var widthR := MetadataInt(meta.width);
    if widthR.Err? then Err(widthR.error) else
    var rotationR := MetadataInt(meta.rotation);
    if rotationR.Err? then Err(rotationR.error) else
    var bitrateR := MetadataInt(meta.bitrate);
    if bitrateR.Err? then Err(bitrateR.error) else
    var durationR := MetadataLong(meta.duration);
    if durationR.Err? then Err(durationR.error) else
    var width, height, bitrate := widthR.value, heightR.value, bitrateR.value;
    if bitrate <= MIN_BITRATE || height <= MIN_HEIGHT || width <= MIN_WIDTH then Ok(NotCompressed) else
    var newBitrate := GetBitrate(bitrate);
    var size := GenerateWidthAndHeight(width, height);
    var rotated := Compressor.RotateDimensions(rotationR.value, size.0, size.1);
    if !canRead then Ok(NotCompressed)
    else if rotated.1 == 0 || rotated.2 == 0 then Ok(NotCompressed)
    else if rotated.1 != width || rotated.2 != height then
      Ok(Compressed(rotated.1, rotated.2, newBitrate, Wrap64(durationR.value * 1000), rotated.0))
    else Ok(NotCompressed)
  }

  /** Whether every metadata value is present and parses. */
  predicate MetadataParses(meta: Compressor.Metadata)
  {
    MetadataInt(meta.height).Ok? && MetadataInt(meta.width).Ok? && MetadataInt(meta.rotation).Ok?
    && MetadataInt(meta.bitrate).Ok? && MetadataLong(meta.duration).Ok?
  }

  /** Videos at or under 2 Mbps, 640 pixels high or 360 pixels wide are left alone. */
  lemma CompressVideoThresholds(meta: Compressor.Metadata, canRead: bool)
    requires MetadataParses(meta)
    requires MetadataInt(meta.bitrate).value <= MIN_BITRATE || MetadataInt(meta.height).value <= MIN_HEIGHT
             || MetadataInt(meta.width).value <= MIN_WIDTH
    ensures CompressVideo(meta, canRead) == Ok(NotCompressed)
  {
  }

  /**
   * A compressed video passed the thresholds and was readable; its new size differs from the
   * source's and has no zero side, its bitrate is the step function's and lower than the
   * source's, and no quarter or half turn is left in its rotation.
   */
  lemma {:induction false} CompressVideoCompressed(meta: Compressor.Metadata, canRead: bool)
    requires CompressVideo(meta, canRead).Ok? && CompressVideo(meta, canRead).value.Compressed?
    ensures MetadataParses(meta) && canRead
    ensures var d := CompressVideo(meta, canRead).value;
      var width, height, bitrate := MetadataInt(meta.width).value, MetadataInt(meta.height).value, MetadataInt(meta.bitrate).value;
      bitrate > MIN_BITRATE && height > MIN_HEIGHT && width > MIN_WIDTH
      && d.bitrate == GetBitrate(bitrate) && d.bitrate < bitrate
      && d.width != 0 && d.height != 0 && (d.width, d.height) != (width, height)
      && d.rotation != 90 && d.rotation != 180 && d.rotation != 270
      && IsLong(d.durationUs)
  {
    var bitrate := MetadataInt(meta.bitrate).value;
    GetBitrateSteps(bitrate, bitrate);
    var size := GenerateWidthAndHeight(MetadataInt(meta.width).value, MetadataInt(meta.height).value);
    Compressor.RotateDimensionsKeepsDisplay(MetadataInt(meta.rotation).value, size.0, size.1);
  }

  /**
   * A readable video under 960 pixels on both sides that passes the thresholds is compressed
   * exactly when a quarter turn swaps its sides and they differ: the size band keeps its size.
   */
  lemma {:induction false} SmallVideosKeepTheirSize(meta: Compressor.Metadata)
    requires MetadataParses(meta)
    requires MetadataInt(meta.bitrate).value > MIN_BITRATE
    requires MIN_HEIGHT < MetadataInt(meta.height).value < 960 && MIN_WIDTH < MetadataInt(meta.width).value < 960
    ensures var rotation := MetadataInt(meta.rotation).value;
      CompressVideo(meta, true).value.Compressed?
      <==> (rotation == 90 || rotation == 270) && MetadataInt(meta.width).value != MetadataInt(meta.height).value
  {
  }

  /** Whether bytes a-3..a of the codec-specific data are the start code 00 00 00 01. */
  predicate StartCodeEndsAt(csd: seq<byte>, a: int)
    requires 3 <= a < |csd|
  {
    csd[a] == 1 && csd[a - 1] == 0 && csd[a - 2] == 0 && csd[a - 3] == 0
  }

  /** The downward search from a: the largest index above 3 at which a start code ends, or -1. */
  function LastStartCode(csd: seq<byte>, a: int): (r: int)
    requires a < |csd|
    ensures r == -1 || 3 < r <= a
    decreases a
  {
    if a <= 3 then -1
    else if StartCodeEndsAt(csd, a) then a
    else LastStartCode(csd, a - 1)
  }

  /**
   * The search finds the last start code ending above index 3 and at most at a, and -1 exactly
   * when there is none.
   */
  lemma {:induction false} LastStartCodeSpec(csd: seq<byte>, a: int)
    requires a < |csd|
    ensures var r := LastStartCode(csd, a);
      (r == -1 || (3 < r <= a && StartCodeEndsAt(csd, r)))
      && (forall k :: r < k <= a && 3 < k ==> !StartCodeEndsAt(csd, k))
    decreases a
  {
    if a > 3 && !StartCodeEndsAt(csd, a) {
      LastStartCodeSpec(csd, a - 1);
    }
  }

  /**
   * The split of the codec-specific data: SPS is everything before the last start code that
   * ends above index 3, PPS is that start code and everything after it; None when there is no
   * such start code.
   */
  function SplitCodecConfig(csd: seq<byte>): (r: Option<(seq<byte>, seq<byte>)>)
    ensures r.Some? ==> |r.value.1| >= 4
  {
    var a := LastStartCode(csd, |csd| - 1);
    if a < 0 then None else Some((csd[..a - 3], csd[a - 3..]))
  }

  /**
   * The two parts put together give back the data; SPS is not empty, PPS begins with the start
   * code and holds no later one; with no start code past the first four bytes there is no split.
   */
  lemma {:induction false} SplitCodecConfigParts(csd: seq<byte>)
    ensures var r := SplitCodecConfig(csd);
      (r.None? <==> forall k :: 3 < k < |csd| ==> !StartCodeEndsAt(csd, k))
      && (r.Some? ==>
            r.value.0 + r.value.1 == csd
            && |r.value.0| >= 1
            && r.value.1[..4] == [0, 0, 0, 1]
            && forall k :: 3 < k < |r.value.1| ==> !StartCodeEndsAt(r.value.1, k))
  {
    LastStartCodeSpec(csd, |csd| - 1);
    var a := LastStartCode(csd, |csd| - 1);
    if a >= 0 {
      var sps, pps := csd[..a - 3], csd[a - 3..];
      assert sps + pps == csd;
      assert pps[..4] == [0, 0, 0, 1];
      forall k | 3 < k < |pps|
        ensures !StartCodeEndsAt(pps, k)
      {
        assert StartCodeEndsAt(pps, k) == StartCodeEndsAt(csd, k + a - 3);
      }
    }
  }

  /**
   * The encoder's codec-config branch: a search from the last byte down that stops at index 3,
   * and the two new buffers filled from the data when a start code is found.
   */
  method SplitCodecConfigBuffers(csd: array<byte>) returns (sps: Option<array<byte>>, pps: Option<array<byte>>)
    ensures var s := SplitCodecConfig(csd[..]);
      (s.None? ==> sps.None? && pps.None?)
      && (s.Some? ==>
            sps.Some? && pps.Some? && fresh(sps.value) && fresh(pps.value)
            && sps.value[..] == s.value.0 && pps.value[..] == s.value.1)
  {
    sps, pps := None, None;
    var a := csd.Length - 1;
    while a >= 0
      invariant -1 <= a < csd.Length
      invariant LastStartCode(csd[..], a) == LastStartCode(csd[..], csd.Length - 1)
      invariant sps.None? && pps.None?
      decreases a
    {
      if a > 3 {
        if csd[a] == 1 && csd[a - 1] == 0 && csd[a - 2] == 0 && csd[a - 3] == 0 {
          assert StartCodeEndsAt(csd[..], a);
          assert LastStartCode(csd[..], csd.Length - 1) == a;
          ghost var data := csd[..];
          var spsBuffer := new byte[a - 3];
          forall i | 0 <= i < a - 3 {
            spsBuffer[i] := csd[i];
          }
          var ppsBuffer := new byte[csd.Length - (a - 3)];
          forall i | 0 <= i < csd.Length - (a - 3) {
            ppsBuffer[i] := csd[a - 3 + i];
          }
          sps, pps := Some(spsBuffer), Some(ppsBuffer);
          assert csd[..] == data;
          assert spsBuffer[..] == data[..a - 3];
          assert ppsBuffer[..] == data[a - 3..];
          return;
        }
      } else {
        break;
      }
      a := a - 1;
    }
  }
}
