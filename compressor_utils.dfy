/**
 * The pure policy of utils/CompressorUtils.kt: the dimensions read from the metadata, the
 * output bitrate for a quality level, the output dimensions, the track search, and the frame
 * rate and I-frame interval defaults.
 */
module CompressorUtils {
  import opened Jvm
  import opened Wrappers
  import opened NumbersUtils
  import opened Decimal
  import opened VideoCompressor

  /** The height assumed when the metadata has none. */
  const MIN_HEIGHT: real := 640.0
  /** The width assumed when the metadata has none. */
  const MIN_WIDTH: real := 368.0
  /** Seconds between I-frames when the input format does not say. */
  const I_FRAME_INTERVAL: int := 1
  /** Frames per second when the input format does not say. */
  const DEFAULT_FRAME_RATE: int := 30
  /** What the track search returns when no track has the wanted kind. */
  const NO_TRACK: int := -5
  /** The exception of calling a method through a null reference. */
  const NULL_POINTER_EXCEPTION: string := "NullPointerException"

  /** A metadata string, or a default when it is null or empty; text that is not a number throws. */
  function DimensionOrDefault(data: Option<string>, default: real): (r: Result<real, string>)
  {
    if data == None || data.value == [] then Ok(default) else ToDouble(data.value)
  }

  /** prepareVideoWidth: the width metadata as a Double, 368 when it is null or empty. */
  function PrepareVideoWidth(widthData: Option<string>): (r: Result<real, string>)
    ensures widthData == None || widthData == Some([]) ==> r == Ok(MIN_WIDTH)
  {
    DimensionOrDefault(widthData, MIN_WIDTH)
  }

  /** prepareVideoHeight: the height metadata as a Double, 640 when it is null or empty. */
  function PrepareVideoHeight(heightData: Option<string>): (r: Result<real, string>)
    ensures heightData == None || heightData == Some([]) ==> r == Ok(MIN_HEIGHT)
  {
    DimensionOrDefault(heightData, MIN_HEIGHT)
  }

  /** A dimension written as an integer is read as that integer. */
  lemma {:induction false} PrepareDimensionOfInteger(n: int)
    ensures PrepareVideoWidth(Some(Show(n))) == Ok(n as real)
    ensures PrepareVideoHeight(Some(Show(n))) == Ok(n as real)
  {
    ParseShow(n);
    ToDoubleAgreesWithToInt(Show(n));
  }

  /** getFrameRate: the input's frame rate, or 30 when the format has none. */
  function GetFrameRate(frameRate: Option<int>): (r: int)
    ensures frameRate.Some? ==> r == frameRate.value
    ensures frameRate.None? ==> r == DEFAULT_FRAME_RATE
  {
    if frameRate.Some? then frameRate.value else DEFAULT_FRAME_RATE
  }

  /** getIFrameIntervalRate: the input's I-frame interval, or 1 when the format has none. */
  function GetIFrameIntervalRate(interval: Option<int>): (r: int)
    ensures interval.Some? ==> r == interval.value
    ensures interval.None? ==> r == I_FRAME_INTERVAL
  {
    if interval.Some? then interval.value else I_FRAME_INTERVAL
  }

  predicate StartsWith(s: string, prefix: string)
  {
    |prefix| <= |s| && s[..|prefix|] == prefix
  }

  /** The mime-type prefix of the kind of track wanted. */
  function KindPrefix(isVideo: bool): (p: string)
  {
    if isVideo then "video/" else "audio/"
  }

  /**
   * findTrack from track i on: the first index whose mime type starts with the prefix, or -5.
   * A track without a mime type fails at the `!!` before any later track is looked at.
   */
  function FindTrackFrom(mimes: seq<Option<string>>, prefix: string, i: nat): (r: Result<int, string>)
    requires i <= |mimes|
    ensures r.Ok? ==> r.value == NO_TRACK || i <= r.value < |mimes|
    decreases |mimes| - i
  {
    if i == |mimes| then Ok(NO_TRACK)
    else if mimes[i] == None then Err(NULL_POINTER_EXCEPTION)
    else if StartsWith(mimes[i].value, prefix) then Ok(i)
    else FindTrackFrom(mimes, prefix, i + 1)
  }

  /** findTrack: the tracks' mime types, in extractor order. */
  function FindTrack(mimes: seq<Option<string>>, isVideo: bool): (r: Result<int, string>)
  {
    FindTrackFrom(mimes, KindPrefix(isVideo), 0)
  }

  /** Whether track k's mime type has the prefix. */
  predicate Matches(mimes: seq<Option<string>>, prefix: string, k: int)
    requires 0 <= k < |mimes|
  {
    mimes[k].Some? && StartsWith(mimes[k].value, prefix)
  }

  /**
   * The search from i returns index j exactly when track j is the first from i on that has the
   * prefix and every track before it has a mime type; it returns -5 exactly when every track
   * from i on has a mime type without the prefix; and it throws exactly when a track without
   * a mime type comes before any match.
   */
  lemma {:induction false} FindTrackFromSpec(mimes: seq<Option<string>>, prefix: string, i: nat)
    requires i <= |mimes|
    ensures var r := FindTrackFrom(mimes, prefix, i);
      forall j :: i <= j < |mimes| ==>
        (r == Ok(j) <==>
           Matches(mimes, prefix, j) && forall k :: i <= k < j ==> mimes[k].Some? && !Matches(mimes, prefix, k))
    ensures var r := FindTrackFrom(mimes, prefix, i);
      r == Ok(NO_TRACK) <==> forall k :: i <= k < |mimes| ==> mimes[k].Some? && !Matches(mimes, prefix, k)
    ensures var r := FindTrackFrom(mimes, prefix, i);
      r.Err? <==>
        exists j :: i <= j < |mimes| && mimes[j].None? && forall k :: i <= k < j ==> !Matches(mimes, prefix, k)
    decreases |mimes| - i
  {
    if i < |mimes| {
      FindTrackFromSpec(mimes, prefix, i + 1);
      if mimes[i] == None {
        assert mimes[i].None?;
      } else if !Matches(mimes, prefix, i) {
        var r := FindTrackFrom(mimes, prefix, i);
        if r.Err? {
          var j :| i + 1 <= j < |mimes| && mimes[j].None? && forall k :: i + 1 <= k < j ==> !Matches(mimes, prefix, k);
          assert forall k :: i <= k < j ==> !Matches(mimes, prefix, k);
        }
      }
    }
  }

  /** The share of the input bitrate each quality level keeps. */
  function BitrateFactor(quality: VideoQuality): (f: real)
    ensures 0.0 < f < 1.0
  {
    match quality
    case VeryLow => 0.1
    case Low => 0.2
    case Medium => 0.3
    case High => 0.4
    case VeryHigh => 0.6
  }

  /** getBitrate: the input bitrate times the quality's factor, rounded to the nearest Int. */
  function GetBitrate(bitrate: int, quality: VideoQuality): (r: int)
    ensures IsInt(r)
  {
    RoundToInt(bitrate as real * BitrateFactor(quality))
  }

  /** Rounding to the nearest Int never reverses the order of two values. */
  lemma {:induction false} RoundToIntMonotone(x: real, y: real)
    requires x <= y
    ensures RoundToInt(x) <= RoundToInt(y)
  {
    assert (x + 0.5).Floor <= (y + 0.5).Floor by {
      var a := (x + 0.5).Floor;
      assert a as real <= x + 0.5 <= y + 0.5;
    }
  }

  /** The order of the quality levels, from smallest output to largest. */
  function QualityRank(quality: VideoQuality): (k: nat)
  {
    match quality
    case VeryLow => 0
    case Low => 1
    case Medium => 2
    case High => 3
    case VeryHigh => 4
  }

  /** The scaled bitrate, for each quality level, as a product with a known factor. */
  lemma {:induction false} ScaledBitrate(bitrate: int, quality: VideoQuality)
    requires 0 <= bitrate <= INT_MAX
    ensures var x := bitrate as real * BitrateFactor(quality);
      0.0 <= x <= 0.6 * bitrate as real
  {
    match quality
    case VeryLow =>
    case Low =>
    case Medium =>
    case High =>
    case VeryHigh =>
  }

  /**
   * For an Int bitrate that is not negative, the new bitrate is the nearest integer to
   * bitrate * factor and never exceeds the input.
   */
  lemma {:induction false} GetBitrateBounds(bitrate: int, quality: VideoQuality)
    requires 0 <= bitrate <= INT_MAX
    ensures var x := bitrate as real * BitrateFactor(quality);
      x - 0.5 < GetBitrate(bitrate, quality) as real <= x + 0.5
    ensures 0 <= GetBitrate(bitrate, quality) <= bitrate
  {
    var x := bitrate as real * BitrateFactor(quality);
    ScaledBitrate(bitrate, quality);
    assert IsInt((x + 0.5).Floor) by {
      assert 0.0 <= x + 0.5 < INT_MAX as real + 1.0;
      assert 0 <= (x + 0.5).Floor;
    }
    if bitrate >= 2 {
      RoundToIntMonotone(x, bitrate as real - 0.5);
      assert RoundToInt(bitrate as real - 0.5) == bitrate;
    } else if bitrate == 1 {
      RoundToIntMonotone(x, 0.6);
    }
    RoundToIntMonotone(0.0, x);
  }

  /** The factors grow with the quality level. */
  lemma {:induction false} FactorFollowsRank(q1: VideoQuality, q2: VideoQuality)
    requires QualityRank(q1) <= QualityRank(q2)
    ensures BitrateFactor(q1) <= BitrateFactor(q2)
  {
    assert BitrateFactor(q1) == 0.1 * (QualityRank(q1) + 1) as real || QualityRank(q1) == 4;
    assert BitrateFactor(q2) == 0.1 * (QualityRank(q2) + 1) as real || QualityRank(q2) == 4;
  }

  /** The scaled bitrates, in quality order. */
  lemma {:induction false} ScaledMonotone(bitrate: int, q1: VideoQuality, q2: VideoQuality) returns (x1: real, x2: real)
    requires 0 <= bitrate && QualityRank(q1) <= QualityRank(q2)
    ensures x1 == bitrate as real * BitrateFactor(q1) && x2 == bitrate as real * BitrateFactor(q2)
    ensures x1 <= x2
  {
    var b, f1, f2 := bitrate as real, BitrateFactor(q1), BitrateFactor(q2);
    FactorFollowsRank(q1, q2);
    assert b * f2 - b * f1 == b * (f2 - f1);
    x1, x2 := b * f1, b * f2;
  }

  /** A higher quality level never gives a smaller bitrate. */
  lemma {:induction false} GetBitrateMonotone(bitrate: int, q1: VideoQuality, q2: VideoQuality)
    requires 0 <= bitrate && QualityRank(q1) <= QualityRank(q2)
    ensures GetBitrate(bitrate, q1) <= GetBitrate(bitrate, q2)
  {
    var x1, x2 := ScaledMonotone(bitrate, q1, q2);
    RoundToIntMonotone(x1, x2);
  }

  /**
   * The band table of the auto resizer: 50% if either side is at least 1920, else 75% if
   * either is at least 1280, else 95% if either is at least 960, else 90%.
   */
  function AutoResizePercentage(width: real, height: real): (p: real)
    ensures 0.5 <= p <= 0.95
  {
    if width >= 1920.0 || height >= 1920.0 then 0.5
    else if width >= 1280.0 || height >= 1280.0 then 0.75
    else if width >= 960.0 || height >= 960.0 then 0.95
    else 0.9
  }

  /**
   * generateWidthAndHeight: the rounded input with keepOriginalResolution; otherwise each side
   * times one factor chosen from the larger bands first, rounded to a multiple of 16.
   */
  function GenerateWidthAndHeight(width: real, height: real, keepOriginalResolution: bool): (r: (int, int))
  {
    if keepOriginalResolution then (RoundToInt(width), RoundToInt(height))
    else if width >= 1920.0 || height >= 1920.0 then
      (GenerateWidthHeightValue(width, 0.5), GenerateWidthHeightValue(height, 0.5))
    else if width >= 1280.0 || height >= 1280.0 then
      (GenerateWidthHeightValue(width, 0.75), GenerateWidthHeightValue(height, 0.75))
    else if width >= 960.0 || height >= 960.0 then
      (GenerateWidthHeightValue(width, 0.95), GenerateWidthHeightValue(height, 0.95))
    else
      (GenerateWidthHeightValue(width, 0.9), GenerateWidthHeightValue(height, 0.9))
  }

  /**
   * Without keepOriginalResolution both sides are scaled by the one factor of the band table,
   * and both come out as multiples of 16; with it, the sides are only rounded.
   */
  lemma GenerateWidthAndHeightScales(width: real, height: real, keepOriginalResolution: bool)
    ensures var r := GenerateWidthAndHeight(width, height, keepOriginalResolution);
      var p := AutoResizePercentage(width, height);
      (!keepOriginalResolution ==>
         r == (GenerateWidthHeightValue(width, p), GenerateWidthHeightValue(height, p))
         && r.0 % 16 == 0 && r.1 % 16 == 0)
      && (keepOriginalResolution ==> r == (RoundToInt(width), RoundToInt(height)))
  {
  }

  /**
   * With no Int overflow, the automatic sizes stay within 8 pixels of the scaled sides, so a
   * side of at least 160 pixels never grows.
   */
  lemma {:induction false} GenerateWidthAndHeightShrinks(width: real, height: real)
    requires 160.0 <= width <= 100000.0 && 160.0 <= height <= 100000.0
    ensures var r := GenerateWidthAndHeight(width, height, false);
      r.0 as real <= width && r.1 as real <= height
  {
    var p := AutoResizePercentage(width, height);
    assert (width * p / 16.0 + 0.5).Floor <= 10000;
    assert (height * p / 16.0 + 0.5).Floor <= 10000;
    GenerateWidthHeightValueNear(width, p);
    GenerateWidthHeightValueNear(height, p);
  }
}
