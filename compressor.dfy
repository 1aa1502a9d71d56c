/**
 * The decisions of compressor/Compressor.kt before any codec work: the metadata guard, the
 * minimum-bitrate guard, the choice of the new bitrate and of the new size, the rotation swap,
 * the zero-size guard of `start`, and the sizing of the audio copy buffer. The metadata
 * retriever is replaced by the strings it returned; the transcoding itself is not modelled.
 */
module Compressor {
  import opened Jvm
  import opened Wrappers
  import opened Decimal
  import opened NumbersUtils
  import opened VideoCompressor
  import opened CompressorUtils

  /** The minimum source bitrate the optional check accepts: 2 Mbps. */
  const MIN_BITRATE: int := 2000000
  const INVALID_BITRATE: string :=
    "The provided bitrate is smaller than what is needed for compression try to set isMinBitRateEnabled to false"
  const METADATA_FAILURE: string := "Failed to extract video meta-data, please try again"
  const START_FAILURE: string := "Something went wrong, please try again"
  /** The audio buffer size used when the format gives none: 64 KiB. */
  const DEFAULT_AUDIO_BUFFER: int := 64 * 1024

  /** The metadata strings the retriever returned: None for a null. */
  datatype Metadata = Metadata(
    width: Option<string>,
    height: Option<string>,
    rotation: Option<string>,
    bitrate: Option<string>,
    duration: Option<string>)

  /** The configuration values compressVideo reads. */
  datatype Settings = Settings(
    quality: VideoQuality,
    isMinBitrateCheckEnabled: bool,
    videoBitrate: Option<int>,
    videoHeight: Option<real>,
    videoWidth: Option<real>,
    keepOriginalResolution: bool,
    disableAudio: bool)

  /** Why compressVideo reports a failed Result; Message gives the text it carries. */
  datatype FailureReason = MetadataFailure | InvalidBitrate | StartFailure

  function Message(reason: FailureReason): string
  {
    match reason
    case MetadataFailure => METADATA_FAILURE
    case InvalidBitrate => INVALID_BITRATE
    case StartFailure => START_FAILURE
  }

  /**
   * The outcome: a failed Result with its message, or the parameters the transcoder is started
   * with.
   */
  datatype Outcome =
    | Failure(reason: FailureReason)
    | Compressed(width: int, height: int, bitrate: int, durationUs: int, rotation: int, disableAudio: bool)

  predicate IsNullOrEmpty(data: Option<string>)
  {
    data.None? || data.value == []
  }

  /**
   * The rotation step: a quarter turn either way swaps width and height and becomes 0, a half
   * turn becomes 0, any other value is kept.
   */
  function RotateDimensions<T>(rotation: int, width: T, height: T): (r: (int, T, T))
  {
    if rotation == 90 || rotation == 270 then (0, height, width)
    else if rotation == 180 then (0, width, height)
    else (rotation, width, height)
  }

  /** The width and height a picture with this rotation is shown at. */
  function Displayed<T>(rotation: int, width: T, height: T): (T, T)
  {
    if rotation == 90 || rotation == 270 then (height, width) else (width, height)
  }

  /**
   * The rotation step keeps the size the picture is shown at, leaves no 90, 180 or 270 behind,
   * and changes nothing when applied a second time.
   */
  lemma RotateDimensionsKeepsDisplay<T>(rotation: int, width: T, height: T)
    ensures var r := RotateDimensions(rotation, width, height);
      Displayed(r.0, r.1, r.2) == Displayed(rotation, width, height)
      && r.0 != 90 && r.0 != 180 && r.0 != 270
      && RotateDimensions(r.0, r.1, r.2) == r
  {
  }

  /**
   * The new size before rotation: the configured size when a height is configured (its width may
   * be missing), otherwise generateWidthAndHeight of the source size.
   */
  function TargetSize(width: real, height: real, settings: Settings): (r: (Option<int>, Option<int>))
  {
    if settings.videoHeight.Some? then
      (if settings.videoWidth.Some? then Some(TruncateToInt(settings.videoWidth.value)) else None,
       Some(TruncateToInt(settings.videoHeight.value)))
    else
      var g := GenerateWidthAndHeight(width, height, settings.keepOriginalResolution);
      (Some(g.0), Some(g.1))
  }

  /** start's guard: a zero side fails, anything else is transcoded. */
  function Start(width: int, height: int, bitrate: int, durationUs: int, rotation: int, disableAudio: bool): (o: Outcome)
  {
    if width != 0 && height != 0 then Compressed(width, height, bitrate, durationUs, rotation, disableAudio)
    else Failure(StartFailure)
  }

  /**
   * compressVideo from the metadata on: Err is an exception it throws (a number that does not
   * parse, or a configured height without a width).
   */
  function CompressVideo(meta: Metadata, settings: Settings): (r: Result<Outcome, string>)
  {
    var heightR := PrepareVideoHeight(meta.height);
    if heightR.Err? then Err(heightR.error) else
    var widthR := PrepareVideoWidth(meta.width);
    if widthR.Err? then Err(widthR.error) else
    if IsNullOrEmpty(meta.rotation) || IsNullOrEmpty(meta.bitrate) || IsNullOrEmpty(meta.duration) then
      Ok(Failure(MetadataFailure))
    else
    var rotationR := ToInt(meta.rotation.value);
    if rotationR.Err? then Err(rotationR.error) else
    var bitrateR := ToInt(meta.bitrate.value);
    if bitrateR.Err? then Err(bitrateR.error) else
    var durationR := ToLong(meta.duration.value);
    if durationR.Err? then Err(durationR.error) else
    CompressParsed(widthR.value, heightR.value, rotationR.value, bitrateR.value, durationR.value, settings)
  }

  /**
   * compressVideo once the metadata has parsed: the bitrate guard, the new bitrate and size, the
   * rotation step and start's guard. Only the metadata guard, before it, reports that failure.
   */
  function CompressParsed(width: real, height: real, rotation: int, bitrate: int, duration: int, settings: Settings): (r: Result<Outcome, string>)
    ensures r.Ok? && r.value.Failure? ==> r.value.reason != MetadataFailure
  {
    if settings.isMinBitrateCheckEnabled && bitrate <= MIN_BITRATE then Ok(Failure(InvalidBitrate)) else
    var newBitrate := if settings.videoBitrate.None? then GetBitrate(bitrate, settings.quality) else settings.videoBitrate.value;
    var size := TargetSize(width, height, settings);
    var rotated := RotateDimensions(rotation, size.0, size.1);
    if rotated.1.None? || rotated.2.None? then Err(NULL_POINTER_EXCEPTION)
    else Ok(Start(rotated.1.value, rotated.2.value, newBitrate, Wrap64(duration * 1000), rotated.0, settings.disableAudio))
  }

  /** Whether the metadata parses: the sizes as doubles and the rest as Int, Int and Long. */
  predicate MetadataParses(meta: Metadata)
  {
    PrepareVideoHeight(meta.height).Ok? && PrepareVideoWidth(meta.width).Ok?
    && !IsNullOrEmpty(meta.rotation) && !IsNullOrEmpty(meta.bitrate) && !IsNullOrEmpty(meta.duration)
    && ToInt(meta.rotation.value).Ok? && ToInt(meta.bitrate.value).Ok? && ToLong(meta.duration.value).Ok?
  }

  /**
   * The metadata guard: with sizes that parse, the metadata failure is reported exactly when the
   * rotation, bitrate or duration is null or empty.
   */
  lemma CompressVideoMetadataGuard(meta: Metadata, settings: Settings)
    requires PrepareVideoHeight(meta.height).Ok? && PrepareVideoWidth(meta.width).Ok?
    ensures (CompressVideo(meta, settings) == Ok(Failure(MetadataFailure)))
        <==> (IsNullOrEmpty(meta.rotation) || IsNullOrEmpty(meta.bitrate) || IsNullOrEmpty(meta.duration))
  {
  }

  /**
   * The bitrate guard: with metadata that parses, the invalid-bitrate failure is reported exactly
   * when the check is enabled and the source bitrate is at most 2 Mbps.
   */
  lemma CompressVideoBitrateGuard(meta: Metadata, settings: Settings)
    requires MetadataParses(meta)
    ensures (CompressVideo(meta, settings) == Ok(Failure(InvalidBitrate)))
        <==> (settings.isMinBitrateCheckEnabled && ToInt(meta.bitrate.value).value <= MIN_BITRATE)
  {
  }

  /**
   * What a compression is started with: sides that are not zero, a rotation with no quarter or
   * half turn left in it and the same displayed size as the source's rotation would give, the
   * configured bitrate or the quality's share of the source's, and the duration in microseconds.
   */
  lemma CompressVideoCompressed(meta: Metadata, settings: Settings)
    requires CompressVideo(meta, settings).Ok? && CompressVideo(meta, settings).value.Compressed?
    ensures MetadataParses(meta)
    ensures var o := CompressVideo(meta, settings).value;
      var source := ToInt(meta.bitrate.value).value;
      var duration := ToLong(meta.duration.value).value;
      var size := TargetSize(PrepareVideoWidth(meta.width).value, PrepareVideoHeight(meta.height).value, settings);
      o.width != 0 && o.height != 0
      && o.rotation != 90 && o.rotation != 180 && o.rotation != 270
      && (Some(o.width), Some(o.height)) == Displayed(ToInt(meta.rotation.value).value, size.0, size.1)
      && !(settings.isMinBitrateCheckEnabled && source <= MIN_BITRATE)
      && o.bitrate == (if settings.videoBitrate.Some? then settings.videoBitrate.value else GetBitrate(source, settings.quality))
      && IsLong(o.durationUs)
      && (LONG_MIN <= duration * 1000 <= LONG_MAX ==> o.durationUs == duration * 1000)
      && o.disableAudio == settings.disableAudio
  {
    var size := TargetSize(PrepareVideoWidth(meta.width).value, PrepareVideoHeight(meta.height).value, settings);
    RotateDimensionsKeepsDisplay(ToInt(meta.rotation.value).value, size.0, size.1);
  }

  /**
   * start's guard: once the metadata parses, the bitrate check passes and the size is known, the
   * compression fails with "Something went wrong" exactly when a side of the new size is zero,
   * whichever way the rotation turned it.
   */
  lemma CompressVideoZeroSideFails(meta: Metadata, settings: Settings)
    requires MetadataParses(meta)
    requires !(settings.isMinBitrateCheckEnabled && ToInt(meta.bitrate.value).value <= MIN_BITRATE)
    requires settings.videoHeight.Some? ==> settings.videoWidth.Some?
    ensures var size := TargetSize(PrepareVideoWidth(meta.width).value, PrepareVideoHeight(meta.height).value, settings);
      size.0.Some? && size.1.Some?
      && (CompressVideo(meta, settings) == Ok(Failure(StartFailure)) <==> size.0.value == 0 || size.1.value == 0)
      && CompressVideo(meta, settings).Ok?
  {
    ParsedZeroSideFails(PrepareVideoWidth(meta.width).value, PrepareVideoHeight(meta.height).value,
      ToInt(meta.rotation.value).value, ToInt(meta.bitrate.value).value, ToLong(meta.duration.value).value, settings);
  }

  /** The zero-side guard, on the parsed metadata. */
  lemma ParsedZeroSideFails(width: real, height: real, rotation: int, bitrate: int, duration: int, settings: Settings)
    requires !(settings.isMinBitrateCheckEnabled && bitrate <= MIN_BITRATE)
    requires settings.videoHeight.Some? ==> settings.videoWidth.Some?
    ensures var size := TargetSize(width, height, settings);
      size.0.Some? && size.1.Some?
      && (CompressParsed(width, height, rotation, bitrate, duration, settings) == Ok(Failure(StartFailure))
          <==> size.0.value == 0 || size.1.value == 0)
      && CompressParsed(width, height, rotation, bitrate, duration, settings).Ok?
  {
    var size := TargetSize(width, height, settings);
    var rotated := RotateDimensions(rotation, size.0, size.1);
    assert rotated.1.Some? && rotated.2.Some?;
    assert (rotated.1.value == 0 || rotated.2.value == 0) <==> (size.0.value == 0 || size.1.value == 0);
  }

  /** A configured height without a configured width never starts a compression. */
  lemma HeightWithoutWidthNeverCompresses(meta: Metadata, settings: Settings)
    requires settings.videoHeight.Some? && settings.videoWidth.None?
    ensures CompressVideo(meta, settings).Ok? ==> CompressVideo(meta, settings).value.Failure?
    ensures MetadataParses(meta) && !(settings.isMinBitrateCheckEnabled && ToInt(meta.bitrate.value).value <= MIN_BITRATE)
            ==> CompressVideo(meta, settings) == Err(NULL_POINTER_EXCEPTION)
  {
  }

  /**
   * processAudio's buffer size: the format's maximum input size, 64 KiB when that is not
   * positive, and from API level 28 on the extractor's sample size plus 1024 (as an Int) when the
   * sample is larger.
   */
  function AudioBufferSize(maxInputSize: int, sdkInt: int, sampleSize: int): (r: int)
    requires IsInt(maxInputSize) && IsLong(sampleSize)
  {
    var base := if maxInputSize <= 0 then DEFAULT_AUDIO_BUFFER else maxInputSize;
    if sdkInt >= 28 && sampleSize > base then Wrap32(Wrap64(sampleSize + 1024)) else base
  }

  /**
   * The buffer is always positive below API level 28; from 28 on, it holds the first sample
   * whenever that sample is at most 1024 bytes below the Int range.
   */
  lemma {:induction false} AudioBufferSizeFits(maxInputSize: int, sdkInt: int, sampleSize: int)
    requires IsInt(maxInputSize) && IsLong(sampleSize)
    ensures var r := AudioBufferSize(maxInputSize, sdkInt, sampleSize);
      var base := if maxInputSize <= 0 then DEFAULT_AUDIO_BUFFER else maxInputSize;
      (!(sdkInt >= 28 && sampleSize > base) ==> r == base)
      && (sdkInt >= 28 && sampleSize > base && sampleSize <= INT_MAX - 1024 ==> r == sampleSize + 1024)
    ensures var r := AudioBufferSize(maxInputSize, sdkInt, sampleSize);
      IsInt(r)
      && (sdkInt < 28 ==> r > 0 && (maxInputSize > 0 ==> r == maxInputSize))
      && (sdkInt >= 28 && sampleSize <= INT_MAX - 1024 ==> r > 0 && r >= sampleSize)
  {
    var base := if maxInputSize <= 0 then DEFAULT_AUDIO_BUFFER else maxInputSize;
    if sdkInt >= 28 && sampleSize > base && sampleSize <= INT_MAX - 1024 {
      assert Wrap64(sampleSize + 1024) == sampleSize + 1024;
      assert Wrap32(sampleSize + 1024) == sampleSize + 1024;
    }
  }
}
