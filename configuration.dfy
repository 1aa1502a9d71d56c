/**
 * The compression settings of config/Configuration.kt: the primary constructor with its
 * defaults, and the two deprecated constructors that turn keepOriginalResolution and an
 * optional target size into a resizer.
 */
module Configuration {
  import opened Wrappers
  import opened VideoCompressor
  import opened VideoResizer
  import CompressorUtils

  datatype Configuration = Configuration(
    quality: VideoQuality,
    isMinBitrateCheckEnabled: bool,
    videoBitrateInMbps: Option<int>,
    disableAudio: bool,
    resizer: Option<Resizer>,
    videoNames: seq<string>)

  /** The primary constructor with every defaulted argument left out: only the names are given. */
  function WithDefaults(videoNames: seq<string>): (c: Configuration)
    ensures c.quality == Medium && c.isMinBitrateCheckEnabled && c.videoBitrateInMbps.None?
    ensures !c.disableAudio && c.resizer == Some(Auto) && c.videoNames == videoNames
  {
    Configuration(Medium, true, None, false, Some(Auto), videoNames)
  }

  /**
   * getVideoResizer: no resizer when the original resolution is kept; a stretching match to
   * the given width and height when both are given; `auto` otherwise. Height comes before
   * width in the parameter list, width before height in the resizer.
   */
  function GetVideoResizer(keepOriginalResolution: bool, videoHeight: Option<real>, videoWidth: Option<real>): (r: Option<Resizer>)
  {
    if keepOriginalResolution then None
    else if videoWidth.Some? && videoHeight.Some? then Some(MatchSizeTo(videoWidth.value, videoHeight.value, true))
    else Some(Auto)
  }

  /**
   * What the chosen resizer does: none when the original resolution is kept; with both sides
   * given, every input becomes exactly the given width by the given height; otherwise the band
   * table's factor is applied to both sides.
   */
  lemma GetVideoResizerBehaviour(keepOriginalResolution: bool, videoHeight: Option<real>, videoWidth: Option<real>, width: real, height: real)
    ensures var r := GetVideoResizer(keepOriginalResolution, videoHeight, videoWidth);
      (r.None? <==> keepOriginalResolution)
      && (r.Some? && videoWidth.Some? && videoHeight.Some? ==>
            Resize(r.value, width, height) == (videoWidth.value, videoHeight.value))
      && (r.Some? && (videoWidth.None? || videoHeight.None?) ==>
            r.value == Auto && Resize(r.value, width, height).0 == width * CompressorUtils.AutoResizePercentage(width, height))
  {
    if !keepOriginalResolution && (videoWidth.None? || videoHeight.None?) {
      ScaleResizeFactor(None, width, height);
    }
  }

  /** The first deprecated constructor, which takes keepOriginalResolution in place of a resizer. */
  function FromKeepOriginalResolution(quality: VideoQuality, isMinBitrateCheckEnabled: bool, videoBitrateInMbps: Option<int>,
                                      disableAudio: bool, keepOriginalResolution: bool, videoNames: seq<string>): (c: Configuration)
  {
    Configuration(quality, isMinBitrateCheckEnabled, videoBitrateInMbps, disableAudio,
                  GetVideoResizer(keepOriginalResolution, None, None), videoNames)
  }

  /** The second deprecated constructor, which also takes an optional target height and width. */
  function FromDimensions(quality: VideoQuality, isMinBitrateCheckEnabled: bool, videoBitrateInMbps: Option<int>,
                          disableAudio: bool, keepOriginalResolution: bool, videoHeight: Option<real>,
                          videoWidth: Option<real>, videoNames: seq<string>): (c: Configuration)
  {
    Configuration(quality, isMinBitrateCheckEnabled, videoBitrateInMbps, disableAudio,
                  GetVideoResizer(keepOriginalResolution, videoHeight, videoWidth), videoNames)
  }

  /**
   * The deprecated constructors agree with each other without a target size, and without
   * keepOriginalResolution they give the primary constructor's default resizer; only the
   * resizer depends on the deprecated arguments.
   */
  lemma DeprecatedConstructorsAgree(quality: VideoQuality, check: bool, bitrate: Option<int>, disableAudio: bool,
                                    keep: bool, videoHeight: Option<real>, videoWidth: Option<real>, names: seq<string>)
    ensures FromKeepOriginalResolution(quality, check, bitrate, disableAudio, keep, names)
         == FromDimensions(quality, check, bitrate, disableAudio, keep, None, None, names)
    ensures FromKeepOriginalResolution(Medium, true, None, false, false, names) == WithDefaults(names)
    ensures var c := FromDimensions(quality, check, bitrate, disableAudio, keep, videoHeight, videoWidth, names);
      c.quality == quality && c.isMinBitrateCheckEnabled == check && c.videoBitrateInMbps == bitrate
      && c.disableAudio == disableAudio && c.videoNames == names
      && (c.resizer.None? <==> keep)
  {
  }
}
