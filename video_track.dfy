/**
 * The muxer's track of video/Track.kt: the sample table it builds as the encoder hands over
 * samples. The mp4parser boxes the constructor assembles are not part of this model.
 */
module VideoTrack {
  import opened Jvm
  import opened Wrappers
  import opened SampleTable

  /** samplingFrequencyIndexMap: sampling rates to their AudioSpecificConfig index, without 8000 Hz. */
  const SAMPLING_FREQUENCY_INDEX: map<int, int> := map[
    96000 := 0x0, 88200 := 0x1, 64000 := 0x2, 48000 := 0x3, 44100 := 0x4, 32000 := 0x5,
    24000 := 0x6, 22050 := 0x7, 16000 := 0x8, 12000 := 0x9, 11025 := 0xa]

  /**
   * The table agrees with the standard's: it holds exactly the first eleven standard rates,
   * each mapped to its standard index, and so 8000 Hz has no entry.
   */
  lemma SamplingFrequencyIndexStandard()
    ensures forall r :: r in SAMPLING_FREQUENCY_INDEX ==>
      0 <= SAMPLING_FREQUENCY_INDEX[r] < 11 && STANDARD_SAMPLING_FREQUENCIES[SAMPLING_FREQUENCY_INDEX[r]] == r
    ensures forall i :: 0 <= i < 11 ==>
      STANDARD_SAMPLING_FREQUENCIES[i] in SAMPLING_FREQUENCY_INDEX
      && SAMPLING_FREQUENCY_INDEX[STANDARD_SAMPLING_FREQUENCIES[i]] == i
    ensures 8000 !in SAMPLING_FREQUENCY_INDEX
  {
  }

  class Track {
    const trackId: int
    const isAudio: bool
    const handler: string
    const width: int
    const height: int
    const volume: real
    const timeScale: int
    var samples: seq<Sample>
    var duration: int
    var syncSamples: Option<seq<int>>
    var sampleDurations: seq<int>
    var lastPresentationTimeUs: int
    var first: bool

    /** The sample table as a value. */
    function State(): (s: TrackState)
      reads this
      ensures s.samples == samples && s.syncSamples == syncSamples
    {
      TrackState(samples, duration, syncSamples, timeScale, sampleDurations, lastPresentationTimeUs, first)
    }

    /** The duration entry the table starts with and keeps last. */
    function LastDuration(): (d: int)
      ensures d == AUDIO_LAST_DURATION || d == VIDEO_LAST_DURATION
    {
      if isAudio then AUDIO_LAST_DURATION else VIDEO_LAST_DURATION
    }

    ghost predicate Valid()
      reads this
    {
      TableInvariant(State(), LastDuration()) && (syncSamples.Some? <==> !isAudio)
    }

    /**
     * A video track starts with durations [3015], duration 3015, timescale 90000, an empty
     * sync list and the format's dimensions; an audio track with [1024], 1024, the sample rate
     * as timescale, no sync list and volume 1. The `!!` on the frequency table throws for a
     * sample rate it lacks.
     */
    constructor (id: int, format: TrackFormat, audio: bool)
      requires audio ==> format.sampleRate in SAMPLING_FREQUENCY_INDEX
      ensures Valid()
      ensures trackId == id && isAudio == audio
      ensures !audio ==> (State() == InitialState(VIDEO_LAST_DURATION, VIDEO_TIME_SCALE, true)
        && handler == "vide" && width == format.width && height == format.height && volume == 0.0)
      ensures audio ==> (State() == InitialState(AUDIO_LAST_DURATION, format.sampleRate, false)
        && handler == "soun" && width == 0 && height == 0 && volume == 1.0)
    {
      trackId := id;
      isAudio := audio;
      samples := [];
      lastPresentationTimeUs := 0;
      first := true;
      if !audio {
        sampleDurations := [VIDEO_LAST_DURATION];
        duration := VIDEO_LAST_DURATION;
        width := format.width;
        height := format.height;
        timeScale := VIDEO_TIME_SCALE;
        syncSamples := Some([]);
        handler := "vide";
        volume := 0.0;
      } else {
        sampleDurations := [AUDIO_LAST_DURATION];
        duration := AUDIO_LAST_DURATION;
        width := 0;
        height := 0;
        volume := 1.0;
        timeScale := format.sampleRate;
        syncSamples := None;
        handler := "soun";
      }
      new;
      InitialStateValid(LastDuration(), timeScale, !audio);
    }

    /**
     * addSample: a sample is a sync frame when the track is video and the flag is set; the
     * table changes as SampleTable.AddSample says, which keeps the invariant.
     */
    method AddSample(offset: int, info: BufferInfo)
      requires Valid() && IsLong(info.presentationTimeUs)
      modifies this
      ensures Valid()
      ensures State() == SampleTable.AddSample(old(State()), offset, info, !isAudio && HasSyncFlag(info))
    {
      var isSyncFrame := !isAudio && HasSyncFlag(info);
      ghost var prev := State();
      samples := samples + [Sample(offset, info.size)];
      if syncSamples.Some? && isSyncFrame {
        syncSamples := Some(syncSamples.value + [|samples|]);
      }
      var delta := RoundedDelta(info.presentationTimeUs, lastPresentationTimeUs, timeScale);
      lastPresentationTimeUs := info.presentationTimeUs;
      if !first {
        var n := |sampleDurations|;
        sampleDurations := sampleDurations[..n - 1] + [delta] + [sampleDurations[n - 1]];
        duration := Wrap64(duration + delta);
      }
      first := false;
      assert State() == SampleTable.AddSample(prev, offset, info, isSyncFrame);
      AddSampleKeepsInvariant(prev, LastDuration(), offset, info, isSyncFrame);
    }

    /** getSyncSamples: null for an absent or empty list, otherwise a copy in the same order. */
    method GetSyncSamples() returns (r: Option<array<int>>)
      ensures r.None? <==> SyncSampleTable(State()).None?
      ensures r.Some? ==> fresh(r.value) && r.value[..] == SyncSampleTable(State()).value
    {
      if syncSamples.None? || |syncSamples.value| == 0 {
        return None;
      }
      var list := syncSamples.value;
      var copy := new int[|list|];
      for i := 0 to |list|
        invariant copy[..i] == list[..i]
      {
        copy[i] := list[i];
      }
      return Some(copy);
    }
  }
}
