/**
 * The older muxer track of Track.java. Its sample table works like the Kotlin one, with two
 * differences: the `isAudio` field is the constant false, so the sync flag alone decides
 * whether a sample is a sync frame, and the sampling-frequency table also knows 8000 Hz.
 */
module LegacyTrack {
  import opened Jvm
  import opened Wrappers
  import opened SampleTable
  import VideoTrack

  /** samplingFrequencyIndexMap: sampling rates to their AudioSpecificConfig index. */
  const SAMPLING_FREQUENCY_INDEX: map<int, int> := map[
    96000 := 0x0, 88200 := 0x1, 64000 := 0x2, 48000 := 0x3, 44100 := 0x4, 32000 := 0x5,
    24000 := 0x6, 22050 := 0x7, 16000 := 0x8, 12000 := 0x9, 11025 := 0xa, 8000 := 0xb]

  /**
   * The table holds exactly the first twelve standard rates, each mapped to its standard index;
   * it is the Kotlin table with 8000 Hz added.
   */
  lemma SamplingFrequencyIndexStandard()
    ensures forall r :: r in SAMPLING_FREQUENCY_INDEX ==>
      0 <= SAMPLING_FREQUENCY_INDEX[r] < 12 && STANDARD_SAMPLING_FREQUENCIES[SAMPLING_FREQUENCY_INDEX[r]] == r
    ensures forall i :: 0 <= i < 12 ==>
      STANDARD_SAMPLING_FREQUENCIES[i] in SAMPLING_FREQUENCY_INDEX
      && SAMPLING_FREQUENCY_INDEX[STANDARD_SAMPLING_FREQUENCIES[i]] == i
    ensures SAMPLING_FREQUENCY_INDEX == VideoTrack.SAMPLING_FREQUENCY_INDEX[8000 := 0xb]
  {
  }

  /**
   * The constant `isAudio` makes no difference to the table: an audio track has no sync list,
   * so a sync-flagged audio sample adds no sync entry in either version.
   */
  lemma SyncDecisionAgrees(s: TrackState, audio: bool, offset: int, info: BufferInfo)
    requires |s.sampleDurations| >= 1 && (s.syncSamples.None? <==> audio)
    ensures SampleTable.AddSample(s, offset, info, HasSyncFlag(info))
         == SampleTable.AddSample(s, offset, info, !audio && HasSyncFlag(info))
  {
  }

  class Track {
    const trackId: int
    /** The field is initialised to false and never assigned; the constructor's parameter shadows it. */
    const isAudio: bool := false
    /** The constructor's isAudio parameter, which picks the kind of track. */
    ghost const audio: bool
    const handler: string
    const width: int
    const height: int
    const volume: real
    const timeScale: int
    var samples: seq<Sample>
    var duration: int
    var syncSamples: Option<seq<int>>
    var sampleDurations: seq<int>
    var lastPresentationTimeUs: int
    var first: bool

    /** The sample table as a value. */
    function State(): (s: TrackState)
      reads this
      ensures s.samples == samples && s.syncSamples == syncSamples
    {
      TrackState(samples, duration, syncSamples, timeScale, sampleDurations, lastPresentationTimeUs, first)
    }

    ghost function LastDuration(): (d: int)
      ensures d == AUDIO_LAST_DURATION || d == VIDEO_LAST_DURATION
    {
      if audio then AUDIO_LAST_DURATION else VIDEO_LAST_DURATION
    }

    ghost predicate Valid()
      reads this
    {
      TableInvariant(State(), LastDuration()) && (syncSamples.Some? <==> !audio)
    }

    /**
     * The same initial tables as the Kotlin track. Unboxing the missing frequency index of an
     * unknown sample rate throws.
     */
    constructor (id: int, format: TrackFormat, isAudioTrack: bool)
      requires isAudioTrack ==> format.sampleRate in SAMPLING_FREQUENCY_INDEX
      ensures Valid()
      ensures trackId == id && audio == isAudioTrack && !isAudio
      ensures !isAudioTrack ==> (State() == InitialState(VIDEO_LAST_DURATION, VIDEO_TIME_SCALE, true)
        && handler == "vide" && width == format.width && height == format.height && volume == 0.0)
      ensures isAudioTrack ==> (State() == InitialState(AUDIO_LAST_DURATION, format.sampleRate, false)
        && handler == "soun" && width == 0 && height == 0 && volume == 1.0)
    {
      trackId := id;
      audio := isAudioTrack;
      samples := [];
      lastPresentationTimeUs := 0;
      first := true;
      if !isAudioTrack {
        sampleDurations := [VIDEO_LAST_DURATION];
        duration := VIDEO_LAST_DURATION;
        width := format.width;
        height := format.height;
        timeScale := VIDEO_TIME_SCALE;
        syncSamples := Some([]);
        handler := "vide";
        volume := 0.0;
      } else {
        sampleDurations := [AUDIO_LAST_DURATION];
        duration := AUDIO_LAST_DURATION;
        width := 0;
        height := 0;
        volume := 1.0;
        timeScale := format.sampleRate;
        syncSamples := None;
        handler := "soun";
      }
      new;
      InitialStateValid(LastDuration(), timeScale, !isAudioTrack);
    }

    /**
     * addSample: since `isAudio` is false, the sync flag alone makes a sample a sync frame; the
     * table changes as SampleTable.AddSample says, which keeps the invariant.
     */
    method AddSample(offset: int, info: BufferInfo)
      requires Valid() && IsLong(info.presentationTimeUs)
      modifies this
      ensures Valid()
      ensures State() == SampleTable.AddSample(old(State()), offset, info, HasSyncFlag(info))
    {
      var isSyncFrame := !isAudio && HasSyncFlag(info);
      ghost var prev := State();
      samples := samples + [Sample(offset, info.size)];
      if syncSamples.Some? && isSyncFrame {
        syncSamples := Some(syncSamples.value + [|samples|]);
      }
      var delta := RoundedDelta(info.presentationTimeUs, lastPresentationTimeUs, timeScale);
      lastPresentationTimeUs := info.presentationTimeUs;
      if !first {
        var n := |sampleDurations|;
        sampleDurations := sampleDurations[..n - 1] + [delta] + [sampleDurations[n - 1]];
        duration := Wrap64(duration + delta);
      }
      first := false;
      assert State() == SampleTable.AddSample(prev, offset, info, isSyncFrame);
      AddSampleKeepsInvariant(prev, LastDuration(), offset, info, isSyncFrame);
    }

    /** getSyncSamples: null for an absent or empty list, otherwise a copy in the same order. */
    method GetSyncSamples() returns (r: Option<array<int>>)
      ensures r.None? <==> SyncSampleTable(State()).None?
      ensures r.Some? ==> fresh(r.value) && r.value[..] == SyncSampleTable(State()).value
    {
      if syncSamples.None? || |syncSamples.value| == 0 {
        return None;
      }
      var list := syncSamples.value;
      var copy := new int[|list|];
      var i := 0;
      while i < |list|
        invariant 0 <= i <= |list|
        invariant copy[..i] == list[..i]
      {
        copy[i] := list[i];
        i := i + 1;
      }
      return Some(copy);
    }
  }
}
