/**
 * What both versions of the muxer's Track (video/Track.kt and the older Track.java) record per
 * sample: the samples themselves (Sample.kt), the 1-based numbers of the sync samples (the Sync
 * Sample Box, section 8.6.2 of ISO/IEC 14496-12), and the durations of the time-to-sample table.
 * The two Track modules share this vocabulary and the invariant their addSample keeps.
 */
module SampleTable {
  import opened Jvm
  import opened Wrappers

  /** Sample.kt: where a sample's bytes start in the output file, and how many there are. */
  datatype Sample = Sample(offset: int, size: int)

  /** The duration a new video track's table starts with and keeps as its last entry. */
  const VIDEO_LAST_DURATION: int := 3015
  /** The duration a new audio track's table starts with and keeps as its last entry. */
  const AUDIO_LAST_DURATION: int := 1024
  /** Ticks per second of a video track. */
  const VIDEO_TIME_SCALE: int := 90000

  /**
   * The sampling frequencies of the samplingFrequencyIndex field of an AudioSpecificConfig, in
   * index order (section 1.6.3.4 of ISO/IEC 14496-3); indices 13 to 15 are not frequencies.
   */
  const STANDARD_SAMPLING_FREQUENCIES: seq<int> :=
    [96000, 88200, 64000, 48000, 44100, 32000, 24000, 22050, 16000, 12000, 11025, 8000, 7350]

  /** The entries of a Track's MediaFormat that the sample table depends on. */
  datatype TrackFormat = TrackFormat(width: int, height: int, sampleRate: int)

  /**
   * What the codec reports about one encoded sample (Android's MediaCodec.BufferInfo): its size
   * in bytes, its presentation time in microseconds and its flag bits.
   */
  datatype BufferInfo = BufferInfo(size: int, presentationTimeUs: int, flags: int)

  /**
   * `flags and BUFFER_FLAG_SYNC_FRAME != 0`, where Android's BUFFER_FLAG_SYNC_FRAME is 1: the low
   * bit of the two's-complement flags, which is the Euclidean remainder by 2 for every Int.
   */
  predicate HasSyncFlag(info: BufferInfo)
  {
    info.flags % 2 == 1
  }

  /** The fields of a Track that addSample reads or changes. */
  datatype TrackState = TrackState(
    samples: seq<Sample>,
    duration: int,
    syncSamples: Option<seq<int>>,
    timeScale: int,
    sampleDurations: seq<int>,
    lastPresentationTimeUs: int,
    first: bool)

  /**
   * The sample table of a freshly built track: no samples, one duration entry equal to the
   * duration, an empty sync list for video and none for audio.
   */
  function InitialState(lastDuration: int, timeScale: int, withSyncList: bool): (s: TrackState)
    ensures s.samples == [] && s.first
  {
    TrackState([], lastDuration, if withSyncList then Some([]) else None, timeScale, [lastDuration], 0, true)
  }

  /** The sum of a sequence, adding its elements from the front. */
  function Sum(s: seq<int>): int
  {
    if s == [] then 0 else Sum(s[..|s| - 1]) + s[|s| - 1]
  }

  /** A duration inserted just before the last entry adds itself to the sum. */
  lemma {:induction false} SumInsertBeforeLast(d: seq<int>, x: int)
    requires |d| >= 1
    ensures Sum(d[..|d| - 1] + [x] + [d[|d| - 1]]) == Sum(d) + x
  {
    var a := d[..|d| - 1];
    var e := a + [x] + [d[|d| - 1]];
    assert e[..|e| - 1] == a + [x];
    assert (a + [x])[..|a|] == a;
  }

  /** Sync sample numbers: strictly increasing, each the number of an existing sample. */
  predicate SyncNumbersValid(sync: seq<int>, n: int)
  {
    (forall i :: 0 <= i < |sync| ==> 1 <= sync[i] <= n)
    && (forall i, j :: 0 <= i < j < |sync| ==> sync[i] < sync[j])
  }

  /** A list of valid sync numbers stays valid when one more sample is added. */
  lemma SyncNumbersGrow(sync: seq<int>, n: int)
    requires n >= 0 && SyncNumbersValid(sync, n)
    ensures SyncNumbersValid(sync, n + 1)
    ensures SyncNumbersValid(sync + [n + 1], n + 1)
  {
    var t := sync + [n + 1];
    forall i | 0 <= i < |t|
      ensures 1 <= t[i] <= n + 1
    {
      if i < |sync| {
        assert t[i] == sync[i];
      }
    }
    forall i, j | 0 <= i < j < |t|
      ensures t[i] < t[j]
    {
      if j == |sync| {
        assert t[i] == sync[i] <= n;
      }
    }
  }

  /**
   * The accounting both addSample versions keep: the duration is the sum of the table (in Long
   * arithmetic), the table is one entry longer than the samples before the first one and as
   * long as them after it, its last entry is the track's initial duration, and the sync numbers
   * name samples in increasing order.
   */
  predicate TableInvariant(s: TrackState, lastDuration: int)
  {
    IsLong(s.duration) && IsLong(s.lastPresentationTimeUs) && IsInt(s.timeScale)
    && |s.sampleDurations| >= 1
    && s.sampleDurations[|s.sampleDurations| - 1] == lastDuration
    && s.duration == Wrap64(Sum(s.sampleDurations))
    && (s.first <==> s.samples == [])
    && |s.sampleDurations| == (if s.samples == [] then 1 else |s.samples|)
    && (s.syncSamples.Some? ==> SyncNumbersValid(s.syncSamples.value, |s.samples|))
  }

  /**
   * The duration of the interval between two presentation times, in the track's timescale:
   * (delta * timeScale + 500000) / 1000000 in Long arithmetic, with Java's division, which
   * truncates toward zero.
   */
  function RoundedDelta(presentationTimeUs: int, lastPresentationTimeUs: int, timeScale: int): (delta: int)
    ensures IsLong(delta)
  {
    var d := Wrap64(presentationTimeUs - lastPresentationTimeUs);
    var x := Wrap64(Wrap64(d * timeScale) + 500000);
    Div(x, 1000000)
  }

  /**
   * Without Long overflow, a non-negative interval is rounded to the nearest tick, halves up;
   * an interval whose scaled value is below -500000 is rounded toward zero instead, so that a
   * step back in time of 1.7 ticks counts as -1 tick rather than -2.
   */
  lemma {:induction false} RoundedDeltaRounds(pts: int, last: int, timeScale: int)
    requires IsLong(pts - last)
    requires LONG_MIN <= (pts - last) * timeScale && (pts - last) * timeScale + 500000 <= LONG_MAX
    ensures var x := (pts - last) * timeScale;
      var delta := RoundedDelta(pts, last, timeScale);
      (x + 500000 >= 0 ==> x - 500000 < delta * 1000000 <= x + 500000)
      && (x + 500000 < 0 ==> x + 500000 <= delta * 1000000 < x + 1500000)
  {
    var x := (pts - last) * timeScale;
    assert Wrap64(pts - last) == pts - last;
    assert Wrap64(x) == x;
  }

  /** Adding an interval to a Long duration and wrapping keeps it the wrapped sum of the table. */
  lemma {:induction false} DurationTracksSum(d: seq<int>, duration: int, delta: int)
    requires |d| >= 1 && duration == Wrap64(Sum(d))
    ensures Wrap64(duration + delta) == Wrap64(Sum(d[..|d| - 1] + [delta] + [d[|d| - 1]]))
  {
    SumInsertBeforeLast(d, delta);
    Wrap64Add(Sum(d), delta);
  }

  /**
   * addSample on the sample table, given whether the sample counts as a sync frame: append the
   * sample, append its 1-based number to the sync list when there is one and the sample is a
   * sync frame, and, unless this is the first sample, insert the rounded interval since the
   * previous sample before the last duration entry and add it to the duration.
   */
  function AddSample(s: TrackState, offset: int, info: BufferInfo, isSyncFrame: bool): (r: TrackState)
    requires |s.sampleDurations| >= 1
    ensures r.samples == s.samples + [Sample(offset, info.size)]
    ensures |r.sampleDurations| >= 1
  {
    var samples := s.samples + [Sample(offset, info.size)];
    var sync := if s.syncSamples.Some? && isSyncFrame then Some(s.syncSamples.value + [|samples|]) else s.syncSamples;
    var delta := RoundedDelta(info.presentationTimeUs, s.lastPresentationTimeUs, s.timeScale);
    var n := |s.sampleDurations|;
    var durations := if s.first then s.sampleDurations else s.sampleDurations[..n - 1] + [delta] + [s.sampleDurations[n - 1]];
    var duration := if s.first then s.duration else Wrap64(s.duration + delta);
    TrackState(samples, duration, sync, s.timeScale, durations, info.presentationTimeUs, false)
  }

  /** A new track's table satisfies the accounting invariant. */
  lemma {:induction false} InitialStateValid(lastDuration: int, timeScale: int, withSyncList: bool)
    requires IsLong(lastDuration) && IsInt(timeScale)
    ensures TableInvariant(InitialState(lastDuration, timeScale, withSyncList), lastDuration)
  {
    var d := [lastDuration];
    assert d[..0] == [];
    assert Sum(d) == Sum(d[..0]) + d[0];
  }

  /**
   * What one addSample does to the table: the samples so far are kept and the new one comes
   * last; the sync list grows by the new sample's number exactly when the sample is a sync
   * frame and the list exists; the first sample adds no duration; every later one adds its
   * rounded interval to the sum of the durations while the last entry stays put; and the
   * presentation time becomes the one just seen.
   */
  lemma {:induction false} AddSampleEffect(s: TrackState, offset: int, info: BufferInfo, isSyncFrame: bool)
    requires |s.sampleDurations| >= 1
    ensures var r := AddSample(s, offset, info, isSyncFrame);
      var n := |s.sampleDurations|;
      var delta := RoundedDelta(info.presentationTimeUs, s.lastPresentationTimeUs, s.timeScale);
      r.samples[..|s.samples|] == s.samples
      && r.syncSamples.Some? == s.syncSamples.Some?
      && (r.syncSamples.Some? ==>
            r.syncSamples.value == s.syncSamples.value + (if isSyncFrame then [|r.samples|] else []))
      && !r.first && r.lastPresentationTimeUs == info.presentationTimeUs
      && |r.sampleDurations| == (if s.first then n else n + 1)
      && r.sampleDurations[|r.sampleDurations| - 1] == s.sampleDurations[n - 1]
      && Sum(r.sampleDurations) == Sum(s.sampleDurations) + (if s.first then 0 else delta)
      && r.duration == (if s.first then s.duration else Wrap64(s.duration + delta))
  {
    var r := AddSample(s, offset, info, isSyncFrame);
    assert r.samples[..|s.samples|] == s.samples;
    if !s.first {
      var delta := RoundedDelta(info.presentationTimeUs, s.lastPresentationTimeUs, s.timeScale);
      SumInsertBeforeLast(s.sampleDurations, delta);
    }
  }

  /**
   * addSample keeps the accounting invariant: the duration stays the (Long) sum of the
   * durations, the last entry stays the initial one, there are as many entries as samples once
   * a sample exists, and the sync numbers stay increasing and within the samples.
   */
  lemma {:induction false} AddSampleKeepsInvariant(s: TrackState, lastDuration: int, offset: int, info: BufferInfo, isSyncFrame: bool)
    requires TableInvariant(s, lastDuration) && IsLong(info.presentationTimeUs)
    ensures TableInvariant(AddSample(s, offset, info, isSyncFrame), lastDuration)
  {
    var r := AddSample(s, offset, info, isSyncFrame);
    AddSampleEffect(s, offset, info, isSyncFrame);
    var delta := RoundedDelta(info.presentationTimeUs, s.lastPresentationTimeUs, s.timeScale);
    assert r.duration == Wrap64(Sum(r.sampleDurations)) by {
      if !s.first {
        Wrap64Add(Sum(s.sampleDurations), delta);
      }
    }
    assert r.syncSamples.Some? ==> SyncNumbersValid(r.syncSamples.value, |r.samples|) by {
      if s.syncSamples.Some? {
        SyncNumbersGrow(s.syncSamples.value, |s.samples|);
      }
    }
  }

  /** The table after feeding a sequence of samples to addSample, one by one. */
  function Replay(s: TrackState, feed: seq<(int, BufferInfo, bool)>): (r: TrackState)
    requires |s.sampleDurations| >= 1
    ensures |r.sampleDurations| >= 1
    decreases |feed|
  {
    if feed == [] then s else Replay(AddSample(s, feed[0].0, feed[0].1, feed[0].2), feed[1..])
  }

  /** Any number of addSample calls keeps the accounting invariant. */
  lemma {:induction false} ReplayKeepsInvariant(s: TrackState, lastDuration: int, feed: seq<(int, BufferInfo, bool)>)
    requires TableInvariant(s, lastDuration)
    requires forall k :: 0 <= k < |feed| ==> IsLong(feed[k].1.presentationTimeUs)
    ensures TableInvariant(Replay(s, feed), lastDuration)
    decreases |feed|
  {
    if feed != [] {
      AddSampleKeepsInvariant(s, lastDuration, feed[0].0, feed[0].1, feed[0].2);
      ReplayKeepsInvariant(AddSample(s, feed[0].0, feed[0].1, feed[0].2), lastDuration, feed[1..]);
    }
  }

  /** The samples a feed describes, in order. */
  function FedSamples(feed: seq<(int, BufferInfo, bool)>): (r: seq<Sample>)
    ensures |r| == |feed|
    ensures forall k :: 0 <= k < |feed| ==> r[k] == Sample(feed[k].0, feed[k].1.size)
  {
    if feed == [] then [] else [Sample(feed[0].0, feed[0].1.size)] + FedSamples(feed[1..])
  }

  /**
   * After n >= 1 calls of addSample on a new track, there are n samples, in the order they were
   * added, and n duration entries; with no call the table still holds its single entry.
   */
  lemma {:induction false} ReplayCounts(s: TrackState, lastDuration: int, feed: seq<(int, BufferInfo, bool)>)
    requires TableInvariant(s, lastDuration) && s.samples == []
    requires forall k :: 0 <= k < |feed| ==> IsLong(feed[k].1.presentationTimeUs)
    ensures var r := Replay(s, feed);
      r.samples == FedSamples(feed)
      && |r.sampleDurations| == (if feed == [] then 1 else |feed|)
  {
    ReplaySamples(s, feed);
    ReplayKeepsInvariant(s, lastDuration, feed);
  }

  /** Replaying a feed appends one sample per element, in order. */
  lemma {:induction false} ReplaySamples(s: TrackState, feed: seq<(int, BufferInfo, bool)>)
    requires |s.sampleDurations| >= 1
    ensures Replay(s, feed).samples == s.samples + FedSamples(feed)
    decreases |feed|
  {
    if feed != [] {
      var s1 := AddSample(s, feed[0].0, feed[0].1, feed[0].2);
      ReplaySamples(s1, feed[1..]);
      assert FedSamples(feed) == [Sample(feed[0].0, feed[0].1.size)] + FedSamples(feed[1..]);
    } else {
      assert s.samples + [] == s.samples;
    }
  }

  /**
   * getSyncSamples: absent when the track has no sync list or an empty one, otherwise the list
   * itself.
   */
  function SyncSampleTable(s: TrackState): (r: Option<seq<int>>)
    ensures r.None? <==> (s.syncSamples.None? || s.syncSamples.value == [])
  {
    if s.syncSamples.None? || s.syncSamples.value == [] then None else s.syncSamples
  }

  /**
   * The table getSyncSamples returns for a valid track is what the Sync Sample Box needs:
   * sample numbers from 1 up to the number of samples, strictly increasing.
   */
  lemma {:induction false} SyncSampleTableValid(s: TrackState, lastDuration: int)
    requires TableInvariant(s, lastDuration)
    ensures var t := SyncSampleTable(s);
      t.Some? ==> |t.value| >= 1 && SyncNumbersValid(t.value, |s.samples|) && t == s.syncSamples
  {
  }
}
