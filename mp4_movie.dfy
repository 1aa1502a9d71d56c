/**
 * The movie of Mp4Movie.java: the list of tracks the muxer writes, the display matrix chosen
 * from the rotation, and the file the samples are cached in.
 */
module Mp4Movie {
  import opened Jvm
  import opened Wrappers
  import opened SampleTable
  import LegacyTrack

  /** The four display matrices of mp4parser's Matrix class the movie can hold. */
  datatype Matrix = Rotate0 | Rotate90 | Rotate180 | Rotate270

  /** setRotation: the matrix for a right angle of 0, 90, 180 or 270 degrees; any other angle keeps the current one. */
  function RotationMatrix(angle: int, current: Matrix): (m: Matrix)
  {
    if angle == 0 then Rotate0
    else if angle == 90 then Rotate90
    else if angle == 180 then Rotate180
    else if angle == 270 then Rotate270
    else current
  }

  /** The angle, in degrees, a matrix turns the picture by. */
  function MatrixAngle(m: Matrix): (angle: int)
    ensures angle % 90 == 0 && 0 <= angle < 360
  {
    match m
    case Rotate0 => 0
    case Rotate90 => 90
    case Rotate180 => 180
    case Rotate270 => 270
  }

  /**
   * setRotation picks the matrix that turns by exactly the given angle when the angle is one of
   * the four right angles, every matrix is reachable that way, and any other angle leaves the
   * matrix as it was.
   */
  lemma RotationMatrixAngle(angle: int, current: Matrix)
    ensures (angle == 0 || angle == 90 || angle == 180 || angle == 270) ==>
      MatrixAngle(RotationMatrix(angle, current)) == angle
    ensures !(angle == 0 || angle == 90 || angle == 180 || angle == 270) ==>
      RotationMatrix(angle, current) == current
    ensures RotationMatrix(MatrixAngle(current), Rotate0) == current
  {
  }

  class Movie {
    var matrix: Matrix
    var tracks: seq<LegacyTrack.Track>
    var cacheFile: Option<string>

    /** Every track's id is its index in the list, and every track keeps its own invariant. */
    ghost predicate Valid()
      reads this, tracks
    {
      forall i :: 0 <= i < |tracks| ==> tracks[i].trackId == i && tracks[i].Valid()
    }

    /** A new movie has no tracks, no cache file and the unrotated matrix. */
    constructor ()
      ensures Valid()
      ensures matrix == Rotate0 && tracks == [] && cacheFile == None
    {
      matrix := Rotate0;
      tracks := [];
      cacheFile := None;
    }

    function GetMatrix(): (m: Matrix)
      reads this
    {
      matrix
    }

    method SetCacheFile(file: string)
      modifies this
      ensures GetCacheFile() == Some(file)
      ensures matrix == old(matrix) && tracks == old(tracks)
    {
      cacheFile := Some(file);
    }

    function GetCacheFile(): (f: Option<string>)
      reads this
    {
      cacheFile
    }

    method SetRotation(angle: int)
      modifies this
      ensures GetMatrix() == RotationMatrix(angle, old(matrix))
      ensures tracks == old(tracks) && cacheFile == old(cacheFile)
    {
      if angle == 0 {
        matrix := Rotate0;
      } else if angle == 90 {
        matrix := Rotate90;
      } else if angle == 180 {
        matrix := Rotate180;
      } else if angle == 270 {
        matrix := Rotate270;
      }
    }

    /**
     * addSample: an index outside the track list is ignored; otherwise the indexed track adds
     * the sample and every other track stays as it was.
     */
    method AddSample(trackIndex: int, offset: int, info: BufferInfo)
      requires Valid() && IsLong(info.presentationTimeUs)
      modifies if 0 <= trackIndex < |tracks| then {tracks[trackIndex]} else {}
      ensures Valid()
      ensures 0 <= trackIndex < |tracks| ==>
        tracks[trackIndex].State() == SampleTable.AddSample(old(tracks[trackIndex].State()), offset, info, HasSyncFlag(info))
      ensures forall j :: 0 <= j < |tracks| && j != trackIndex ==> tracks[j].State() == old(tracks[j].State())
    {
      if trackIndex < 0 || trackIndex >= |tracks| {
        return;
      }
      var track := tracks[trackIndex];
      track.AddSample(offset, info);
    }

    /**
     * addTrack: the new track gets the next index as its id, is appended to the list, and that
     * index is returned, so ids are 0, 1, 2, ... in creation order.
     */
    method AddTrack(format: TrackFormat, isAudio: bool) returns (index: int)
      requires Valid()
      requires isAudio ==> format.sampleRate in LegacyTrack.SAMPLING_FREQUENCY_INDEX
      modifies this
      ensures Valid()
      ensures index == |old(tracks)| && |tracks| == index + 1 && tracks[..index] == old(tracks)
      ensures fresh(tracks[index]) && tracks[index].trackId == index && tracks[index].audio == isAudio
      ensures tracks[index].State() == (if isAudio then InitialState(AUDIO_LAST_DURATION, format.sampleRate, false)
                                        else InitialState(VIDEO_LAST_DURATION, VIDEO_TIME_SCALE, true))
      ensures matrix == old(matrix) && cacheFile == old(cacheFile)
    {
      var track := new LegacyTrack.Track(|tracks|, format, isAudio);
      tracks := tracks + [track];
      index := |tracks| - 1;
    }
  }
}
