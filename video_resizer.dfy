/**
 * The resizers of config/VideoResizer.kt: given the input's width and height, each gives the
 * output's. LimitDimension shrinks to a box only when the input does not fit inside it,
 * MatchDimension fits the input to a box (or stretches it onto the box), ScaleResize multiplies
 * both sides by one factor, which `auto` takes from the band table. Doubles are modelled as
 * reals.
 */
module VideoResizer {
  import opened Wrappers
  import CompressorUtils

  datatype Resizer =
    | LimitDimension(maxWidth: real, maxHeight: real)
    | MatchDimension(targetWidth: real, targetHeight: real, stretch: bool)
    | ScaleResize(percentage: Option<real>)

  /** `auto`: a scale resizer without a factor, which then takes it from the band table. */
  const Auto: Resizer := ScaleResize(None)

  /** `scale(value)`: a resizer that multiplies both sides by value. */
  function Scale(value: real): (r: Resizer)
    ensures r.ScaleResize? && forall width, height ::
      Resize(r, width, height).0 == width * value && Resize(r, width, height).1 == height * value
  {
    ScaleResize(Some(value))
  }

  /** `limitSize(limit)`. */
  function LimitSize(limit: real): (r: Resizer)
  {
    LimitDimension(limit, limit)
  }

  /** `limitSize(maxWidth, maxHeight)`. */
  function LimitSizeTo(maxWidth: real, maxHeight: real): (r: Resizer)
  {
    LimitDimension(maxWidth, maxHeight)
  }

  /** `matchSize(size, stretch)`. */
  function MatchSize(size: real, stretch: bool): (r: Resizer)
  {
    MatchDimension(size, size, stretch)
  }

  /** `matchSize(width, height, stretch)`. */
  function MatchSizeTo(width: real, height: real, stretch: bool): (r: Resizer)
  {
    MatchDimension(width, height, stretch)
  }

  /** The single-value factories use their value for both sides. */
  lemma SingleValueFactories(limit: real, size: real, stretch: bool)
    ensures LimitSize(limit) == LimitSizeTo(limit, limit)
    ensures MatchSize(size, stretch) == MatchSizeTo(size, size, stretch)
  {
  }

  /**
   * keepAspect: the input's aspect ratio fitted to the box newWidth x newHeight, filling the
   * box's width when the box is relatively narrower than the input and its height otherwise.
   */
  function KeepAspect(width: real, height: real, newWidth: real, newHeight: real): (r: (real, real))
    requires width != 0.0 && height != 0.0 && newHeight != 0.0
  {
    var desiredAspect := width / height;
    var videoAspect := newWidth / newHeight;
    if videoAspect <= desiredAspect then (newWidth, newWidth / desiredAspect)
    else (newHeight * desiredAspect, newHeight)
  }

  /**
   * For positive sides, keepAspect keeps the input's aspect ratio, fits inside the box, and
   * fills the box along one side.
   */
  lemma {:induction false} KeepAspectFits(width: real, height: real, newWidth: real, newHeight: real)
    requires width > 0.0 && height > 0.0 && newWidth > 0.0 && newHeight > 0.0
    ensures var r := KeepAspect(width, height, newWidth, newHeight);
      r.0 * height == r.1 * width
      && r.0 <= newWidth && r.1 <= newHeight
      && (r.0 == newWidth || r.1 == newHeight)
  {
    var d := width / height;
    var v := newWidth / newHeight;
    assert d * height == width;
    assert v * newHeight == newWidth;
    if v <= d {
      var y := newWidth / d;
      assert y * d == newWidth;
      assert y * width == y * d * height == newWidth * height;
      assert y <= newHeight by {
        assert newWidth == v * newHeight <= d * newHeight;
        assert y * d <= newHeight * d;
      }
    } else {
      var x := newHeight * d;
      assert x * height == newHeight * width;
      assert x <= newWidth by {
        assert newHeight * d < newHeight * v;
      }
    }
  }

  /** Whether `resize` on these sides divides by a zero side or by a zero aspect ratio. */
  predicate Resizable(r: Resizer, width: real, height: real)
  {
    match r
    case LimitDimension(mw, mh) => (width < mw && height < mh) || (width != 0.0 && height != 0.0 && mh != 0.0)
    case MatchDimension(tw, th, stretch) => stretch || (width != 0.0 && height != 0.0 && th != 0.0)
    case ScaleResize(_) => true
  }

  /** `resize(width, height)` of each resizer. */
  function Resize(r: Resizer, width: real, height: real): (out: (real, real))
    requires Resizable(r, width, height)
  {
    match r
    case LimitDimension(mw, mh) =>
      if width < mw && height < mh then (width, height) else KeepAspect(width, height, mw, mh)
    case MatchDimension(tw, th, stretch) =>
      if stretch then (tw, th) else KeepAspect(width, height, tw, th)
    case ScaleResize(percentage) =>
      var p := if percentage.Some? then percentage.value else CompressorUtils.AutoResizePercentage(width, height);
      (width * p, height * p)
  }

  /**
   * A limit leaves an input that fits strictly inside it unchanged, and fits any other
   * positive input to the box with its aspect ratio kept; the result is never larger than the
   * input's box or the limit's.
   */
  lemma {:induction false} LimitDimensionResize(maxWidth: real, maxHeight: real, width: real, height: real)
    requires width > 0.0 && height > 0.0 && maxWidth > 0.0 && maxHeight > 0.0
    ensures var r := Resize(LimitDimension(maxWidth, maxHeight), width, height);
      (width < maxWidth && height < maxHeight ==> r == (width, height))
      && r.0 <= maxWidth && r.1 <= maxHeight && r.0 * height == r.1 * width
      && r.0 <= width && r.1 <= height
  {
    KeepAspectFits(width, height, maxWidth, maxHeight);
    var r := Resize(LimitDimension(maxWidth, maxHeight), width, height);
    if width >= maxWidth {
      assert r.1 * width == r.0 * height <= width * height;
    } else if height >= maxHeight {
      assert r.0 * height == r.1 * width <= height * width;
    }
  }

  /**
   * A match without stretching fits a positive input to the target box with its aspect ratio
   * kept, filling the box along one side.
   */
  lemma MatchDimensionFits(targetWidth: real, targetHeight: real, width: real, height: real)
    requires width > 0.0 && height > 0.0 && targetWidth > 0.0 && targetHeight > 0.0
    ensures var r := Resize(MatchDimension(targetWidth, targetHeight, false), width, height);
      r.0 * height == r.1 * width && r.0 <= targetWidth && r.1 <= targetHeight
      && (r.0 == targetWidth || r.1 == targetHeight)
  {
    KeepAspectFits(width, height, targetWidth, targetHeight);
  }

  /** A stretching match gives exactly the target sides, whatever the input. */
  lemma MatchDimensionStretch(targetWidth: real, targetHeight: real, width: real, height: real)
    ensures Resize(MatchDimension(targetWidth, targetHeight, true), width, height) == (targetWidth, targetHeight)
  {
  }

  /**
   * A scale resizer multiplies both sides by the same factor, its own or for `auto` the band
   * table's factor for the input, so it keeps the aspect ratio.
   */
  lemma {:induction false} ScaleResizeFactor(percentage: Option<real>, width: real, height: real)
    ensures var p := if percentage.Some? then percentage.value else CompressorUtils.AutoResizePercentage(width, height);
      var o := Resize(ScaleResize(percentage), width, height);
      o.0 == width * p && o.1 == height * p && o.0 * height == o.1 * width
  {
    var p := if percentage.Some? then percentage.value else CompressorUtils.AutoResizePercentage(width, height);
    var o := Resize(ScaleResize(percentage), width, height);
    if percentage.Some? {
      assert o.0 == width * p && o.1 == height * p;
    } else {
      assert o.0 == width * p && o.1 == height * p;
    }
    assert width * p * height == height * p * width;
  }
}
