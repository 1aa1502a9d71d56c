/**
 * Two helpers of the sample app's Utils.kt: the file extension a picked video is copied under,
 * and the guard that turns a non-positive size into "0".
 */
module AppUtils {
  import opened Wrappers

  /** The extension used when the path gives none. */
  const DEFAULT_EXTENSION: string := "mp4"

  /** String.lastIndexOf for one character: the last index holding c, or -1. */
  function LastIndexOf(s: string, c: char): (r: int)
    ensures -1 <= r < |s|
    ensures r >= 0 ==> s[r] == c
    ensures forall j :: r < j < |s| ==> s[j] != c
  {
    if s == [] then -1
    else if s[|s| - 1] == c then |s| - 1
    else LastIndexOf(s[..|s| - 1], c)
  }

  /**
   * getVideoExtension over the URI's path: "." followed by the text after the last '.', or
   * ".mp4" when there is no path, no '.', or nothing after the last one.
   */
  function GetVideoExtension(path: Option<string>): (r: string)
    ensures |r| >= 1 && r[0] == '.'
  {
    var extension :=
      if path.Some? && LastIndexOf(path.value, '.') != -1 then Some(path.value[LastIndexOf(path.value, '.') + 1..])
      else None;
    if extension == None || extension.value == [] then "." + DEFAULT_EXTENSION
    else "." + extension.value
  }

  /** Whether s holds a '.' anywhere. */
  predicate HasDot(s: string)
  {
    exists i :: 0 <= i < |s| && s[i] == '.'
  }

  /**
   * The result has a single '.', at its head. When the path holds a '.' and does not end with
   * one, the result is the tail of the path that starts at a '.' and has no other: the text
   * after the last '.'. A missing path, a path without '.', or one ending in '.' gives ".mp4".
   */
  lemma {:induction false} GetVideoExtensionShape(path: Option<string>)
    ensures var r := GetVideoExtension(path);
      forall j :: 1 <= j < |r| ==> r[j] != '.'
    ensures var r := GetVideoExtension(path);
      path.Some? && HasDot(path.value) && path.value[|path.value| - 1] != '.' ==>
        |r| >= 2 && |path.value| >= |r| && path.value[|path.value| - |r|..] == r
    ensures path.None? || !HasDot(path.value) || path.value[|path.value| - 1] == '.' ==>
      GetVideoExtension(path) == ".mp4"
  {
    var r := GetVideoExtension(path);
    if path.Some? {
      var p := path.value;
      var i := LastIndexOf(p, '.');
      if HasDot(p) {
        var k :| 0 <= k < |p| && p[k] == '.';
        assert i >= k;
      }
      if i != -1 && i + 1 < |p| {
        assert r == "." + p[i + 1..];
        assert r == p[i..];
        forall j | 1 <= j < |r|
          ensures r[j] != '.'
        {
          assert r[j] == p[i + j];
        }
        return;
      }
    }
    assert r == ".mp4";
  }

  /** getFileSize's guard: a size of at most zero is shown as "0" before any unit is chosen. */
  function FileSizeGuard(size: int): (r: Option<string>)
    ensures r.Some? <==> size <= 0
    ensures r.Some? ==> r.value == "0"
  {
    if size <= 0 then Some("0") else None
  }
}
