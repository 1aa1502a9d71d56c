/**
 * The string and argument checks of VideoCompressor.kt: the name the output video gets, the
 * checks `start` makes of its arguments, and the quality levels a configuration chooses from.
 */
module VideoCompressor {
  import opened Wrappers

  /** The quality levels, from the largest output to the smallest. */
  datatype VideoQuality = VeryHigh | High | Medium | Low | VeryLow

  /** Whether `sub` occurs in `s` starting at index i. */
  predicate OccursAt(s: string, sub: string, i: int)
  {
    0 <= i <= |s| - |sub| && s[i..i + |sub|] == sub
  }

  /** Whether `sub` occurs in `s` as a contiguous piece (Kotlin's String.contains). */
  predicate Contains(s: string, sub: string)
  {
    exists i :: 0 <= i <= |s| - |sub| && OccursAt(s, sub, i)
  }

  /** The suffix a streamable video's intermediate file gets. */
  const TEMP_SUFFIX: string := "_temp"
  /** The text every name is made to contain. */
  const MP4: string := "mp4"

  /**
   * validatedFileName: "_temp" is appended when isStreamable is true (null counts as false),
   * and then ".mp4" unless the name already contains "mp4" somewhere.
   */
  function ValidatedFileName(name: string, isStreamable: Option<bool>): (r: string)
  {
    var videoName := if isStreamable == None || !isStreamable.value then name else name + TEMP_SUFFIX;
    if !Contains(videoName, MP4) then videoName + ".mp4" else videoName
  }

  /** Text that contains a piece still contains it with more text after it. */
  lemma {:induction false} ContainsExtended(s: string, sub: string, t: string)
    requires Contains(s, sub)
    ensures Contains(s + t, sub)
  {
    var i :| 0 <= i <= |s| - |sub| && OccursAt(s, sub, i);
    assert (s + t)[i..i + |sub|] == s[i..i + |sub|];
    assert OccursAt(s + t, sub, i);
  }

  /**
   * The name gains "_temp" exactly when isStreamable is true, and ".mp4" exactly when that name
   * lacks "mp4"; either way the result contains "mp4".
   */
  lemma {:induction false} ValidatedFileNameShape(name: string, isStreamable: Option<bool>)
    ensures var videoName := if isStreamable == Some(true) then name + TEMP_SUFFIX else name;
      var r := ValidatedFileName(name, isStreamable);
      (Contains(videoName, MP4) ==> r == videoName)
      && (!Contains(videoName, MP4) ==> r == videoName + ".mp4")
      && Contains(r, MP4)
  {
    var videoName := if isStreamable == Some(true) then name + TEMP_SUFFIX else name;
    var r := ValidatedFileName(name, isStreamable);
    if !Contains(videoName, MP4) {
      assert r[|videoName| + 1..|videoName| + 4] == MP4;
      assert OccursAt(r, MP4, |videoName| + 1);
    }
  }

  /** For names of videos that are not made streamable, validating twice is validating once. */
  lemma {:induction false} ValidatedFileNameIdempotent(name: string, isStreamable: Option<bool>)
    requires isStreamable != Some(true)
    ensures ValidatedFileName(ValidatedFileName(name, isStreamable), isStreamable)
         == ValidatedFileName(name, isStreamable)
  {
    ValidatedFileNameShape(name, isStreamable);
  }

  /** The exception a failing Kotlin `assert` throws when the runtime enables assertions. */
  const ASSERTION_ERROR: string := "AssertionError"

  /**
   * The two asserts at the head of `start`: at most one of the two storage configurations is
   * given, and there is one video name per URI. Kotlin's `assert` checks only when the runtime
   * enables assertions; otherwise both pass whatever the arguments.
   */
  function StartChecks(hasSharedStorage: bool, hasAppSpecificStorage: bool, nameCount: nat, uriCount: nat,
                       assertionsEnabled: bool): (r: Result<(), string>)
  {
    if assertionsEnabled && hasSharedStorage && hasAppSpecificStorage then Err(ASSERTION_ERROR)
    else if assertionsEnabled && nameCount != uriCount then Err(ASSERTION_ERROR)
    else Ok(())
  }

  /** With assertions enabled, `start` goes on exactly when both requirements hold. */
  lemma StartChecksExact(shared: bool, appSpecific: bool, nameCount: nat, uriCount: nat, enabled: bool)
    ensures enabled ==>
      (StartChecks(shared, appSpecific, nameCount, uriCount, enabled).Ok? <==>
         !(shared && appSpecific) && nameCount == uriCount)
    ensures !enabled ==> StartChecks(shared, appSpecific, nameCount, uriCount, enabled).Ok?
  {
  }
}
