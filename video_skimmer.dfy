/**
 * Model of the navigation state of `VideoSkimmer` in
 * src/napari_deeplabcut/video_skimmer.py: which video is loaded, how many
 * frames it has, which frame is current, and the frame slider's range and
 * bounds. The file system and the video decoder are abstracted away: file
 * existence, the frame count the decoder reports, and the success flags of
 * successive frame reads are parameters.
 */
module Skimmer {
  import opened Wrappers
  import opened Misc
  import opened Inputs

  /** `supported_video_ext` */
  const SupportedVideoExt: seq<string> := [".mp4", ".avi"]

  /** `str.rfind`: the last position of `c` in `s`, or -1. */
  function LastIndexOf(s: string, c: char): (i: int)
    ensures -1 <= i < |s|
    ensures i >= 0 ==> s[i] == c
    ensures forall j :: i < j < |s| ==> s[j] != c
  {
    if |s| == 0 then -1
    else if s[|s| - 1] == c then |s| - 1
    else LastIndexOf(s[..|s| - 1], c)
  }

  /**
   * `os.path.splitext(path)[1]` with the POSIX separator: the text from the
   * last dot of the final path component, unless that component consists of
   * dots up to that last dot (a hidden file such as `.mp4` has no extension).
   */
  function Ext(p: string): string {
    var sepIndex := LastIndexOf(p, '/');
    var dotIndex := LastIndexOf(p, '.');
    if dotIndex > sepIndex && exists k :: sepIndex < k < dotIndex && p[k] != '.' then p[dotIndex..]
    else ""
  }

  /**
   * `is_supported_file`: the lower-cased extension is one of the supported
   * ones. A supported extension is a dot and three characters, taken from
   * the end of the path.
   */
  predicate IsSupportedFile(path: string): (b: bool)
    ensures b ==>
              |Ext(path)| == 4 && Ext(path)[0] == '.' && Ext(path) == path[|path| - 4..]
  {
    Lower(Ext(path)) in SupportedVideoExt
  }

  /**
   * A supported path ends in a supported extension, in any letter case,
   * preceded by a file name that is not only dots.
   */
  lemma SupportedFileEndsWithVideoExt(p: string)
    requires IsSupportedFile(p)
    ensures |p| >= 5
    ensures Lower(p[|p| - 4..]) in SupportedVideoExt
    ensures p[|p| - 5] != '/'
  {
    var sepIndex := LastIndexOf(p, '/');
    var dotIndex := LastIndexOf(p, '.');
    var e := Ext(p);
    assert e != "";
    assert e == p[dotIndex..];
    assert |e| == 4;
    var k :| sepIndex < k < dotIndex && p[k] != '.';
    assert dotIndex == |p| - 4;
  }

  /**
   * A file name whose last component is not only dots, followed by an
   * extension (a dot, then no dot and no separator), is supported exactly
   * when the lower-cased extension is.
   */
  lemma NamedFileSupportedIffExt(stem: string, e: string)
    requires exists k :: LastIndexOf(stem, '/') < k < |stem| && stem[k] != '.'
    requires |e| >= 1 && e[0] == '.' && '.' !in e[1..] && '/' !in e
    ensures Ext(stem + e) == e
    ensures IsSupportedFile(stem + e) <==> Lower(e) in SupportedVideoExt
  {
    var p := stem + e;
    ExtensionDotIsLast(stem, e);
    SeparatorFreeSuffix(stem, e);
    LastIndexOfPrefix(stem, e, '/');
    var k :| LastIndexOf(stem, '/') < k < |stem| && stem[k] != '.';
    assert p[k] == stem[k];
    assert p[|stem|..] == e;
  }

  /** The dot opening the extension is the last dot of `stem + e`. */
  lemma ExtensionDotIsLast(stem: string, e: string)
    requires |e| >= 1 && e[0] == '.' && '.' !in e[1..]
    ensures LastIndexOf(stem + e, '.') == |stem|
  {
    var p := stem + e;
    forall j | |stem| < j < |p|
      ensures p[j] != '.'
    {
      assert p[j] == e[1..][j - |stem| - 1];
    }
    var i := LastIndexOf(p, '.');
    assert p[|stem|] == '.';
  }

  /** No character of `stem + e` after `stem` is a separator when `e` has none. */
  lemma SeparatorFreeSuffix(stem: string, e: string)
    requires '/' !in e
    ensures forall j :: |stem| <= j < |stem + e| ==> (stem + e)[j] != '/'
  {
    forall j | |stem| <= j < |stem + e|
      ensures (stem + e)[j] != '/'
    {
      assert (stem + e)[j] == e[j - |stem|];
    }
  }

  /** A file name may itself end in a dot: `a..mp4` has the extension `.mp4` and is supported. */
  lemma DotEndingStemSupported()
    ensures Ext("a..mp4") == ".mp4" && IsSupportedFile("a..mp4")
  {
    assert LastIndexOf("a.", '/') == -1 && "a."[0] != '.';
    NamedFileSupportedIffExt("a.", ".mp4");
    assert "a." + ".mp4" == "a..mp4";
    assert Lower(".mp4") == ".mp4";
  }

  /** A character absent from `t` is last found in `s + t` where it is last found in `s`. */
  lemma LastIndexOfPrefix(s: string, t: string, c: char)
    requires forall j :: |s| <= j < |s + t| ==> (s + t)[j] != c
    ensures LastIndexOf(s + t, c) == LastIndexOf(s, c)
  {
    var i := LastIndexOf(s + t, c);
    var i0 := LastIndexOf(s, c);
    if i0 >= 0 {
      assert (s + t)[i0] == c;
    }
    if i >= 0 {
      assert s[i] == c;
    }
  }

  /** `x or default` for an optional number: a missing value and zero both give the default. */
  function OrDefault(x: Option<int>, default: int): (r: int)
    ensures r == default <== x.None? || x.value == 0
    ensures x.Some? && x.value != 0 ==> r == x.value
  {
    if x.None? || x.value == 0 then default else x.value
  }

  /** The number in [b.lo, b.hi] closest to `f`: where `set_frame` lands by default. */
  function Clamp(f: int, b: Bounds): (c: int)
    requires b.Valid()
    ensures b.Has(c)
    ensures b.Has(f) ==> c == f
    ensures forall y :: b.Has(y) ==> (if c <= f then f - c <= if y <= f then f - y else y - f
                                      else c - f <= if y <= f then f - y else y - f)
  {
    if f < b.lo then b.lo else if f > b.hi then b.hi else f
  }

  /** How many reads succeed before the first failing one; reading past the end fails. */
  function LeadingSuccesses(results: seq<bool>): (n: nat)
    ensures n <= |results|
    ensures forall k :: 0 <= k < n ==> results[k]
    ensures n < |results| ==> !results[n]
  {
    if results == [] || !results[0] then 0 else 1 + LeadingSuccesses(results[1..])
  }

  /** The frame count `set_video` settles on: the reported one, or the counted one when zero is reported. */
  function FrameCount(reported: int, results: seq<bool>): int {
    if reported == 0 then LeadingSuccesses(results) else reported
  }

  /**
   * The frame count as the counting branch is written: a read yields two
   * values, and unpacking them into a single target raises ValueError, so
   * a video whose decoder reports zero frames is never counted.
   */
  function FrameCountAsWritten(reported: int): (r: Result<int>)
    ensures r.Failure? <==> reported == 0
    ensures r.Failure? ==> r.error == ValueError
    ensures r.Success? ==> r.value == reported
  {
    if reported == 0 then Failure(ValueError) else Success(reported)
  }

  /**
   * A video that reports no frame count but has three readable frames: as
   * written the count raises, while counting the successful reads gives 3.
   */
  lemma UncountedVideoRaisesAsWritten()
    ensures FrameCountAsWritten(0) == Failure(ValueError)
    ensures FrameCount(0, [true, true, true, false]) == 3
  {
    assert LeadingSuccesses([true, true, true, false][1..][1..][1..]) == 0;
  }

  class VideoSkimmer {
    /** `_frame_slider`: its range is the frame range, its bounds the video's frames. */
    const slider: AdjustableRangeSlider
    /** `_video_path` */
    var videoPath: Option<string>
    /** `_video is not None` */
    var videoOpen: bool
    /** `_current_frame` */
    var currentFrame: int
    /** `_total_frames` */
    var totalFrames: int

    ghost predicate Valid()
      reads this, slider, slider.limits, slider.absolutes
    {
      slider.Valid()
    }

    constructor ()
      ensures Valid() && fresh(slider) && fresh(slider.limits) && fresh(slider.absolutes)
      ensures videoPath == None && !videoOpen && !HasVideo()
      ensures currentFrame == -1 && totalFrames == 0 && LargestFrame() == -1
      ensures slider.limits.Value() == Bounds(0, 0) && slider.absolutes.Value() == Bounds(0, 0)
    {
      slider := new AdjustableRangeSlider();
      videoPath := None;
      videoOpen := false;
      currentFrame := -1;
      totalFrames := 0;
    }

    /** `has_video`: a path was taken and the video was opened. */
    function HasVideo(): (b: bool)
      reads this
      ensures b <==> videoPath.Some? && videoOpen
    {
      videoPath.Some? && videoOpen
    }

    /** `get_largest_frame`: the index of the last frame, -1 without frames. */
    function LargestFrame(): (f: int)
      reads this
      ensures f + 1 == totalFrames
      ensures totalFrames >= 1 ==> 0 <= f < totalFrames
    {
      totalFrames - 1
    }

    /** `in_frame_range`: the frame lies in the slider's current range. */
    function InFrameRange(frame: int): (b: bool)
      reads this, slider, slider.limits
      ensures b <==> slider.limits.Value().Has(frame)
    {
      slider.limits.Contains(frame)
    }

    /**
     * `set_frame_range(start, stop)`: a missing or zero start means 0, a
     * missing or zero stop the last frame. `start > stop` raises, and so does
     * a range outside the slider's bounds; otherwise it becomes the range.
     */
    method SetFrameRange(start: Option<int>, stop: Option<int>) returns (r: Outcome)
      requires Valid()
      modifies slider, slider.limits, slider.absolutes
      ensures Valid()
      ensures slider.absolutes.Value() == old(slider.absolutes.Value())
      ensures var lo, hi := OrDefault(start, 0), OrDefault(stop, LargestFrame());
              if lo <= hi && old(slider.absolutes.Value()).Covers(Bounds(lo, hi)) then
                r == Pass && slider.limits.Value() == Bounds(lo, hi) && slider.FieldsShowRange()
              else
                && r == Fail(ValueError)
                && slider.limits.Value() == old(slider.limits.Value())
                && slider.minText == old(slider.minText) && slider.maxText == old(slider.maxText)
    {
      var newRange := InclusiveInterval.New(OrDefault(start, 0), OrDefault(stop, LargestFrame()));
      if newRange.Failure? {
        return Fail(newRange.error);
      }
      // `*new_range` unpacks the interval through indices 0 and 1
      var lo := newRange.value.GetItem(0);
      var hi := newRange.value.GetItem(1);
      r := slider.SetLimits(lo.value, hi.value, false);
    }

    /**
     * `set_frame`: nothing happens without a video. By default a frame
     * outside the range is moved to the nearest end of it; with
     * `assumeClosest` off it raises ValueError and the frame stays.
     */
    method SetFrame(frame: int, assumeClosest: bool) returns (r: Outcome)
      requires Valid()
      modifies this
      ensures Valid()
      ensures videoPath == old(videoPath) && videoOpen == old(videoOpen) && totalFrames == old(totalFrames)
      ensures !old(HasVideo()) ==> r == Pass && currentFrame == old(currentFrame)
      ensures old(HasVideo()) && assumeClosest ==>
                r == Pass && currentFrame == Clamp(frame, slider.limits.Value())
      ensures old(HasVideo()) && !assumeClosest ==>
                if slider.limits.Contains(frame) then r == Pass && currentFrame == frame
                else r == Fail(ValueError) && currentFrame == old(currentFrame)
    {
      if !HasVideo() {
        return Pass;
      }
      var f := frame;
      if assumeClosest {
        if f < slider.limits.min {
          f := slider.limits.min;
        } else if f > slider.limits.max {
          f := slider.limits.max;
        }
      } else if !slider.limits.Contains(f) {
        return Fail(ValueError);
      }
      currentFrame := f;
      return Pass;
    }

    /** `next_frame`: one frame on if that frame is in range and a video is loaded, else nothing. */
    method NextFrame()
      requires Valid()
      modifies this
      ensures Valid()
      ensures videoPath == old(videoPath) && videoOpen == old(videoOpen) && totalFrames == old(totalFrames)
      ensures currentFrame ==
                if old(HasVideo()) && slider.limits.Contains(old(currentFrame) + 1) then old(currentFrame) + 1
                else old(currentFrame)
    {
      if !InFrameRange(currentFrame + 1) {
        return;
      }
      var r := SetFrame(currentFrame + 1, true);
    }

    /** `prev_frame`: one frame back if that frame is in range and a video is loaded, else nothing. */
    method PrevFrame()
      requires Valid()
      modifies this
      ensures Valid()
      ensures videoPath == old(videoPath) && videoOpen == old(videoOpen) && totalFrames == old(totalFrames)
      ensures currentFrame ==
                if old(HasVideo()) && slider.limits.Contains(old(currentFrame) - 1) then old(currentFrame) - 1
                else old(currentFrame)
    {
      if !InFrameRange(currentFrame - 1) {
        return;
      }
      var r := SetFrame(currentFrame - 1, true);
    }

    /**
     * `set_video`: a missing file raises FileNotFoundError and an
     * unsupported extension ValueError, both before anything changes. Then
     * the video is opened and its frames counted; the bounds and the range
     * become [0, last frame] and frame 0 is selected. A video without
     * frames makes the bounds call raise after the video was taken.
     */
    method SetVideo(path: string, fileExists: bool, reportedCount: int, results: seq<bool>) returns (r: Outcome)
      requires Valid()
      modifies this, slider, slider.limits, slider.absolutes
      ensures Valid()
      ensures !fileExists ==>
                r == Fail(FileNotFoundError) && unchanged(this, slider, slider.limits, slider.absolutes)
      ensures fileExists && !IsSupportedFile(path) ==>
                r == Fail(ValueError) && unchanged(this, slider, slider.limits, slider.absolutes)
      ensures fileExists && IsSupportedFile(path) ==>
                && videoPath == Some(path) && HasVideo()
                && totalFrames == FrameCount(reportedCount, results)
      ensures fileExists && IsSupportedFile(path) && totalFrames >= 1 ==>
                && r == Pass
                && slider.absolutes.Value() == Bounds(0, LargestFrame())
                && slider.limits.Value() == Bounds(0, LargestFrame())
                && slider.FieldsShowRange()
                && currentFrame == 0
      ensures fileExists && IsSupportedFile(path) && totalFrames < 1 ==>
                && r == Fail(ValueError)
                && currentFrame == old(currentFrame)
                && slider.limits.Value() == old(slider.limits.Value())
                && slider.absolutes.Value() == old(slider.absolutes.Value())
                && slider.minText == old(slider.minText) && slider.maxText == old(slider.maxText)
    {
      if !fileExists {
        return Fail(FileNotFoundError);
      }
      if !IsSupportedFile(path) {
        return Fail(ValueError);
      }
      videoPath := Some(path);
      videoOpen := true;
      totalFrames := reportedCount;

      // the decoder reported no count: read frames until a read fails (the
      // intended loop; `FrameCountAsWritten` is the branch as written)
      if totalFrames == 0 {
        var i := 0;
        var ret := i < |results| && results[i];
        while ret
          invariant 0 <= i <= |results|
          invariant totalFrames == i
          invariant forall k :: 0 <= k < i ==> results[k]
          invariant ret == (i < |results| && results[i])
          invariant videoPath == Some(path) && videoOpen && currentFrame == old(currentFrame)
          modifies this
          decreases |results| - i
        {
          totalFrames := totalFrames + 1;
          i := i + 1;
          ret := i < |results| && results[i];
        }
        assert totalFrames == LeadingSuccesses(results);
      }

      r := slider.SetAbsolutes(0, LargestFrame());
      if r.Fail? {
        return r;
      }
      r := SetFrameRange(None, None);
      assert r == Pass;
      r := SetFrame(0, true);
    }
  }

  /** A video whose decoder reports no frame count but which has three readable frames. */
  method CountedVideoScenario() {
    var v := new VideoSkimmer();
    var r := v.SetVideo("clip.mp4", true, 0, [true, true, true, false]);
    assert Ext("clip.mp4") == ".mp4" by {
      NamedFileSupportedIffExt("clip", ".mp4");
      assert "clip" + ".mp4" == "clip.mp4";
    }
    assert Lower(".mp4") == ".mp4";
    assert LeadingSuccesses([true, true, true, false]) == 3;
    assert v.LargestFrame() == 2;
    assert v.currentFrame == 0;
    v.NextFrame();
    v.NextFrame();
    assert v.currentFrame == 2;
    // at the last frame of the range `next_frame` stops without raising
    v.NextFrame();
    assert v.currentFrame == 2;
  }
}
