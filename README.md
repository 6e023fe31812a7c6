# napari-deeplabcut core, modelled in Dafny

This project models the state-keeping core of the napari-deeplabcut plugin:

- **misc** (`misc.dfy`, module `Misc`): first-seen de-duplication
  (`unsorted_unique`) and category encoding (`encode_categories`), rewriting
  a path's directory separators (`to_os_dir_sep`), the cycling enumeration
  (`CycleEnumMeta`/`CycleEnum`), and the closed integer interval
  `InclusiveInterval`. The interval is a class whose `min`/`max` are updated
  in place; its value is the datatype `Bounds`, and `Hull` (the least range
  covering two ranges) specifies `normalize`.
- **_inputs** (`inputs.dfy`, module `Inputs`): the integer test `_is_int`,
  the text-field validator, and `AdjustableRangeSlider`. The slider owns two
  intervals, the current range (`_limits`) and its bounds
  (`_absolute_limits`), and two text fields that show the range's ends.
- **video_skimmer** (`video_skimmer.dfy`, module `Skimmer`): the navigation
  state of `VideoSkimmer`. This covers which video is loaded, its frame
  count, the current frame, and the frame range and bounds held by its slider.
- **keypoints** (`keypoints.dfy`, module `Keypoints`): `LabelMode`, the
  `KeypointStore` that walks the ordered keypoint list and the frame axis,
  and `_add`, which places the current keypoint on the current frame.
- `wrappers.dfy` (module `Wrappers`): `Option`, `Result` and `Outcome`.
  Every modelled operation that raises in Python returns the kind of
  exception it raises (`ValueError`, `IndexError`, `KeyError`,
  `FileNotFoundError`, `ZeroDivisionError`, `StopIteration`).

The outside world becomes parameters. Whether the video file exists is a
boolean. The frame count the decoder reports is an integer. The success
flags of successive frame reads are a sequence. The platform's
`os.path.sep` is a character. The napari points layer and the viewer's frame
axis are two small classes, `Layer` and `Viewer`, holding the state the store
reads and writes.

Some names the code uses are not defined in `_inputs.py` or `misc.py`.
`_inputs.py` builds its intervals with `misc.Limits`, but `misc.py` defines
no `Limits`; its only interval class is `InclusiveInterval`. `video_skimmer.py` calls the slider's
`set_range`, `set_range_bounds`, `range` and `rangeChanged`, but
`AdjustableRangeSlider` defines none of them. The model assumes that these
names refer to the nearest defined members:

- `misc.Limits` is `InclusiveInterval`;
- `set_range(lo, hi)` is `set_limits(lo, hi)` without stretching;
- `set_range_bounds` is `set_absolutes`;
- `range` is the current range `_limits`.

Three behaviours of the code are easy to misread:

- `set_absolutes` replaces the bounds and then widens the current range to
  the hull of itself and the new bounds. It never narrows or clamps the range,
  and it does not skip unchanged bounds. A range [60, 70] under new bounds
  [0, 50] becomes [0, 70], which is not inside the bounds
  (`Inputs.SetAbsolutesScenario`).
- `set_frame_range` fails for a range outside the slider's bounds because
  `set_range` refuses it. A negative start is refused only in that way.
- The frame-counting branch of `set_video` does not count as written (see
  Findings). The model uses the intended loop, which counts the successful
  reads before the first failing one.

## Model

| member | source | states |
|---|---|---|
| Misc.UnsortedUnique | src/napari_deeplabcut/misc.py:16-19 | the result has no repeats, holds every input element, and holds nothing else |
| Misc.UnsortedUniqueKeepsFirstSeenOrder | src/napari_deeplabcut/misc.py:16-19 | the unique elements appear in the order of their first occurrence in the input |
| Misc.CategoryMap | src/napari_deeplabcut/misc.py:26 | the map's keys are exactly the unique values, and each maps to its position |
| Misc.EncodeCategories | src/napari_deeplabcut/misc.py:22-30 | empty input raises ValueError; otherwise each index points at its category among the unique values, and the map is returned exactly when asked for, keyed by the categories |
| Misc.ToOsDirSep | src/napari_deeplabcut/misc.py:67-87 | fails with ValueError exactly when the path holds both `\` and `/` |
| Misc.ToOsDirSepKeepsSegments | src/napari_deeplabcut/misc.py:67-87 | on success, the result split at the platform separator gives exactly the path's own segments |
| Misc.ToOsDirSepIdempotent | src/napari_deeplabcut/misc.py:67-87 | applying the rewrite to its own result changes nothing |
| Misc.CycleEnumValue | src/napari_deeplabcut/misc.py:222-223 | a member's value has the name's length, no upper-case letter, and the same upper-casing as the name |
| Misc.CycleEnumValueIsUnique | src/napari_deeplabcut/misc.py:222-223 | any text without upper-case letters that upper-cases like the name is the member's value, so the value is the lower-cased name |
| Misc.CycleEnumGetItem | src/napari_deeplabcut/misc.py:215-218 | lookup succeeds exactly when the upper-cased key is a member name, and then returns that member; otherwise KeyError |
| Misc.CycleEnumGetItemIgnoresCase | src/napari_deeplabcut/misc.py:215-223 | any spelling whose upper-casing is the name, including the member's value, finds that member |
| Misc.CycleWrapsAround | src/napari_deeplabcut/misc.py:204-213 | the cycle visits members in order, wraps from the last to the first, and repeats with period n |
| Misc.CycleEnumIterator.constructor | src/napari_deeplabcut/misc.py:204-207 | the class-level cycle starts at the first member |
| Misc.CycleEnumIterator.Next | src/napari_deeplabcut/misc.py:209-213 | yields the member under the cursor and advances it modulo the member count; with no members it raises StopIteration |
| Misc.Hull | src/napari_deeplabcut/misc.py:290-324 | the result covers both ranges, is covered by every range covering both, and is either range when that one covers the other |
| Misc.CoversIffEveryPoint | src/napari_deeplabcut/misc.py:326-338 | one range covers another exactly when it has every point of it |
| Misc.InclusiveInterval.Zero | src/napari_deeplabcut/misc.py:236-237 | the fields start at [0, 0] |
| Misc.InclusiveInterval.New | src/napari_deeplabcut/misc.py:236-238 | construction succeeds exactly when min <= max, with those bounds; otherwise ValueError |
| Misc.InclusiveInterval.Set | src/napari_deeplabcut/misc.py:240-256 | both bounds are replaced together, or with min > max neither is and ValueError is raised; min <= max is kept |
| Misc.InclusiveInterval.SetMin | src/napari_deeplabcut/misc.py:262-269 | a new min above max raises ValueError and changes nothing; otherwise only min changes; min <= max is kept |
| Misc.InclusiveInterval.SetMax | src/napari_deeplabcut/misc.py:275-282 | a new max below min raises ValueError and changes nothing; otherwise only max changes; min <= max is kept |
| Misc.InclusiveInterval.Copy | src/napari_deeplabcut/misc.py:284-288 | a fresh interval with the same bounds |
| Misc.InclusiveInterval.NormalizeTo | src/napari_deeplabcut/misc.py:290-324 | a missing max or lo > hi raises ValueError and changes nothing; otherwise the interval becomes the hull of itself and [lo, hi] |
| Misc.InclusiveInterval.Normalize | src/napari_deeplabcut/misc.py:290-324 | with another interval, the interval becomes the hull of both |
| Misc.InclusiveInterval.ContainsMeansMembership | src/napari_deeplabcut/misc.py:326-338 | `contains` of a number is min <= x <= max; of an interval, containment of every point |
| Misc.InclusiveInterval.Contains | src/napari_deeplabcut/misc.py:326-338 | a number is contained exactly when it lies in [min, max] |
| Misc.InclusiveInterval.ContainsInterval | src/napari_deeplabcut/misc.py:326-338 | an interval is contained exactly when this interval covers both its ends |
| Misc.InclusiveInterval.Equals | src/napari_deeplabcut/misc.py:340-344 | equal exactly when both bounds agree |
| Misc.InclusiveInterval.GetItem | src/napari_deeplabcut/misc.py:349-355 | index 0 gives min, 1 gives max, any other index raises IndexError |
| Inputs.IsInt | src/napari_deeplabcut/_inputs.py:12-30 | character by character: the first is a digit, or a sign with more text after it, and every later character is a digit |
| Inputs.IsIntIffSignedDigits | src/napari_deeplabcut/_inputs.py:12-30 | `_is_int` holds exactly for one optional sign followed by one or more digits |
| Inputs.IntToStringRoundTrip | src/napari_deeplabcut/_inputs.py:86-89 | the text `str` writes for a number passes `_is_int` and `int` reads back the same number |
| Inputs.Validate | src/napari_deeplabcut/_inputs.py:38-45 | empty or sign-only text is Intermediate, integer text Acceptable, all else Invalid; text and position come back unchanged |
| Inputs.ValidateAcceptsWrittenBounds | src/napari_deeplabcut/_inputs.py:38-45 | every number the slider writes into a field is Acceptable |
| Inputs.AdjustableRangeSlider.constructor | src/napari_deeplabcut/_inputs.py:50-63 | range and bounds start at [0, 0] and both fields show "0" |
| Inputs.AdjustableRangeSlider.MinEdited | src/napari_deeplabcut/_inputs.py:85-93 | a min above the max or outside the bounds is refused and the field shows the current min again; otherwise only the range's min changes; a range inside the bounds stays inside |
| Inputs.AdjustableRangeSlider.MaxEdited | src/napari_deeplabcut/_inputs.py:95-103 | a max below the min or outside the bounds is refused and the field shows the current max again; otherwise only the range's max changes; a range inside the bounds stays inside |
| Inputs.AdjustableRangeSlider.UpdateWidgets | src/napari_deeplabcut/_inputs.py:105-108 | both fields show the range's ends and read back as them |
| Inputs.AdjustableRangeSlider.GetLimits | src/napari_deeplabcut/_inputs.py:110-112 | a fresh copy of the current range |
| Inputs.AdjustableRangeSlider.GetAbsolutes | src/napari_deeplabcut/_inputs.py:114-116 | a fresh copy of the bounds |
| Inputs.AdjustableRangeSlider.SetLimits | src/napari_deeplabcut/_inputs.py:118-128 | min > max raises and changes nothing; stretching sets the range and widens the bounds to the hull; otherwise a range inside the bounds is set and any other raises ValueError with nothing changed; on success the range is inside the bounds |
| Inputs.AdjustableRangeSlider.SetAbsolutes | src/napari_deeplabcut/_inputs.py:130-134 | min > max raises and changes nothing; otherwise the bounds are replaced and the range becomes the hull of itself and the new bounds |
| Skimmer.IsSupportedFile | src/napari_deeplabcut/video_skimmer.py:107-109 | a supported path has an extension of a dot and three characters, which is the path's last four characters |
| Skimmer.SupportedFileEndsWithVideoExt | src/napari_deeplabcut/video_skimmer.py:107-109 | a supported path ends in `.mp4` or `.avi` in any letter case, after a file name |
| Skimmer.NamedFileSupportedIffExt | src/napari_deeplabcut/video_skimmer.py:107-109 | a file name whose last component is not only dots, plus an extension, is supported exactly when the lower-cased extension is `.mp4` or `.avi` |
| Skimmer.DotEndingStemSupported | src/napari_deeplabcut/video_skimmer.py:107-109 | a file name ending in a dot still has an extension: `a..mp4` is supported |
| Skimmer.OrDefault | src/napari_deeplabcut/video_skimmer.py:130 | a missing or zero start/stop is replaced by the default |
| Skimmer.Clamp | src/napari_deeplabcut/video_skimmer.py:217-221 | the frame is moved to the point of the range nearest to it, and kept when inside |
| Skimmer.LeadingSuccesses | src/napari_deeplabcut/video_skimmer.py:177-181 | the count is the number of successful reads before the first failing one |
| Skimmer.FrameCountAsWritten | src/napari_deeplabcut/video_skimmer.py:173-181 | as written, a reported count of zero raises ValueError; any other count is kept |
| Skimmer.UncountedVideoRaisesAsWritten | src/napari_deeplabcut/video_skimmer.py:177-181 | for three readable frames and no reported count, the code as written raises while the intended count is 3 |
| Skimmer.VideoSkimmer.HasVideo | src/napari_deeplabcut/video_skimmer.py:135-144 | true exactly when a path was taken and the video is open; `SetVideo` makes it true, the constructor false |
| Skimmer.VideoSkimmer.LargestFrame | src/napari_deeplabcut/video_skimmer.py:260-261 | one less than the frame count, so a valid frame index when there are frames; `SetVideo` sets the bounds to [0, LargestFrame()] |
| Skimmer.VideoSkimmer.InFrameRange | src/napari_deeplabcut/video_skimmer.py:188-190 | true exactly when the frame lies in the slider's current range |
| Skimmer.VideoSkimmer.constructor | src/napari_deeplabcut/video_skimmer.py:44-52 | no video, current frame -1, zero frames, slider range and bounds [0, 0] |
| Skimmer.VideoSkimmer.SetFrameRange | src/napari_deeplabcut/video_skimmer.py:111-133 | defaults are 0 and the last frame; start > stop or a range outside the bounds raises ValueError and changes nothing; otherwise it becomes the range |
| Skimmer.VideoSkimmer.SetFrame | src/napari_deeplabcut/video_skimmer.py:192-230 | without a video nothing happens; by default the frame is clamped into the range; strictly, an out-of-range frame raises ValueError and the frame stays |
| Skimmer.VideoSkimmer.NextFrame | src/napari_deeplabcut/video_skimmer.py:232-244 | moves one frame on exactly when a video is loaded and the next frame is in range, and never raises |
| Skimmer.VideoSkimmer.PrevFrame | src/napari_deeplabcut/video_skimmer.py:246-258 | moves one frame back exactly when a video is loaded and the previous frame is in range, and never raises |
| Skimmer.VideoSkimmer.SetVideo | src/napari_deeplabcut/video_skimmer.py:146-186 | a missing file or an unsupported extension raises before anything changes; otherwise the video is taken, the frames counted, bounds and range become [0, last frame] and frame 0 is current; with no frames the bounds call raises after the video was taken |
| Keypoints.LabelModeGetItem | src/napari_deeplabcut/keypoints.py:25-41 | lookup by name ignores case and succeeds exactly for the three mode names; otherwise KeyError |
| Keypoints.DefaultMode | src/napari_deeplabcut/keypoints.py:43-45 | the default mode is the first in declaration order, named SEQUENTIAL |
| Keypoints.LabelModesAreThree | src/napari_deeplabcut/keypoints.py:39-45 | exactly SEQUENTIAL, QUICK and LOOP in that order, all distinct, and the default is SEQUENTIAL |
| Keypoints.LabelModeLookupRoundTrip | src/napari_deeplabcut/keypoints.py:39-41 | each mode is found under its name and under its value |
| Keypoints.KeypointsOf | src/napari_deeplabcut/keypoints.py:79-82 | one keypoint per header pair, in pair order, with label = bodypart and id = individual |
| Keypoints.KeypointsOfMatchesPairs | src/napari_deeplabcut/keypoints.py:79-82 | a keypoint is listed exactly when its (id, label) pair is in the header |
| Keypoints.KeypointsOfDistinct | src/napari_deeplabcut/keypoints.py:79-82 | pairs without repeats give a keypoint list without repeats |
| Keypoints.RowsOnFrame | src/napari_deeplabcut/keypoints.py:99-101 | the increasing indices of exactly the rows on the current frame |
| Keypoints.AnnotatedKeypoints | src/napari_deeplabcut/keypoints.py:92-97 | the keypoints of the rows on the current frame, in row order |
| Keypoints.AnnotatedMeansOnFrame | src/napari_deeplabcut/keypoints.py:92-101 | a keypoint is annotated exactly when some row on the frame carries it |
| Keypoints.NextKeypointOf | src/napari_deeplabcut/keypoints.py:117-120 | an unlisted current keypoint raises ValueError |
| Keypoints.PrevKeypointOf | src/napari_deeplabcut/keypoints.py:122-125 | an unlisted current keypoint raises ValueError |
| Keypoints.KeypointStepsAreBounded | src/napari_deeplabcut/keypoints.py:117-125 | in a list without repeats, next goes from entry i to i + 1 and stops at the last; prev goes to i - 1 and stops at the first |
| Keypoints.KeypointStepsInverse | src/napari_deeplabcut/keypoints.py:117-125 | next from a to b happens exactly when prev from b goes to a |
| Keypoints.AdvanceStepWraps | src/napari_deeplabcut/keypoints.py:157-159 | one step on, and from the last frame back to frame 0 |
| Keypoints.FirstUnlabeledFrom | src/napari_deeplabcut/keypoints.py:161-167 | the first unlabelled frame from a start frame on, or the last frame when there is none |
| Keypoints.FirstUnlabeledFrame | src/napari_deeplabcut/keypoints.py:161-167 | the smallest frame of [0, n) without a point, or n - 1 when every frame has one |
| Keypoints.UnlabeledFramesEmptyIffAllLabelled | src/napari_deeplabcut/keypoints.py:162-164 | no frame is unlabelled exactly when every frame of [0, n) carries a point |
| Keypoints.AddedRows | src/napari_deeplabcut/keypoints.py:170-181 | one row, for the current keypoint at the new coordinates, is appended exactly when the keypoint is not yet on the frame; no row changes its keypoint; at most one row moves, only in QUICK mode, and to the new coordinates |
| Keypoints.AddAppendsWhenAbsent | src/napari_deeplabcut/keypoints.py:171-176 | a keypoint not on the frame gets one new row at the end, with its label and id, and the other rows are kept |
| Keypoints.AddQuickMovesFirstRow | src/napari_deeplabcut/keypoints.py:177-181 | in QUICK mode the first row on the frame carrying the keypoint moves to the new coordinates; every other row and the row count stay |
| Keypoints.FirstAnnotatedRow | src/napari_deeplabcut/keypoints.py:178-180 | the row picked through the annotated list is the first row on the frame carrying the keypoint |
| Keypoints.AddKeepsRowsOutsideQuick | src/napari_deeplabcut/keypoints.py:170-181 | outside QUICK mode an annotated keypoint leaves the rows unchanged |
| Keypoints.KeypointStore.constructor | src/napari_deeplabcut/keypoints.py:66-70 | the keypoint list comes from the layer's header, without repeats when the pairs have none, and the frame is set to 0 |
| Keypoints.KeypointStore.SetLayer | src/napari_deeplabcut/keypoints.py:76-82 | the layer is replaced and the keypoint list rebuilt from its header, without repeats when the pairs have none |
| Keypoints.KeypointStore.CurrentKeypoint | src/napari_deeplabcut/keypoints.py:103-106 | the keypoint made of the layer's current label and current id |
| Keypoints.KeypointStore.SetCurrentKeypoint | src/napari_deeplabcut/keypoints.py:108-115 | the current keypoint changes only when no point is selected; rows and selection are untouched |
| Keypoints.KeypointStore.SetCurrentLabel | src/napari_deeplabcut/keypoints.py:135-140 | the current label changes only when no point is selected, and the id never |
| Keypoints.KeypointStore.SetCurrentId | src/napari_deeplabcut/keypoints.py:150-155 | the current id changes only when no point is selected, and the label never |
| Keypoints.KeypointStore.NextKeypoint | src/napari_deeplabcut/keypoints.py:117-120 | follows `NextKeypointOf`; the move happens only with no selection |
| Keypoints.KeypointStore.PrevKeypoint | src/napari_deeplabcut/keypoints.py:122-125 | follows `PrevKeypointOf`; the move happens only with no selection |
| Keypoints.KeypointStore.AdvanceStep | src/napari_deeplabcut/keypoints.py:157-159 | the step becomes (step + 1) mod n; zero frames raise ZeroDivisionError |
| Keypoints.KeypointStore.FindFirstUnlabeledFrame | src/napari_deeplabcut/keypoints.py:161-167 | the step becomes `FirstUnlabeledFrame` of the frames carrying points |
| Keypoints.Add | src/napari_deeplabcut/keypoints.py:170-186 | the rows become `AddedRows` (the three cases above), the selection is cleared, LOOP asks for the next frame, and the other modes move to the next keypoint |

## Left out

- Video decoding, seeking and preview rendering (`update_preview`,
  `frame2pixmap`, `ZoomView`): they need OpenCV and Qt. Reads are modelled
  only as success flags.
- Whether a file exists: a boolean parameter instead of `os.path.exists`.
- The AttributeError the code raises as shown is not modelled. In the code,
  `AdjustableRangeSlider.__init__` looks up `misc.Limits` (`_inputs.py:56`),
  and every slider call in `video_skimmer.py` names a member the slider
  does not define. The model applies the name mapping given above instead.
- The QSlider and the frame spin box, the `rangeChanged` signal and all Qt
  signal wiring and layout: they are GUI state with no rule of their own.
- The slider's range operations take no notification flag, and no change
  notification is modelled.
- `int()` truncation of float arguments to `InclusiveInterval` and the
  `astype(int)` of frame coordinates: only integer inputs are modelled.
- `InclusiveInterval.__getitem__` with a slice and `__str__`: only the
  indices 0 and 1 and other integers are modelled.
- `str.isdigit`, `str.upper` and `str.lower` are modelled on ASCII only.
  Other Unicode digits and letters are not.
- `os.path.splitext` is modelled with the POSIX separator `/` only.
- `Inputs.AdjustableRangeSlider.MinEdited`: `int()` also accepts
  surrounding blanks and `_` between digits, and the model refuses those.
  The validator keeps such text out of the field.
- `Inputs.AdjustableRangeSlider.MaxEdited`: the same restriction on `int()`.
- napari's own handling of `set_current_step` (it keeps the step inside the
  axis) is not modelled. The store's rules never move outside [0, n), with
  two exceptions when there are zero frames: the constructor asks for step
  0, and `_find_first_unlabeled_frame` asks for -1.
- The header's (individual, bodypart) pairs have no repeats because the
  header builds them from unique values. The header is not modelled, so
  `KeypointStore` states a keypoint list without repeats only for pairs
  without repeats (`Distinct(pairs) ==> Distinct(keypoints)`).
- New rows get the layer's current label and id. That is napari's rule for
  points added through `data`, stated here rather than derived.
- `merge_multiple_scorers`, `DLCHeader`, `guarantee_multiindex_rows`,
  `build_color_cycle`, the `_change_size` patch, `TOOLTIPS`, and the `labels`
  and `ids` properties: they are pandas and napari plumbing outside this
  core. The header's (individual, bodypart) pairs are a field of `Layer`.
- `Skimmer.VideoSkimmer.SetVideo`: counts the leading successful reads, as
  the loop intends. It does not raise as the code written does (see Findings).

## Findings

| source | as written | input that shows it | evidently intended | confidence | as-written member | corrected member |
|---|---|---|---|---|---|---|
| src/napari_deeplabcut/video_skimmer.py:178-181 | `ret, = self._video.read()` unpacks the two values of a read into one target and raises ValueError | any video whose decoder reports a frame count of 0, e.g. three readable frames | count the successful reads, giving 3 frames and a last frame of 2 | high, not executed | Skimmer.FrameCountAsWritten | Skimmer.LeadingSuccesses |
