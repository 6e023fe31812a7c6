/**
 * Model of src/napari_deeplabcut/keypoints.py: the labelling modes, the
 * ordered list of keypoints a points layer can hold, the `KeypointStore`
 * that moves between keypoints and frames, and `_add`, which places the
 * current keypoint on the current frame.
 *
 * The napari points layer and the viewer's frame axis are small classes
 * holding exactly the state the store reads and writes.
 */
module Keypoints {
  import opened Wrappers
  import opened Misc

  // ---------------------------------------------------------------------
  // LabelMode
  // ---------------------------------------------------------------------

  datatype LabelMode = Sequential | Quick | Loop

  /** The members in declaration order, the order the enumeration cycles through. */
  const LabelModes: seq<LabelMode> := [Sequential, Quick, Loop]

  /** The member names, in the same order. */
  const LabelModeNames: seq<string> := ["SEQUENTIAL", "QUICK", "LOOP"]

  function ModeName(m: LabelMode): string {
    match m
    case Sequential => "SEQUENTIAL"
    case Quick => "QUICK"
    case Loop => "LOOP"
  }

  /** A member's value, generated from its name by `CycleEnum`. */
  function ModeValue(m: LabelMode): string {
    CycleEnumValue(ModeName(m))
  }

  /** `LabelMode.default()`: the first mode in declaration order, SEQUENTIAL. */
  function DefaultMode(): (m: LabelMode)
    ensures m == LabelModes[0] && ModeName(m) == "SEQUENTIAL"
  {
    Sequential
  }

  /** `LabelMode[item]`: case-insensitive lookup by name; an unknown name raises KeyError. */
  function LabelModeGetItem(item: string): (r: Result<LabelMode>)
    ensures r.Success? <==> Upper(item) in LabelModeNames
    ensures r.Success? ==> ModeName(r.value) == Upper(item)
    ensures r.Failure? ==> r.error == KeyError
  {
    match CycleEnumGetItem(LabelModeNames, item)
    case Success(k) =>
      assert ModeName(LabelModes[k]) == LabelModeNames[k];
      Success(LabelModes[k])
    case Failure(e) => Failure(e)
  }

  /**
   * There are exactly three modes, SEQUENTIAL, QUICK and LOOP in that
   * order, each named once; the default is the first of them.
   */
  lemma LabelModesAreThree()
    ensures |LabelModes| == 3 && Distinct(LabelModes)
    ensures forall m: LabelMode :: m in LabelModes
    ensures forall k :: 0 <= k < 3 ==> ModeName(LabelModes[k]) == LabelModeNames[k]
    ensures Distinct(LabelModeNames)
    ensures DefaultMode() == LabelModes[0] && ModeName(DefaultMode()) == "SEQUENTIAL"
  {
    // the three names differ already in length
    assert |LabelModeNames[0]| == 10 && |LabelModeNames[1]| == 5 && |LabelModeNames[2]| == 4;
    forall m: LabelMode
      ensures m in LabelModes
    {
      assert LabelModes[match m case Sequential => 0 case Quick => 1 case Loop => 2] == m;
    }
  }

  /** Every mode is found again under its name and under its value. */
  lemma LabelModeLookupRoundTrip(m: LabelMode)
    ensures LabelModeGetItem(ModeName(m)) == Success(m)
    ensures LabelModeGetItem(ModeValue(m)) == Success(m)
  {
    LabelModesAreThree();
    var k := match m case Sequential => 0 case Quick => 1 case Loop => 2;
    assert LabelModes[k] == m;
    assert Upper(LabelModeNames[k]) == LabelModeNames[k];
    CycleEnumGetItemIgnoresCase(LabelModeNames, k, LabelModeNames[k]);
  }

  // ---------------------------------------------------------------------
  // Keypoints and the points layer
  // ---------------------------------------------------------------------

  /** The `Keypoint` named tuple: its `label` is a bodypart, its `id` an individual. */
  datatype Keypoint = Keypoint(bodypart: string, individual: string)

  /**
   * The keypoint list the `layer` setter builds from the header's
   * (individual, bodypart) pairs: one keypoint per pair, in pair order.
   */
  function KeypointsOf(pairs: seq<(string, string)>): (ks: seq<Keypoint>)
    ensures |ks| == |pairs|
    ensures forall i :: 0 <= i < |pairs| ==> ks[i] == Keypoint(pairs[i].1, pairs[i].0)
  {
    seq(|pairs|, i requires 0 <= i < |pairs| => Keypoint(pairs[i].1, pairs[i].0))
  }

  /** A keypoint is listed exactly when its (id, label) pair is in the header. */
  lemma KeypointsOfMatchesPairs(pairs: seq<(string, string)>, k: Keypoint)
    ensures k in KeypointsOf(pairs) <==> (k.individual, k.bodypart) in pairs
  {
    var ks := KeypointsOf(pairs);
    if k in ks {
      var i :| 0 <= i < |ks| && ks[i] == k;
      assert pairs[i] == (k.individual, k.bodypart);
    }
    if (k.individual, k.bodypart) in pairs {
      var i :| 0 <= i < |pairs| && pairs[i] == (k.individual, k.bodypart);
      assert ks[i] == k;
    }
  }

  /** Distinct pairs give distinct keypoints. */
  lemma KeypointsOfDistinct(pairs: seq<(string, string)>)
    requires Distinct(pairs)
    ensures Distinct(KeypointsOf(pairs))
  {
    var ks := KeypointsOf(pairs);
    forall i, j | 0 <= i < j < |ks|
      ensures ks[i] != ks[j]
    {
      assert pairs[i] != pairs[j];
    }
  }

  /** A point's coordinates: the frame and the position in it. */
  datatype Coord = Coord(frame: int, y: real, x: real)

  /** A row of the points layer: its coordinates and its `label` and `id` properties. */
  datatype Row = Row(coord: Coord, bodypart: string, individual: string)

  function KeypointOf(r: Row): Keypoint {
    Keypoint(r.bodypart, r.individual)
  }

  /** The state of a napari points layer that the store touches. */
  class Layer {
    /** `data` with the `label` and `id` columns of `properties`, row by row. */
    var rows: seq<Row>
    /** `current_properties["label"][0]`: the label a new point gets. */
    var currentLabel: string
    /** `current_properties["id"][0]`: the id a new point gets. */
    var currentId: string
    /** `selected_data`: the indices of the selected points. */
    var selected: set<nat>
    /** `metadata["header"].form_individual_bodypart_pairs()` */
    var pairs: seq<(string, string)>

    constructor (rows: seq<Row>, pairs: seq<(string, string)>, currentLabel: string, currentId: string)
      ensures this.rows == rows && this.pairs == pairs && selected == {}
      ensures this.currentLabel == currentLabel && this.currentId == currentId
    {
      this.rows := rows;
      this.pairs := pairs;
      this.currentLabel := currentLabel;
      this.currentId := currentId;
      selected := {};
    }
  }

  /** The viewer's first dimension: the frame axis. */
  class Viewer {
    /** `dims.current_step[0]` */
    var step: int
    /** `dims.nsteps[0]` */
    var nSteps: nat

    constructor (nSteps: nat)
      ensures this.nSteps == nSteps && step == 0
    {
      this.nSteps := nSteps;
      step := 0;
    }
  }

  // ---------------------------------------------------------------------
  // Pure rules
  // ---------------------------------------------------------------------

  /**
   * `np.flatnonzero(current_mask)`: the indices of the rows on frame
   * `step`, in increasing order, and no others.
   */
  function RowsOnFrame(rows: seq<Row>, step: int): (idx: seq<nat>)
    ensures forall k :: 0 <= k < |idx| ==> idx[k] < |rows| && rows[idx[k]].coord.frame == step
    ensures forall k, l :: 0 <= k < l < |idx| ==> idx[k] < idx[l]
    ensures forall j :: 0 <= j < |rows| && rows[j].coord.frame == step ==> j in idx
  {
    if rows == [] then []
    else
      var init := rows[..|rows| - 1];
      var idx := RowsOnFrame(init, step);
      if rows[|rows| - 1].coord.frame == step then idx + [|rows| - 1] else idx
  }

  /** `annotated_keypoints`: the keypoints of the rows on frame `step`, in row order. */
  function AnnotatedKeypoints(rows: seq<Row>, step: int): (ks: seq<Keypoint>)
    ensures |ks| == |RowsOnFrame(rows, step)|
    ensures forall k :: 0 <= k < |ks| ==> ks[k] == KeypointOf(rows[RowsOnFrame(rows, step)[k]])
  {
    var idx := RowsOnFrame(rows, step);
    seq(|idx|, k requires 0 <= k < |idx| => KeypointOf(rows[idx[k]]))
  }

  /** A keypoint is annotated on a frame exactly when some row on that frame carries it. */
  lemma AnnotatedMeansOnFrame(rows: seq<Row>, step: int, kp: Keypoint)
    ensures kp in AnnotatedKeypoints(rows, step) <==>
            exists j :: 0 <= j < |rows| && rows[j].coord.frame == step && KeypointOf(rows[j]) == kp
  {
    var idx := RowsOnFrame(rows, step);
    var ks := AnnotatedKeypoints(rows, step);
    if kp in ks {
      var k :| 0 <= k < |ks| && ks[k] == kp;
      assert rows[idx[k]].coord.frame == step && KeypointOf(rows[idx[k]]) == kp;
    }
    if exists j :: 0 <= j < |rows| && rows[j].coord.frame == step && KeypointOf(rows[j]) == kp {
      var j :| 0 <= j < |rows| && rows[j].coord.frame == step && KeypointOf(rows[j]) == kp;
      var k :| 0 <= k < |idx| && idx[k] == j;
      assert ks[k] == kp;
    }
  }

  /**
   * The keypoint `next_keypoint` moves to: the entry after the first
   * occurrence of `cur`, none at the last entry, and ValueError when `cur`
   * is not listed.
   */
  function NextKeypointOf(ks: seq<Keypoint>, cur: Keypoint): (r: Result<Option<Keypoint>>)
    ensures r.Failure? <==> cur !in ks
    ensures r.Failure? ==> r.error == ValueError
  {
    if cur !in ks then Failure(ValueError)
    else
      var ind := FirstIndex(ks, cur) + 1;
      if ind <= |ks| - 1 then Success(Some(ks[ind])) else Success(None)
  }

  /** The keypoint `prev_keypoint` moves to: the entry before, none at the first entry. */
  function PrevKeypointOf(ks: seq<Keypoint>, cur: Keypoint): (r: Result<Option<Keypoint>>)
    ensures r.Failure? <==> cur !in ks
    ensures r.Failure? ==> r.error == ValueError
  {
    if cur !in ks then Failure(ValueError)
    else
      var ind := FirstIndex(ks, cur) - 1;
      if ind >= 0 then Success(Some(ks[ind])) else Success(None)
  }

  /**
   * In a list without repetitions, stepping forward goes from entry `i` to
   * entry `i + 1` and stops at the last; stepping back goes to `i - 1` and
   * stops at the first.
   */
  lemma KeypointStepsAreBounded(ks: seq<Keypoint>, i: nat)
    requires Distinct(ks) && i < |ks|
    ensures NextKeypointOf(ks, ks[i]) == if i + 1 < |ks| then Success(Some(ks[i + 1])) else Success(None)
    ensures PrevKeypointOf(ks, ks[i]) == if i > 0 then Success(Some(ks[i - 1])) else Success(None)
  {
    FirstIndexOfDistinct(ks, i);
  }

  /** Forward and back undo each other wherever a step is taken. */
  lemma KeypointStepsInverse(ks: seq<Keypoint>, a: Keypoint, b: Keypoint)
    requires Distinct(ks)
    ensures NextKeypointOf(ks, a) == Success(Some(b)) <==> PrevKeypointOf(ks, b) == Success(Some(a))
  {
    if NextKeypointOf(ks, a) == Success(Some(b)) {
      var i := FirstIndex(ks, a);
      KeypointStepsAreBounded(ks, i);
      KeypointStepsAreBounded(ks, i + 1);
    }
    if PrevKeypointOf(ks, b) == Success(Some(a)) {
      var i := FirstIndex(ks, b);
      KeypointStepsAreBounded(ks, i);
      KeypointStepsAreBounded(ks, i - 1);
    }
  }

  /** `_advance_step` wraps: one frame on, and from the last frame back to frame 0. */
  lemma AdvanceStepWraps(step: int, n: nat)
    requires 0 <= step < n
    ensures Succ(step, n) == if step == n - 1 then 0 else step + 1
  {
    if step < n - 1 {
      assert (step + 1) % n == step + 1;
    } else {
      assert (step + 1) % n == n % n == 0;
    }
  }

  /** The frames that carry at least one point. */
  function LabelledFrames(rows: seq<Row>): set<int> {
    set r | r in rows :: r.coord.frame
  }

  /** The frames of [0, n) without a point. */
  function UnlabeledFrames(labelled: set<int>, n: nat): set<int> {
    set i | 0 <= i < n && i !in labelled
  }

  /** The first frame from `i` on without a point, or `n - 1` when there is none. */
  function FirstUnlabeledFrom(labelled: set<int>, i: nat, n: nat): (f: int)
    requires i <= n
    ensures (forall k :: i <= k < n ==> k in labelled) ==> f == n - 1
    ensures (exists k :: i <= k < n && k !in labelled) ==>
              i <= f < n && f !in labelled && forall k :: i <= k < f ==> k in labelled
    decreases n - i
  {
    if i == n then n - 1
    else if i !in labelled then i
    else FirstUnlabeledFrom(labelled, i + 1, n)
  }

  /**
   * The frame `_find_first_unlabeled_frame` moves to: the smallest
   * unlabelled frame, or the last frame when every frame is labelled.
   */
  function FirstUnlabeledFrame(labelled: set<int>, n: nat): (f: int)
    ensures UnlabeledFrames(labelled, n) == {} ==> f == n - 1
    ensures UnlabeledFrames(labelled, n) != {} ==>
              f in UnlabeledFrames(labelled, n) && forall u :: u in UnlabeledFrames(labelled, n) ==> f <= u
  {
    UnlabeledFramesEmptyIffAllLabelled(labelled, n);
    FirstUnlabeledFrom(labelled, 0, n)
  }

  lemma UnlabeledFramesEmptyIffAllLabelled(labelled: set<int>, n: nat)
    ensures UnlabeledFrames(labelled, n) == {} <==> forall k :: 0 <= k < n ==> k in labelled
  {
    if UnlabeledFrames(labelled, n) == {} {
      forall k | 0 <= k < n
        ensures k in labelled
      {
        assert k !in UnlabeledFrames(labelled, n);
      }
    } else {
      var u :| u in UnlabeledFrames(labelled, n);
      assert 0 <= u < n && u !in labelled;
    }
  }

  /**
   * The rows after `_add` places `coord` for the current keypoint `cur`
   * on frame `step` in labelling mode `mode`.
   */
  function AddedRows(rows: seq<Row>, step: int, cur: Keypoint, coord: Coord, mode: LabelMode): (r: seq<Row>)
    // a row is appended, for `cur`, exactly when `cur` is not yet on the frame
    ensures |r| == |rows| + 1 <==> cur !in AnnotatedKeypoints(rows, step)
    ensures |r| == |rows| || |r| == |rows| + 1
    ensures |r| > |rows| ==> r[|rows|] == Row(coord, cur.bodypart, cur.individual)
    // no row changes its keypoint, at most one row moves, and only in QUICK mode
    ensures forall i :: 0 <= i < |rows| ==> KeypointOf(r[i]) == KeypointOf(rows[i])
    ensures forall i :: 0 <= i < |rows| && r[i] != rows[i] ==> mode == Quick && r[i].coord == coord
    ensures forall i, k :: 0 <= i < k < |rows| && r[i] != rows[i] ==> r[k] == rows[k]
  {
    var annotated := AnnotatedKeypoints(rows, step);
    if cur !in annotated then rows + [Row(coord, cur.bodypart, cur.individual)]
    else if mode == Quick then
      var j := RowsOnFrame(rows, step)[FirstIndex(annotated, cur)];
      rows[j := Row(coord, rows[j].bodypart, rows[j].individual)]
    else rows
  }

  /** Some row on frame `step` carries keypoint `kp`. */
  predicate OnFrame(rows: seq<Row>, step: int, kp: Keypoint) {
    exists j :: 0 <= j < |rows| && rows[j].coord.frame == step && KeypointOf(rows[j]) == kp
  }

  /** Row `j` is the first row on frame `step` that carries keypoint `kp`. */
  predicate FirstRowOf(rows: seq<Row>, step: int, kp: Keypoint, j: int) {
    && 0 <= j < |rows| && rows[j].coord.frame == step && KeypointOf(rows[j]) == kp
    && forall i :: 0 <= i < j && rows[i].coord.frame == step ==> KeypointOf(rows[i]) != kp
  }

  /** `_add` of a keypoint not yet on the frame appends one row for it and keeps the others. */
  lemma AddAppendsWhenAbsent(rows: seq<Row>, step: int, cur: Keypoint, coord: Coord, mode: LabelMode)
    requires !OnFrame(rows, step, cur)
    ensures AddedRows(rows, step, cur, coord, mode) == rows + [Row(coord, cur.bodypart, cur.individual)]
  {
    AnnotatedMeansOnFrame(rows, step, cur);
  }

  /**
   * In QUICK mode `_add` of a keypoint already on the frame moves the first
   * row carrying it to `coord`; every other row stays, and so does the count.
   */
  lemma AddQuickMovesFirstRow(rows: seq<Row>, step: int, cur: Keypoint, coord: Coord)
    requires OnFrame(rows, step, cur)
    ensures exists j :: FirstRowOf(rows, step, cur, j) &&
              AddedRows(rows, step, cur, coord, Quick) == rows[j := Row(coord, cur.bodypart, cur.individual)]
  {
    AnnotatedMeansOnFrame(rows, step, cur);
    var j := FirstAnnotatedRow(rows, step, cur);
    assert AddedRows(rows, step, cur, coord, Quick) == rows[j := Row(coord, cur.bodypart, cur.individual)];
  }

  /** The row `_add` overwrites: the first row on the frame carrying the keypoint. */
  lemma FirstAnnotatedRow(rows: seq<Row>, step: int, cur: Keypoint) returns (j: nat)
    requires cur in AnnotatedKeypoints(rows, step)
    ensures j == RowsOnFrame(rows, step)[FirstIndex(AnnotatedKeypoints(rows, step), cur)]
    ensures FirstRowOf(rows, step, cur, j)
  {
    var annotated := AnnotatedKeypoints(rows, step);
    var idx := RowsOnFrame(rows, step);
    var ind := FirstIndex(annotated, cur);
    j := idx[ind];
    assert KeypointOf(rows[j]) == annotated[ind];
    forall i | 0 <= i < j && rows[i].coord.frame == step
      ensures KeypointOf(rows[i]) != cur
    {
      var k :| 0 <= k < |idx| && idx[k] == i;
      assert k < ind;
      assert annotated[k] == KeypointOf(rows[i]);
    }
  }

  /** Outside QUICK mode `_add` of a keypoint already on the frame leaves the rows as they are. */
  lemma AddKeepsRowsOutsideQuick(rows: seq<Row>, step: int, cur: Keypoint, coord: Coord, mode: LabelMode)
    requires OnFrame(rows, step, cur) && mode != Quick
    ensures AddedRows(rows, step, cur, coord, mode) == rows
  {
    AnnotatedMeansOnFrame(rows, step, cur);
  }

  // ---------------------------------------------------------------------
  // KeypointStore
  // ---------------------------------------------------------------------

  class KeypointStore {
    const viewer: Viewer
    var layer: Layer
    /** `_keypoints`: every keypoint the layer can hold, in header order. */
    var keypoints: seq<Keypoint>

    /** Takes the layer through the `layer` setter and moves to frame 0. */
    constructor (viewer: Viewer, layer: Layer)
      modifies viewer
      ensures this.viewer == viewer && this.layer == layer
      ensures keypoints == KeypointsOf(layer.pairs)
      ensures Distinct(layer.pairs) ==> Distinct(keypoints)
      ensures viewer.step == 0 && viewer.nSteps == old(viewer.nSteps)
    {
      this.viewer := viewer;
      this.layer := layer;
      keypoints := KeypointsOf(layer.pairs);
      if Distinct(layer.pairs) {
        KeypointsOfDistinct(layer.pairs);
      }
      new;
      viewer.step := 0;
    }

    /**
     * The `layer` setter: the keypoint list is rebuilt from the new layer's
     * header. The header's pairs come from unique individuals and
     * bodyparts, so the list then has no repeats.
     */
    method SetLayer(l: Layer)
      modifies this
      ensures layer == l && keypoints == KeypointsOf(l.pairs)
      ensures Distinct(l.pairs) ==> Distinct(keypoints)
    {
      layer := l;
      keypoints := KeypointsOf(l.pairs);
      if Distinct(l.pairs) {
        KeypointsOfDistinct(l.pairs);
      }
    }

    /** `current_keypoint` */
    function CurrentKeypoint(): (k: Keypoint)
      reads this, layer
      ensures k.bodypart == layer.currentLabel && k.individual == layer.currentId
    {
      Keypoint(layer.currentLabel, layer.currentId)
    }

    /** The `current_keypoint` setter: ignored while any point is selected. */
    method SetCurrentKeypoint(k: Keypoint)
      modifies layer
      ensures layer.rows == old(layer.rows) && layer.selected == old(layer.selected) && layer.pairs == old(layer.pairs)
      ensures CurrentKeypoint() == if old(layer.selected) == {} then k else old(CurrentKeypoint())
    {
      if layer.selected == {} {
        layer.currentLabel := k.bodypart;
        layer.currentId := k.individual;
      }
    }

    /** The `current_label` setter: ignored while any point is selected. */
    method SetCurrentLabel(newLabel: string)
      modifies layer
      ensures layer.rows == old(layer.rows) && layer.selected == old(layer.selected) && layer.pairs == old(layer.pairs)
      ensures layer.currentId == old(layer.currentId)
      ensures layer.currentLabel == if old(layer.selected) == {} then newLabel else old(layer.currentLabel)
    {
      if layer.selected == {} {
        layer.currentLabel := newLabel;
      }
    }

    /** The `current_id` setter: ignored while any point is selected. */
    method SetCurrentId(newId: string)
      modifies layer
      ensures layer.rows == old(layer.rows) && layer.selected == old(layer.selected) && layer.pairs == old(layer.pairs)
      ensures layer.currentLabel == old(layer.currentLabel)
      ensures layer.currentId == if old(layer.selected) == {} then newId else old(layer.currentId)
    {
      if layer.selected == {} {
        layer.currentId := newId;
      }
    }

    /**
     * `next_keypoint`: the following keypoint of the list becomes current,
     * if there is one and no point is selected.
     */
    method NextKeypoint() returns (r: Outcome)
      modifies layer
      ensures layer.rows == old(layer.rows) && layer.selected == old(layer.selected) && layer.pairs == old(layer.pairs)
      ensures match NextKeypointOf(keypoints, old(CurrentKeypoint()))
              case Failure(e) => r == Fail(e) && CurrentKeypoint() == old(CurrentKeypoint())
              case Success(None) => r == Pass && CurrentKeypoint() == old(CurrentKeypoint())
              case Success(Some(k)) =>
                r == Pass && CurrentKeypoint() == if old(layer.selected) == {} then k else old(CurrentKeypoint())
    {
      var cur := CurrentKeypoint();
      if cur !in keypoints {
        return Fail(ValueError);
      }
      var ind := FirstIndex(keypoints, cur) + 1;
      if ind <= |keypoints| - 1 {
        SetCurrentKeypoint(keypoints[ind]);
      }
      return Pass;
    }

    /**
     * `prev_keypoint`: the preceding keypoint of the list becomes current,
     * if there is one and no point is selected.
     */
    method PrevKeypoint() returns (r: Outcome)
      modifies layer
      ensures layer.rows == old(layer.rows) && layer.selected == old(layer.selected) && layer.pairs == old(layer.pairs)
      ensures match PrevKeypointOf(keypoints, old(CurrentKeypoint()))
              case Failure(e) => r == Fail(e) && CurrentKeypoint() == old(CurrentKeypoint())
              case Success(None) => r == Pass && CurrentKeypoint() == old(CurrentKeypoint())
              case Success(Some(k)) =>
                r == Pass && CurrentKeypoint() == if old(layer.selected) == {} then k else old(CurrentKeypoint())
    {
      var cur := CurrentKeypoint();
      if cur !in keypoints {
        return Fail(ValueError);
      }
      var ind := FirstIndex(keypoints, cur) - 1;
      if ind >= 0 {
        SetCurrentKeypoint(keypoints[ind]);
      }
      return Pass;
    }

    /** `_advance_step`: one frame on, wrapping to 0; no frames at all divides by zero. */
    method AdvanceStep() returns (r: Outcome)
      modifies viewer
      ensures viewer.nSteps == old(viewer.nSteps)
      ensures old(viewer.nSteps) == 0 ==> r == Fail(ZeroDivisionError) && viewer.step == old(viewer.step)
      ensures old(viewer.nSteps) > 0 ==> r == Pass && viewer.step == Succ(old(viewer.step), viewer.nSteps)
    {
      if viewer.nSteps == 0 {
        return Fail(ZeroDivisionError);
      }
      viewer.step := (viewer.step + 1) % viewer.nSteps;
      return Pass;
    }

    /** `_find_first_unlabeled_frame` */
    method FindFirstUnlabeledFrame()
      modifies viewer
      ensures viewer.nSteps == old(viewer.nSteps)
      ensures viewer.step == FirstUnlabeledFrame(LabelledFrames(layer.rows), viewer.nSteps)
    {
      var unlabeled := UnlabeledFrames(LabelledFrames(layer.rows), viewer.nSteps);
      if unlabeled == {} {
        viewer.step := viewer.nSteps - 1;
      } else {
        viewer.step := FirstUnlabeledFrame(LabelledFrames(layer.rows), viewer.nSteps);
      }
    }
  }

  /**
   * `_add`: places `coord` for the current keypoint on the current frame
   * (see `AddAppendsWhenAbsent`, `AddQuickMovesFirstRow` and
   * `AddKeepsRowsOutsideQuick`), clears the selection, and then either asks for
   * the next frame (LOOP) or moves on to the next keypoint.
   */
  method Add(store: KeypointStore, coord: Coord, mode: LabelMode) returns (queryNextFrame: bool, r: Outcome)
    modifies store.layer
    ensures store.layer.rows ==
            AddedRows(old(store.layer.rows), store.viewer.step, old(store.CurrentKeypoint()), coord, mode)
    ensures store.layer.selected == {} && store.layer.pairs == old(store.layer.pairs)
    ensures queryNextFrame <==> mode == Loop
    ensures mode == Loop ==> r == Pass && store.CurrentKeypoint() == old(store.CurrentKeypoint())
    ensures mode != Loop ==>
              match NextKeypointOf(store.keypoints, old(store.CurrentKeypoint()))
              case Failure(e) => r == Fail(e) && store.CurrentKeypoint() == old(store.CurrentKeypoint())
              case Success(None) => r == Pass && store.CurrentKeypoint() == old(store.CurrentKeypoint())
              case Success(Some(k)) => r == Pass && store.CurrentKeypoint() == k
  {
    var layer := store.layer;
    var cur := store.CurrentKeypoint();
    var annotated := AnnotatedKeypoints(layer.rows, store.viewer.step);
    if cur !in annotated {
      layer.rows := layer.rows + [Row(coord, cur.bodypart, cur.individual)];
    } else if mode == Quick {
      var ind := FirstIndex(annotated, cur);
      var j := RowsOnFrame(layer.rows, store.viewer.step)[ind];
      layer.rows := layer.rows[j := Row(coord, layer.rows[j].bodypart, layer.rows[j].individual)];
    }
    layer.selected := {};
    if mode == Loop {
      return true, Pass;
    }
    r := store.NextKeypoint();
    return false, r;
  }

  /**
   * Keypoints (mouse, nose) and (mouse, tail) on a frame where the nose is
   * already placed: in QUICK mode adding the nose again moves its point and
   * the tail becomes current; in SEQUENTIAL mode adding the tail appends it.
   */
  method QuickThenSequentialScenario() {
    var nose := Row(Coord(0, 1.0, 1.0), "nose", "mouse");
    var layer := new Layer([nose], [("mouse", "nose"), ("mouse", "tail")], "nose", "mouse");
    var viewer := new Viewer(5);
    var store := new KeypointStore(viewer, layer);
    assert store.keypoints == [Keypoint("nose", "mouse"), Keypoint("tail", "mouse")];
    assert KeypointOf([nose][0]) == Keypoint("nose", "mouse");
    AddQuickMovesFirstRow([nose], 0, Keypoint("nose", "mouse"), Coord(0, 2.0, 3.0));
    var query, r := Add(store, Coord(0, 2.0, 3.0), Quick);
    assert layer.rows == [Row(Coord(0, 2.0, 3.0), "nose", "mouse")];
    KeypointStepsAreBounded(store.keypoints, 0);
    assert store.CurrentKeypoint() == Keypoint("tail", "mouse");
    var rows := layer.rows;
    AddAppendsWhenAbsent(rows, 0, Keypoint("tail", "mouse"), Coord(0, 4.0, 4.0), Sequential);
    query, r := Add(store, Coord(0, 4.0, 4.0), Sequential);
    assert |layer.rows| == 2 && layer.rows[1] == Row(Coord(0, 4.0, 4.0), "tail", "mouse");
    // the tail is the last keypoint: the current keypoint stays
    KeypointStepsAreBounded(store.keypoints, 1);
    assert store.CurrentKeypoint() == Keypoint("tail", "mouse");
  }
}
